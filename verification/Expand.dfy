/** Expansion of a table over attributes into a table over individual types. */
module Expand {
  import opened Wrappers
  import opened Avtab
  import opened Policy

  /** The identity of a rule in the expanded table. Extended permission rules are
      told apart by kind and driver as well. */
  datatype RuleId = RuleId(key: Key, xspec: nat, driver: nat)

  function Id(n: Node): RuleId {
    if n.key.specified * XPERMS != {} then RuleId(n.key, n.datum.xperms.specified, n.datum.xperms.driver)
    else RuleId(n.key, 0, 0)
  }

  ghost predicate SingleKinds(rules: seq<Node>) {
    forall k | 0 <= k < |rules| :: SingleKind(rules[k].key.specified)
  }

  predicate IsTypeRule(s: Spec) {
    s == {Transition} || s == {Member} || s == {Change}
  }

  /** How a second datum for one rule is folded into the first. */
  function MergeDatum(s: Spec, d: Datum, e: Datum): Datum {
    if s == {Allowed} || s == {AuditAllow} then d.(data := d.data + e.data)
    else if s == {AuditDeny} then d.(data := d.data * e.data)
    else d.(xperms := d.xperms.(perms := d.xperms.perms + e.xperms.perms))
  }

  // ---------- the destination table as a map from rules to data ----------

  type RuleMap = map<RuleId, Datum>

  ghost predicate HasId(c: Chain, id: RuleId) {
    exists i :: 0 <= i < |c| && Id(c[i]) == id
  }

  ghost predicate ChainAgrees(c: Chain, m: RuleMap) {
    && (forall i | 0 <= i < |c| :: SingleKind(c[i].key.specified) && Id(c[i]) in m && m[Id(c[i])] == c[i].datum)
    && (forall i, j | 0 <= i < j < |c| :: Id(c[i]) != Id(c[j]))
  }

  /** The chains hold exactly one node per rule of m, with the datum m gives it. */
  ghost predicate Agrees(chains: seq<Chain>, hash: Triple -> nat, m: RuleMap) {
    && (forall t :: hash(t) < |chains|)
    && (forall b, i | 0 <= b < |chains| && 0 <= i < |chains[b]| :: hash(chains[b][i].key.triple) == b)
    && (forall b {:trigger ChainAgrees(chains[b], m)} | 0 <= b < |chains| :: ChainAgrees(chains[b], m))
    && (forall id {:trigger HasId(chains[hash(id.key.triple)], id)} | id in m :: HasId(chains[hash(id.key.triple)], id))
  }

  ghost predicate Represents(a: Table, m: RuleMap)
    reads a
  {
    a.Valid() && a.htable != [] && Agrees(a.htable, a.hash, m)
  }

  lemma KindsOverlap(key: Key, n: Node)
    requires SingleKind(key.specified) && SingleKind(n.key.specified)
    ensures Matches(key, n) <==> key == n.key
  {
    var f: Flag :| f != Enabled && key.specified == {f};
    var g: Flag :| g != Enabled && n.key.specified == {g};
    assert key.specified - {Enabled} == {f};
    if f != g { assert {f} * {g} == {}; } else { assert f in {f} * {g}; }
  }

  /** The node speaks about the same rule, Enabled marks aside: for extended permissions
      kind and driver must agree as well. */
  predicate SameRule(key: Key, d: Datum, n: Node) {
    Matches(key, n) && (key.specified * XPERMS != {} ==> SameBlock(d, n.datum))
  }

  predicate SameBlock(d: Datum, e: Datum) {
    d.xperms.specified == e.xperms.specified && d.xperms.driver == e.xperms.driver
  }

  /** The first node of the chain, from position i on, for the same rule. */
  function FirstRule(c: Chain, key: Key, d: Datum, i: nat): (r: nat)
    requires i <= |c|
    ensures i <= r <= |c|
    ensures r < |c| ==> SameRule(key, d, c[r])
    ensures forall j | i <= j < r :: !SameRule(key, d, c[j])
    decreases |c| - i
  {
    if i == |c| || SameRule(key, d, c[i]) then i else FirstRule(c, key, d, i + 1)
  }

  lemma {:induction false} FirstRuleFromMatch(c: Chain, key: Key, d: Datum, i: nat)
    requires i <= |c|
    ensures FirstRule(c, key, d, FirstMatch(c, key, i)) == FirstRule(c, key, d, i)
    decreases |c| - i
  {
    if i < |c| && !Matches(key, c[i]) { FirstRuleFromMatch(c, key, d, i + 1); }
  }

  lemma {:induction false} FirstRulePlain(c: Chain, key: Key, d: Datum, i: nat)
    requires i <= |c| && key.specified * XPERMS == {}
    ensures FirstRule(c, key, d, i) == FirstMatch(c, key, i)
    decreases |c| - i
  {
    if i < |c| { FirstRulePlain(c, key, d, i + 1); }
  }

  /** The rule is found from the first match at or after `at`. */
  ghost predicate FoundFrom(c: Chain, key: Key, d: Datum, at: nat)
    requires at <= |c|
  {
    FirstRule(c, key, d, 0) == FirstRule(c, key, d, FirstMatch(c, key, at))
  }

  lemma NotThisBlock(c: Chain, key: Key, d: Datum, at: nat, r: nat)
    requires at <= |c| && IsFirst(c, key, at, Some(r)) && FoundFrom(c, key, d, at)
    requires key.specified * XPERMS != {}
    ensures r < |c|
    ensures SameBlock(d, c[r].datum) ==> FirstRule(c, key, d, 0) == r
    ensures !SameBlock(d, c[r].datum) ==> FoundFrom(c, key, d, r + 1)
  {
    FirstRuleFromMatch(c, key, d, r + 1);
  }

  lemma NoFurtherBlock(c: Chain, key: Key, d: Datum, at: nat)
    requires at <= |c| && IsFirst(c, key, at, None) && FoundFrom(c, key, d, at)
    ensures FirstRule(c, key, d, 0) == |c|
  {
  }

  /** Finds the node of a rule. For extended permissions the search goes on until kind and
      driver agree. */
  method FindRule(a: Table, key: Key, d: Datum) returns (r: Option<nat>)
    requires a.Valid() && a.htable != []
    ensures var c := a.Bucket(key.triple); var first := FirstRule(c, key, d, 0);
            r == if first < |c| then Some(first) else None
  {
    r := a.SearchNode(key);
    if key.specified * XPERMS != {} {
      r := NextBlock(a, key, d, r);
    } else {
      FirstRulePlain(a.Bucket(key.triple), key, d, 0);
    }
  }

  method NextBlock(a: Table, key: Key, d: Datum, node: Option<nat>) returns (r: Option<nat>)
    requires a.Valid() && a.htable != [] && key.specified * XPERMS != {}
    requires IsFirst(a.Bucket(key.triple), key, 0, node)
    ensures var c := a.Bucket(key.triple); var first := FirstRule(c, key, d, 0);
            r == if first < |c| then Some(first) else None
  {
    var c := a.htable[a.hash(key.triple)];
    FirstRuleFromMatch(c, key, d, 0);
    r := node;
    ghost var at := 0;
    while r.Some?
      invariant at <= |c| && IsFirst(c, key, at, r) && FoundFrom(c, key, d, at)
      decreases |c| - at
    {
      NotThisBlock(c, key, d, at, r.value);
      if SameBlock(d, c[r.value].datum) { return; }
      at := r.value + 1;
      r := a.SearchNodeNext(key, r.value);
    }
    NoFurtherBlock(c, key, d, at);
  }

  /** For rules of a single kind without marks, the node found is the one with the rule's
      identity. */
  lemma FirstRuleHasId(c: Chain, key: Key, d: Datum)
    requires SingleKind(key.specified) && SingleKinds(c)
    ensures var r, id := FirstRule(c, key, d, 0), Id(Node(key, d));
            if r < |c| then Id(c[r]) == id else !HasId(c, id)
  {
    forall i | 0 <= i < |c| ensures SameRule(key, d, c[i]) <==> Id(c[i]) == Id(Node(key, d)) {
      KindsOverlap(key, c[i]);
    }
  }

  /** One insertion into the expanded table. A rule that is not there, or there with another
      Enabled mark, gets a node of its own; otherwise the datum is folded in, unless the
      rule is a type rule. */
  method ExpandAvtabInsert(a: Table, key: Key, d: Datum, ghost m: RuleMap) returns (ok: bool)
    requires a.Valid() && a.htable != []
    modifies a
    ensures a.Valid() && a.htable != []
    ensures Outcome(old(a.htable), a.hash, a.htable, key, d, ok)
    ensures old(Represents(a, m)) && SingleKind(key.specified) ==> ok == MergeInto(m, Node(key, d)).Some?
    ensures old(Represents(a, m)) && SingleKind(key.specified) && ok ==> Represents(a, MergeInto(m, Node(key, d)).value)
  {
    ghost var before := a.htable;
    var r := FindRule(a, key, d);
    if r.None? || (Enabled in key.specified) != (Enabled in a.Bucket(key.triple)[r.value].key.specified) {
      ok := a.InsertNonunique(key, d);
    } else {
      var merged := Accumulate(key.specified, a.Bucket(key.triple)[r.value].datum, d);
      ok := merged.Some?;
      if ok { a.SetDatum(key.triple, r.value, merged.value); }
    }
    if Agrees(before, a.hash, m) && SingleKind(key.specified) {
      OutcomeAgrees(before, a.hash, a.htable, key, d, ok, m);
    }
  }

  /** Data of this kind can be folded together. */
  predicate Mergeable(kind: Spec) {
    kind == {Allowed} || kind == {AuditAllow} || kind == {AuditDeny}
    || kind == {XpermsAllowed} || kind == {XpermsAuditAllow} || kind == {XpermsDontAudit}
  }

  /** What an insertion makes of the table. */
  ghost predicate Outcome(before: seq<Chain>, hash: Triple -> nat, after: seq<Chain>, key: Key, d: Datum, ok: bool) {
    var h := hash(key.triple);
    && h < |before|
    && var c, r := before[h], FirstRule(before[h], key, d, 0);
       if r == |c| || (Enabled in key.specified) != (Enabled in c[r].key.specified) then
         ok && after == before[h := InsertAt(c, InsertPosition(c, key, 0), Node(key, d))]
       else if !Mergeable(key.specified - {Enabled}) then
         !ok && after == before
       else
         ok && after == before[h := c[r := c[r].(datum := MergeDatum(key.specified - {Enabled}, c[r].datum, d))]]
  }

  /** For unmarked rules the table goes on representing the map. */
  lemma OutcomeAgrees(before: seq<Chain>, hash: Triple -> nat, after: seq<Chain>, key: Key, d: Datum, ok: bool,
                      m: RuleMap)
    requires Agrees(before, hash, m) && SingleKind(key.specified) && Outcome(before, hash, after, key, d, ok)
    ensures ok == MergeInto(m, Node(key, d)).Some?
    ensures ok ==> Agrees(after, hash, MergeInto(m, Node(key, d)).value)
  {
    var n, c := Node(key, d), before[hash(key.triple)];
    var r := FirstRule(c, key, d, 0);
    assert ChainAgrees(c, m);
    FirstRuleHasId(c, key, d);
    KindIsMergeable(key.specified);
    if r == |c| {
      InsertedAgrees(before, hash, n, m);
    } else {
      FoundIsInMap(before, hash, key.triple, r, n, m);
      if ok { UpdatedAgrees(before, hash, n, r, MergeDatum(key.specified, c[r].datum, d), m); }
    }
  }

  lemma KindIsMergeable(s: Spec)
    requires SingleKind(s)
    ensures s - {Enabled} == s && (Mergeable(s) <==> !IsTypeRule(s))
  {
    var f: Flag :| f != Enabled && s == {f};
  }

  /** Folds datum d into the one already there; None is "Type conflict!". */
  method Accumulate(specified: Spec, found: Datum, d: Datum) returns (merged: Option<Datum>)
    ensures merged.Some? <==> Mergeable(specified - {Enabled})
    ensures merged.Some? ==> merged.value == MergeDatum(specified - {Enabled}, found, d)
  {
    var kind := specified - {Enabled};
    if kind == {Allowed} || kind == {AuditAllow} {
      merged := Some(found.(data := found.data + d.data));
    } else if kind == {AuditDeny} {
      merged := Some(found.(data := found.data * d.data));
    } else if kind == {XpermsAllowed} || kind == {XpermsAuditAllow} || kind == {XpermsDontAudit} {
      merged := Some(found.(xperms := found.xperms.(perms := found.xperms.perms + d.xperms.perms)));
    } else {
      merged := None;
    }
  }

  /** What one insertion does to the map; None is the conflict of type rules. */
  function MergeInto(m: RuleMap, n: Node): Option<RuleMap> {
    var id := Id(n);
    if id !in m then Some(m[id := n.datum])
    else if IsTypeRule(n.key.specified) then None
    else Some(m[id := MergeDatum(n.key.specified, m[id], n.datum)])
  }

  lemma FoundIsInMap(chains: seq<Chain>, hash: Triple -> nat, t: Triple, at: nat, n: Node, m: RuleMap)
    requires Agrees(chains, hash, m)
    requires at < |chains[hash(t)]| && Id(chains[hash(t)][at]) == Id(n) && SingleKind(n.key.specified)
    ensures Id(n) in m && m[Id(n)] == chains[hash(t)][at].datum
    ensures Enabled !in chains[hash(t)][at].key.specified && Enabled !in n.key.specified
  {
    assert ChainAgrees(chains[hash(t)], m);
  }

  lemma InsertedAgrees(chains: seq<Chain>, hash: Triple -> nat, n: Node, m: RuleMap)
    requires Agrees(chains, hash, m) && Id(n) !in m && SingleKind(n.key.specified)
    ensures var h := hash(n.key.triple);
            Agrees(chains[h := InsertAt(chains[h], InsertPosition(chains[h], n.key, 0), n)], hash, m[Id(n) := n.datum])
  {
    var h, m' := hash(n.key.triple), m[Id(n) := n.datum];
    var pos := InsertPosition(chains[h], n.key, 0);
    var chains' := chains[h := InsertAt(chains[h], pos, n)];
    InsertedChainsAgree(chains, hash, n, pos, m);
    forall id | id in m'
      ensures HasId(chains'[hash(id.key.triple)], id)
    {
      InsertHasId(chains[h], pos, n, id);
    }
  }

  lemma InsertedChainsAgree(chains: seq<Chain>, hash: Triple -> nat, n: Node, pos: nat, m: RuleMap)
    requires Agrees(chains, hash, m) && Id(n) !in m && SingleKind(n.key.specified)
    requires pos <= |chains[hash(n.key.triple)]|
    ensures var h := hash(n.key.triple);
            var chains' := chains[h := InsertAt(chains[h], pos, n)];
            && (forall b | 0 <= b < |chains'| :: ChainAgrees(chains'[b], m[Id(n) := n.datum]))
            && (forall b, i | 0 <= b < |chains'| && 0 <= i < |chains'[b]| :: hash(chains'[b][i].key.triple) == b)
  {
    var h := hash(n.key.triple);
    var chains' := chains[h := InsertAt(chains[h], pos, n)];
    forall b | 0 <= b < |chains'|
      ensures ChainAgrees(chains'[b], m[Id(n) := n.datum])
    {
      assert ChainAgrees(chains[b], m);
      if b == h { InsertAgrees(chains[h], pos, n, m); }
    }
  }

  lemma InsertHasId(c: Chain, pos: nat, n: Node, id: RuleId)
    requires pos <= |c|
    ensures HasId(InsertAt(c, pos, n), id) <==> HasId(c, id) || id == Id(n)
  {
    var c' := InsertAt(c, pos, n);
    assert c'[pos] == n;
    if HasId(c, id) {
      var i :| 0 <= i < |c| && Id(c[i]) == id;
      assert c'[if i < pos then i else i + 1] == c[i];
    }
    if HasId(c', id) && id != Id(n) {
      var i :| 0 <= i < |c'| && Id(c'[i]) == id;
      assert c'[i] == c[if i < pos then i else i - 1];
    }
  }

  lemma InsertAgrees(c: Chain, pos: nat, n: Node, m: RuleMap)
    requires ChainAgrees(c, m) && Id(n) !in m && SingleKind(n.key.specified) && pos <= |c|
    ensures ChainAgrees(InsertAt(c, pos, n), m[Id(n) := n.datum])
  {
  }

  lemma UpdatedAgrees(chains: seq<Chain>, hash: Triple -> nat, n: Node, at: nat, d: Datum, m: RuleMap)
    requires Agrees(chains, hash, m)
    requires var c := chains[hash(n.key.triple)]; at < |c| && Id(c[at]) == Id(n)
    requires Id(n.(datum := d)) == Id(n)
    ensures var h := hash(n.key.triple);
            Agrees(chains[h := chains[h][at := chains[h][at].(datum := d)]], hash, m[Id(n) := d])
  {
    var h, m' := hash(n.key.triple), m[Id(n) := d];
    var chains' := chains[h := chains[h][at := chains[h][at].(datum := d)]];
    forall b | 0 <= b < |chains'|
      ensures ChainAgrees(chains'[b], m')
    {
      assert ChainAgrees(chains[b], m);
      forall i | 0 <= i < |chains[b]|
        ensures Id(chains'[b][i]) == Id(chains[b][i])
      {
      }
      forall i | 0 <= i < |chains[b]| && Id(chains[b][i]) == Id(n)
        ensures b == h && i == at
      {
        assert hash(chains[b][i].key.triple) == b;
      }
    }
    forall id | id in m'
      ensures HasId(chains'[hash(id.key.triple)], id)
    {
      var c := chains[hash(id.key.triple)];
      assert HasId(c, id);
      var i :| 0 <= i < |c| && Id(c[i]) == id;
      assert Id(chains'[hash(id.key.triple)][i]) == id;
    }
  }

  // ---------- the whole expansion ----------

  /** Rule e with its types replaced by the individual types of indexes i and j. */
  function Instance(e: Node, i: nat, j: nat): Node {
    e.(key := e.key.(triple := Triple(i + 1, j + 1, e.key.triple.cls)))
  }

  ghost function Pairs(p: Types, e: Node): set<(nat, nat)> {
    set i, j | i in p.Behind(e.key.triple.src) && j in p.Behind(e.key.triple.tgt) :: (i, j)
  }

  /** The record of an expansion: which instance of which rule was inserted when. */
  datatype Step = Step(rule: nat, i: nat, j: nat)

  function StepNode(rules: seq<Node>, st: Step): Node
    requires st.rule < |rules|
  {
    Instance(rules[st.rule], st.i, st.j)
  }

  ghost predicate Trace(rules: seq<Node>, log: seq<Step>) {
    && (forall k | 0 <= k < |log| :: log[k].rule < |rules|)
    && (forall k, l | 0 <= k < l < |log| :: log[k] != log[l])
  }

  /** The pairs of rule y inserted so far are exactly `done`. */
  ghost predicate Covered(log: seq<Step>, y: nat, done: set<(nat, nat)>) {
    && (forall k | 0 <= k < |log| && log[k].rule == y :: (log[k].i, log[k].j) in done)
    && (forall i, j | (i, j) in done :: Step(y, i, j) in log)
  }

  /** The map that the logged insertions build up, if no type rules conflict. */
  ghost function Merged(rules: seq<Node>, log: seq<Step>): Option<RuleMap>
    requires forall k | 0 <= k < |log| :: log[k].rule < |rules|
  {
    if log == [] then Some(map[])
    else
      var m := Merged(rules, log[..|log| - 1]);
      if m.None? then None else MergeInto(m.value, StepNode(rules, log[|log| - 1]))
  }

  /** Two different type rules of one kind speak about the same types and class. */
  ghost predicate TypeConflict(p: Types, rules: seq<Node>) {
    exists x, y, i, j :: ConflictAt(p, rules, x, y, i, j)
  }

  ghost predicate ConflictAt(p: Types, rules: seq<Node>, x: nat, y: nat, i: nat, j: nat) {
    && x < y < |rules|
    && IsTypeRule(rules[x].key.specified)
    && (i, j) in Pairs(p, rules[x]) && (i, j) in Pairs(p, rules[y])
    && Instance(rules[x], i, j).key == Instance(rules[y], i, j).key
  }

  /** All rules before y are expanded, rule y as far as `done`, later ones not at all. */
  ghost predicate Progress(p: Types, rules: seq<Node>, log: seq<Step>, y: nat, done: set<(nat, nat)>) {
    && Trace(rules, log)
    && y <= |rules|
    && (forall k | 0 <= k < |log| :: log[k].rule <= y)
    && (forall x {:trigger Covered(log, x, Pairs(p, rules[x]))} | 0 <= x < y :: Covered(log, x, Pairs(p, rules[x])))
    && Covered(log, y, done)
    && Merged(rules, log).Some?
  }

  /** The pairs of rule e that a nested walk over both type sets has passed when it
      stands at (i, j). */
  ghost function PairsBelow(p: Types, e: Node, i: nat, j: nat): set<(nat, nat)> {
    set q | q in Pairs(p, e) && (q.0 < i || (q.0 == i && q.1 < j))
  }

  lemma ProgressStep(p: Types, rules: seq<Node>, log: seq<Step>, y: nat, i: nat, j: nat, done: set<(nat, nat)>)
    requires y < |rules| && Progress(p, rules, log, y, done) && (i, j) !in done
    requires MergeInto(Merged(rules, log).value, Instance(rules[y], i, j)).Some?
    ensures Progress(p, rules, log + [Step(y, i, j)], y, done + {(i, j)})
    ensures Merged(rules, log + [Step(y, i, j)]) == MergeInto(Merged(rules, log).value, Instance(rules[y], i, j))
  {
    var st := Step(y, i, j);
    CoveredHere(log, y, i, j, done);
    TraceStep(rules, log, st);
    MergedStep(rules, log, st);
    forall x | 0 <= x < y
      ensures Covered(log + [st], x, Pairs(p, rules[x]))
    {
      assert Covered(log, x, Pairs(p, rules[x]));
      CoveredElsewhere(log, st, x, Pairs(p, rules[x]));
    }
    assert forall k | 0 <= k < |log + [st]| :: (log + [st])[k].rule <= y;
  }

  lemma TraceStep(rules: seq<Node>, log: seq<Step>, st: Step)
    requires Trace(rules, log) && st.rule < |rules| && st !in log
    ensures Trace(rules, log + [st])
  {
  }

  lemma CoveredElsewhere(log: seq<Step>, st: Step, x: nat, done: set<(nat, nat)>)
    requires Covered(log, x, done) && st.rule != x
    ensures Covered(log + [st], x, done)
  {
  }

  lemma CoveredHere(log: seq<Step>, y: nat, i: nat, j: nat, done: set<(nat, nat)>)
    requires Covered(log, y, done) && (i, j) !in done
    ensures Covered(log + [Step(y, i, j)], y, done + {(i, j)})
    ensures Step(y, i, j) !in log
  {
  }

  /** An insertion that the map refuses reveals two conflicting type rules. */
  lemma RefusalIsConflict(p: Types, rules: seq<Node>, log: seq<Step>, y: nat, i: nat, j: nat, done: set<(nat, nat)>)
    requires y < |rules| && Progress(p, rules, log, y, done)
    requires (i, j) in Pairs(p, rules[y]) && (i, j) !in done
    requires MergeInto(Merged(rules, log).value, Instance(rules[y], i, j)).None?
    ensures TypeConflict(p, rules)
  {
    var n := Instance(rules[y], i, j);
    MergedKeys(rules, log, Id(n));
    var k :| Inserts(rules, log, k, Id(n));
    var st := log[k];
    assert StepNode(rules, st).key == n.key;
    assert st.i == i && st.j == j;
    if st.rule < y {
      assert Covered(log, st.rule, Pairs(p, rules[st.rule]));
      assert ConflictAt(p, rules, st.rule, y, i, j);
    }
  }

  /** The insertion of one instance of rule y. */
  method InsertInstance(p: Types, expa: Table, key: Key, d: Datum, ghost rules: seq<Node>, ghost log: seq<Step>,
                        ghost y: nat, ghost i: nat, ghost j: nat, ghost done: set<(nat, nat)>)
    returns (ok: bool, ghost log': seq<Step>)
    requires y < |rules| && SingleKinds(rules) && Node(key, d) == Instance(rules[y], i, j)
    requires (i, j) in Pairs(p, rules[y]) && (i, j) !in done
    requires Progress(p, rules, log, y, done) && Represents(expa, Merged(rules, log).value)
    modifies expa
    ensures ok ==> Progress(p, rules, log', y, done + {(i, j)}) && Represents(expa, Merged(rules, log').value)
    ensures !ok ==> TypeConflict(p, rules)
  {
    assert SingleKind(rules[y].key.specified);
    ok := ExpandAvtabInsert(expa, key, d, Merged(rules, log).value);
    log' := log + [Step(y, i, j)];
    if ok {
      ProgressStep(p, rules, log, y, i, j, done);
    } else {
      RefusalIsConflict(p, rules, log, y, i, j, done);
    }
  }

  /** Expands rule y: four cases, by which of its types are individual already. */
  method ExpandAvtabNode(p: Types, expa: Table, key: Key, d: Datum, ghost rules: seq<Node>, ghost log: seq<Step>,
                         ghost y: nat)
    returns (ok: bool, ghost log': seq<Step>)
    requires p.Valid() && RulesInRange(p, rules) && SingleKinds(rules)
    requires y < |rules| && rules[y] == Node(key, d)
    requires Progress(p, rules, log, y, {}) && Represents(expa, Merged(rules, log).value)
    modifies expa
    ensures ok ==> Progress(p, rules, log', y, Pairs(p, rules[y])) && Represents(expa, Merged(rules, log').value)
    ensures !ok ==> TypeConflict(p, rules)
  {
    assert RuleInRange(p, rules[y]);
    var s, t := key.triple.src, key.triple.tgt;
    ghost var e := rules[y];
    log' := log;
    if p.individual[s - 1] && p.individual[t - 1] {
      BothIndividual(p, e);
      ok, log' := InsertInstance(p, expa, key, d, rules, log, y, s - 1, t - 1, {});
      return;
    }
    if p.individual[s - 1] {
      SourceIndividual(p, e);
      ok, log' := ExpandTargets(p, expa, key, d, rules, log, y, s - 1);
      return;
    }
    if p.individual[t - 1] {
      ok, log' := ExpandSources(p, expa, key, d, rules, log, y);
      return;
    }
    ok, log' := ExpandBoth(p, expa, key, d, rules, log, y);
  }

  lemma BothIndividual(p: Types, e: Node)
    requires p.Valid() && RuleInRange(p, e) && p.individual[e.key.triple.src - 1] && p.individual[e.key.triple.tgt - 1]
    ensures var s, t := e.key.triple.src - 1, e.key.triple.tgt - 1;
            (s, t) in Pairs(p, e) && Pairs(p, e) == {} + {(s, t)} && Instance(e, s, t) == e
  {
  }

  lemma SourceIndividual(p: Types, e: Node)
    requires p.Valid() && RuleInRange(p, e) && p.individual[e.key.triple.src - 1]
    ensures var s := e.key.triple.src - 1;
            s in p.Behind(s + 1) && PairsBelow(p, e, s, 0) == {} && PairsBelow(p, e, s + 1, 0) == Pairs(p, e)
  {
    PairsBelowEnds(p, e, e.key.triple.src - 1);
  }

  /** The walk over the types of both sides when neither is individual. */
  method ExpandBoth(p: Types, expa: Table, key: Key, d: Datum, ghost rules: seq<Node>, ghost log: seq<Step>,
                    ghost y: nat)
    returns (ok: bool, ghost log': seq<Step>)
    requires p.Valid() && RulesInRange(p, rules) && SingleKinds(rules)
    requires y < |rules| && rules[y] == Node(key, d) && p.InRange(key.triple.src)
    requires Progress(p, rules, log, y, {}) && Represents(expa, Merged(rules, log).value)
    modifies expa
    ensures ok ==> Progress(p, rules, log', y, Pairs(p, rules[y])) && Represents(expa, Merged(rules, log').value)
    ensures !ok ==> TypeConflict(p, rules)
  {
    ghost var e := rules[y];
    assert RuleInRange(p, e);
    log' := log;
    PairsBelowEnds(p, e, 0);
    for i := 0 to p.Count()
      invariant Progress(p, rules, log', y, PairsBelow(p, e, i, 0))
      invariant Represents(expa, Merged(rules, log').value)
    {
      ok, log' := ExpandSource(p, expa, key, d, rules, log', y, i);
      if !ok { return; }
    }
    PairsBelowEnds(p, e, p.Count());
    ok := true;
  }

  /** One source index of that walk. */
  method ExpandSource(p: Types, expa: Table, key: Key, d: Datum, ghost rules: seq<Node>, ghost log: seq<Step>,
                      ghost y: nat,
                      i: nat)
    returns (ok: bool, ghost log': seq<Step>)
    requires p.Valid() && RulesInRange(p, rules) && SingleKinds(rules)
    requires y < |rules| && rules[y] == Node(key, d) && p.InRange(key.triple.src)
    requires Progress(p, rules, log, y, PairsBelow(p, rules[y], i, 0)) && Represents(expa, Merged(rules, log).value)
    modifies expa
    ensures ok ==> Progress(p, rules, log', y, PairsBelow(p, rules[y], i + 1, 0))
    ensures ok ==> Represents(expa, Merged(rules, log').value)
    ensures !ok ==> TypeConflict(p, rules)
  {
    assert RuleInRange(p, rules[y]);
    PairsBelowEnds(p, rules[y], i);
    ok, log' := true, log;
    if i in p.attrTypes[key.triple.src - 1] {
      ok, log' := ExpandTargets(p, expa, key, d, rules, log, y, i);
    }
  }

  /** The walk over the source's types when the target is individual. */
  method ExpandSources(p: Types, expa: Table, key: Key, d: Datum, ghost rules: seq<Node>, ghost log: seq<Step>,
                       ghost y: nat)
    returns (ok: bool, ghost log': seq<Step>)
    requires p.Valid() && RulesInRange(p, rules) && SingleKinds(rules)
    requires y < |rules| && rules[y] == Node(key, d)
    requires p.InRange(key.triple.tgt) && p.individual[key.triple.tgt - 1]
    requires Progress(p, rules, log, y, {}) && Represents(expa, Merged(rules, log).value)
    modifies expa
    ensures ok ==> Progress(p, rules, log', y, Pairs(p, rules[y])) && Represents(expa, Merged(rules, log').value)
    ensures !ok ==> TypeConflict(p, rules)
  {
    ghost var e := rules[y];
    assert RuleInRange(p, e);
    var t, sattr, n := key.triple.tgt, p.attrTypes[key.triple.src - 1], p.Count();
    log' := log;
    PairsBelowEnds(p, e, 0);
    for i := 0 to n
      invariant Progress(p, rules, log', y, PairsBelow(p, e, i, 0))
      invariant Represents(expa, Merged(rules, log').value)
    {
      PairsBelowEnds(p, e, i);
      PairsBelowTarget(p, e, i);
      if i !in sattr { continue; }
      var newkey := key.(triple := Triple(i + 1, t, key.triple.cls));
      ok, log' := InsertInstance(p, expa, newkey, d, rules, log', y, i, t - 1, PairsBelow(p, e, i, 0));
      if !ok { return; }
    }
    PairsBelowEnds(p, e, n);
    ok := true;
  }

  /** The walk over the target's types for one source type of index i. */
  method ExpandTargets(p: Types, expa: Table, key: Key, d: Datum, ghost rules: seq<Node>, ghost log: seq<Step>,
                       ghost y: nat,
                       i: nat)
    returns (ok: bool, ghost log': seq<Step>)
    requires p.Valid() && RulesInRange(p, rules) && SingleKinds(rules)
    requires y < |rules| && rules[y] == Node(key, d) && i in p.Behind(key.triple.src)
    requires Progress(p, rules, log, y, PairsBelow(p, rules[y], i, 0)) && Represents(expa, Merged(rules, log).value)
    modifies expa
    ensures ok ==> Progress(p, rules, log', y, PairsBelow(p, rules[y], i + 1, 0))
    ensures ok ==> Represents(expa, Merged(rules, log').value)
    ensures !ok ==> TypeConflict(p, rules)
  {
    ghost var e := rules[y];
    assert RuleInRange(p, e);
    var tattr := p.attrTypes[key.triple.tgt - 1];
    log' := log;
    for j := 0 to p.Count()
      invariant Progress(p, rules, log', y, PairsBelow(p, e, i, j))
      invariant Represents(expa, Merged(rules, log').value)
    {
      PairsBelowStep(p, e, i, j);
      if j !in tattr { continue; }
      var newkey := key.(triple := Triple(i + 1, j + 1, key.triple.cls));
      ok, log' := InsertInstance(p, expa, newkey, d, rules, log', y, i, j, PairsBelow(p, e, i, j));
      if !ok { return; }
    }
    PairsBelowEnds(p, e, i);
    ok := true;
  }

  lemma PairsBelowStep(p: Types, e: Node, i: nat, j: nat)
    ensures (i, j) !in PairsBelow(p, e, i, j)
    ensures PairsBelow(p, e, i, j + 1) == PairsBelow(p, e, i, j) + if (i, j) in Pairs(p, e) then {(i, j)} else {}
    ensures (i, j) in Pairs(p, e) <==> i in p.Behind(e.key.triple.src) && j in p.Behind(e.key.triple.tgt)
  {
  }

  lemma PairsBelowEnds(p: Types, e: Node, i: nat)
    requires p.Valid() && RuleInRange(p, e)
    ensures PairsBelow(p, e, 0, 0) == {}
    ensures PairsBelow(p, e, i, p.Count()) == PairsBelow(p, e, i + 1, 0)
    ensures PairsBelow(p, e, p.Count(), 0) == Pairs(p, e)
    ensures i !in p.Behind(e.key.triple.src) ==> PairsBelow(p, e, i + 1, 0) == PairsBelow(p, e, i, 0)
    ensures p.Behind(e.key.triple.src) == {i} ==>
      PairsBelow(p, e, i, 0) == {} && PairsBelow(p, e, i + 1, 0) == Pairs(p, e)
  {
    forall q | q in Pairs(p, e)
      ensures q.0 < p.Count() && q.1 < p.Count()
    {
      BehindInRange(p, e.key.triple.src, q.0);
      BehindInRange(p, e.key.triple.tgt, q.1);
    }
  }

  lemma PairsBelowTarget(p: Types, e: Node, i: nat)
    requires p.Valid() && RuleInRange(p, e) && p.individual[e.key.triple.tgt - 1]
    ensures var t := e.key.triple.tgt - 1;
            && (i, t) !in PairsBelow(p, e, i, 0)
            && (i in p.Behind(e.key.triple.src) ==>
                  (i, t) in Pairs(p, e) && PairsBelow(p, e, i + 1, 0) == PairsBelow(p, e, i, 0) + {(i, t)})
  {
  }

  lemma MergedStep(rules: seq<Node>, log: seq<Step>, st: Step)
    requires st.rule < |rules| && forall k | 0 <= k < |log| :: log[k].rule < |rules|
    requires Merged(rules, log).Some?
    ensures Merged(rules, log + [st]) == MergeInto(Merged(rules, log).value, StepNode(rules, st))
  {
    assert (log + [st])[..|log|] == log;
  }

  /** Step k of the log inserts the rule id. */
  ghost predicate Inserts(rules: seq<Node>, log: seq<Step>, k: int, id: RuleId) {
    0 <= k < |log| && log[k].rule < |rules| && Id(StepNode(rules, log[k])) == id
  }

  lemma InsertsPrefix(rules: seq<Node>, log: seq<Step>, id: RuleId)
    requires log != [] && forall k | 0 <= k < |log| :: log[k].rule < |rules|
    ensures forall k | 0 <= k < |log| - 1 :: Inserts(rules, log[..|log| - 1], k, id) <==> Inserts(rules, log, k, id)
  {
  }

  /** A rule is in the merged map exactly when some logged instance is that rule. */
  lemma {:induction false} MergedKeys(rules: seq<Node>, log: seq<Step>, id: RuleId)
    requires forall k | 0 <= k < |log| :: log[k].rule < |rules|
    requires Merged(rules, log).Some?
    ensures id in Merged(rules, log).value <==> exists k :: Inserts(rules, log, k, id)
  {
    if log != [] {
      var n := |log| - 1;
      MergedKeys(rules, log[..n], id);
      InsertsPrefix(rules, log, id);
      if k :| Inserts(rules, log[..n], k, id) { assert Inserts(rules, log, k, id); }
      if k :| Inserts(rules, log, k, id) { assert k < n ==> Inserts(rules, log[..n], k, id); }
      assert Id(StepNode(rules, log[n])) == id ==> Inserts(rules, log, n, id);
    }
  }

  /** Some insertion under the identity has x in its access vector, or in its ioctl set. */
  ghost predicate SomeData(rules: seq<Node>, log: seq<Step>, id: RuleId, x: nat) {
    exists k :: Inserts(rules, log, k, id) && x in StepNode(rules, log[k]).datum.data
  }

  ghost predicate AllData(rules: seq<Node>, log: seq<Step>, id: RuleId, x: nat) {
    forall k | Inserts(rules, log, k, id) :: x in StepNode(rules, log[k]).datum.data
  }

  ghost predicate SomeIoctl(rules: seq<Node>, log: seq<Step>, id: RuleId, x: nat) {
    exists k :: Inserts(rules, log, k, id) && x in StepNode(rules, log[k]).datum.xperms.perms
  }

  /** One more logged insertion. */
  lemma SomeDataNext(rules: seq<Node>, log: seq<Step>, id: RuleId, x: nat)
    requires log != [] && forall k | 0 <= k < |log| :: log[k].rule < |rules|
    ensures var n := |log| - 1; var last := StepNode(rules, log[n]);
      && (SomeData(rules, log, id, x) <==> SomeData(rules, log[..n], id, x) || (Id(last) == id && x in last.datum.data))
      && (AllData(rules, log, id, x) <==> AllData(rules, log[..n], id, x) && (Id(last) == id ==> x in last.datum.data))
      && (SomeIoctl(rules, log, id, x) <==>
          SomeIoctl(rules, log[..n], id, x) || (Id(last) == id && x in last.datum.xperms.perms))
  {
    InsertsPrefix(rules, log, id);
    var n := |log| - 1;
    assert Id(StepNode(rules, log[n])) == id <==> Inserts(rules, log, n, id);
    assert forall k :: Inserts(rules, log, k, id) ==> k == n || Inserts(rules, log[..n], k, id);
  }

  /** The merged datum of a rule: the union of the instances' permissions for allow
      and auditallow, their intersection for auditdeny, and the union of the ioctl
      sets for extended permissions. */
  ghost predicate DatumIs(rules: seq<Node>, log: seq<Step>, id: RuleId, d: Datum, x: nat) {
    var s := id.key.specified;
    && (s == {Allowed} || s == {AuditAllow} ==> (x in d.data <==> SomeData(rules, log, id, x)))
    && (s == {AuditDeny} ==> (x in d.data <==> AllData(rules, log, id, x)))
    && (s * XPERMS != {} ==> (x in d.xperms.perms <==> SomeIoctl(rules, log, id, x)))
  }

  lemma {:induction false} MergedData(rules: seq<Node>, log: seq<Step>, id: RuleId, x: nat)
    requires forall k | 0 <= k < |log| :: log[k].rule < |rules|
    requires Merged(rules, log).Some? && id in Merged(rules, log).value
    requires SingleKind(id.key.specified)
    ensures DatumIs(rules, log, id, Merged(rules, log).value[id], x)
  {
    var n := |log| - 1;
    var before, last := Merged(rules, log[..n]).value, StepNode(rules, log[n]);
    if id in before {
      MergedData(rules, log[..n], id, x);
      if Id(last) ==
        id { FoldedDatum(rules, log, id, before[id], x); } else { KeptDatum(rules, log, id, before[id], x); }
    } else {
      NothingInserted(rules, log[..n], id, x);
      SomeDataNext(rules, log, id, x);
    }
  }

  /** The datum is that of every insertion under the identity. */
  ghost predicate IsOwnDatum(rules: seq<Node>, log: seq<Step>, id: RuleId, d: Datum) {
    forall k | Inserts(rules, log, k, id) :: StepNode(rules, log[k]).datum == d
  }

  /** A type rule keeps the datum it was inserted with. */
  lemma {:induction false} MergedTypeDatum(rules: seq<Node>, log: seq<Step>, id: RuleId)
    requires forall k | 0 <= k < |log| :: log[k].rule < |rules|
    requires Merged(rules, log).Some? && id in Merged(rules, log).value && IsTypeRule(id.key.specified)
    ensures IsOwnDatum(rules, log, id, Merged(rules, log).value[id])
  {
    var n := |log| - 1;
    var before, last := Merged(rules, log[..n]).value, StepNode(rules, log[n]);
    InsertsPrefix(rules, log, id);
    if id in before {
      assert Id(last) != id;
      MergedTypeDatum(rules, log[..n], id);
    } else {
      MergedKeys(rules, log[..n], id);
    }
    forall k | Inserts(rules, log, k, id) ensures StepNode(rules, log[k]).datum == Merged(rules, log).value[id] {
      assert k < n ==> Inserts(rules, log[..n], k, id);
    }
  }

  lemma FoldedDatum(rules: seq<Node>, log: seq<Step>, id: RuleId, d: Datum, x: nat)
    requires log != [] && forall k | 0 <= k < |log| :: log[k].rule < |rules|
    requires SingleKind(id.key.specified) && Id(StepNode(rules, log[|log| - 1])) == id
    requires DatumIs(rules, log[..|log| - 1], id, d, x)
    ensures DatumIs(rules, log, id, MergeDatum(id.key.specified, d, StepNode(rules, log[|log| - 1]).datum), x)
  {
    SomeDataNext(rules, log, id, x);
  }

  lemma KeptDatum(rules: seq<Node>, log: seq<Step>, id: RuleId, d: Datum, x: nat)
    requires log != [] && forall k | 0 <= k < |log| :: log[k].rule < |rules|
    requires Id(StepNode(rules, log[|log| - 1])) != id && DatumIs(rules, log[..|log| - 1], id, d, x)
    ensures DatumIs(rules, log, id, d, x)
  {
    SomeDataNext(rules, log, id, x);
  }

  lemma NothingInserted(rules: seq<Node>, log: seq<Step>, id: RuleId, x: nat)
    requires forall k | 0 <= k < |log| :: log[k].rule < |rules|
    requires Merged(rules, log).Some? && id !in Merged(rules, log).value
    ensures !SomeData(rules, log, id, x) && AllData(rules, log, id, x) && !SomeIoctl(rules, log, id, x)
  {
    MergedKeys(rules, log, id);
  }

  /** As long as the merge goes through, no type rule was inserted twice. */
  lemma {:induction false} NoTypeRuleTwice(rules: seq<Node>, log: seq<Step>, k: nat, l: nat)
    requires forall k | 0 <= k < |log| :: log[k].rule < |rules|
    requires Merged(rules, log).Some? && k < l < |log|
    requires Id(StepNode(rules, log[k])) == Id(StepNode(rules, log[l]))
    ensures !IsTypeRule(rules[log[k].rule].key.specified)
  {
    var n := |log| - 1;
    if l < n {
      NoTypeRuleTwice(rules, log[..n], k, l);
    } else {
      MergedKeys(rules, log[..n], Id(StepNode(rules, log[n])));
      assert Inserts(rules, log[..n], k, Id(StepNode(rules, log[n])));
    }
  }

  // ---------- what the expanded table means ----------

  /** Rule e of the source table contributes to the expanded rule id. */
  ghost predicate Yields(p: Types, e: Node, id: RuleId) {
    exists i, j :: (i, j) in Pairs(p, e) && Id(Instance(e, i, j)) == id
  }

  ghost predicate YieldsAt(p: Types, rules: seq<Node>, x: int, id: RuleId) {
    0 <= x < |rules| && Yields(p, rules[x], id)
  }

  /** Datum d of rule id is right about x: it has the union (for auditdeny the
      intersection) of what all the source rules that yield it have. */
  ghost predicate DatumIsExpansion(p: Types, rules: seq<Node>, id: RuleId, d: Datum, x: nat) {
    var s := id.key.specified;
    && ((s == {Allowed} || s == {AuditAllow}) ==>
          (x in d.data <==> exists y :: YieldsAt(p, rules, y, id) && x in rules[y].datum.data))
    && (s == {AuditDeny} ==>
          (x in d.data <==> forall y | YieldsAt(p, rules, y, id) :: x in rules[y].datum.data))
    && (s * XPERMS != {} ==>
          (x in d.xperms.perms <==> exists y :: YieldsAt(p, rules, y, id) && x in rules[y].datum.xperms.perms))
  }

  /** A type rule has the datum of the source rule that yields it. */
  ghost predicate TypeDatumIsExpansion(p: Types, rules: seq<Node>, id: RuleId, d: Datum) {
    IsTypeRule(id.key.specified) ==> forall y | YieldsAt(p, rules, y, id) :: rules[y].datum == d
  }

  /** There is only one such source rule, or the expansion fails. */
  lemma TypeRuleHasOneSource(p: Types, rules: seq<Node>, id: RuleId, x: nat, y: nat)
    requires YieldsAt(p, rules, x, id) && YieldsAt(p, rules, y, id) && IsTypeRule(id.key.specified)
    ensures x == y || TypeConflict(p, rules)
  {
    var i, j :| (i, j) in Pairs(p, rules[x]) && Id(Instance(rules[x], i, j)) == id;
    assert (i, j) in Pairs(p, rules[y]) && Instance(rules[y], i, j).key == id.key;
    if x < y { assert ConflictAt(p, rules, x, y, i, j); }
    if y < x { assert ConflictAt(p, rules, y, x, i, j); }
  }

  /** The map m is the expansion of the rules: one entry for every rule that some
      source rule yields. */
  ghost predicate IsExpansion(p: Types, rules: seq<Node>, m: RuleMap) {
    && (forall id :: id in m <==> exists x :: YieldsAt(p, rules, x, id))
    && (forall id, x: nat | id in m :: DatumIsExpansion(p, rules, id, m[id], x))
    && (forall id | id in m :: TypeDatumIsExpansion(p, rules, id, m[id]))
  }

  /** Expands a whole table, whatever order its rules are visited in. It fails exactly
      when two different type rules of one kind meet on some types and class. */
  method ExpandAvtab(p: Types, rules: seq<Node>, expa: Table, nslot: nat) returns (ok: bool, ghost m: RuleMap)
    requires p.Valid() && RulesInRange(p, rules) && SingleKinds(rules)
    requires expa.Valid() && forall t :: expa.hash(t) < nslot
    modifies expa
    ensures ok <==> !TypeConflict(p, rules)
    ensures ok ==> IsExpansion(p, rules, m) && Represents(expa, m)
  {
    expa.Alloc(nslot);
    assert expa.hash(Triple(0, 0, 0)) < nslot;
    ghost var log: seq<Step> := [];
    m := map[];
    for y := 0 to |rules|
      invariant Progress(p, rules, log, y, {}) && Represents(expa, Merged(rules, log).value)
    {
      ok, log := ExpandAvtabNode(p, expa, rules[y].key, rules[y].datum, rules, log, y);
      if !ok { return; }
      NextRule(p, rules, log, y);
    }
    ok, m := true, Merged(rules, log).value;
    CompleteHasNoConflict(p, rules, log);
    CompleteIsExpansion(p, rules, log);
  }

  lemma NextRule(p: Types, rules: seq<Node>, log: seq<Step>, y: nat)
    requires y < |rules| && Progress(p, rules, log, y, Pairs(p, rules[y]))
    ensures Progress(p, rules, log, y + 1, {})
  {
  }

  lemma CompleteHasNoConflict(p: Types, rules: seq<Node>, log: seq<Step>)
    requires Progress(p, rules, log, |rules|, {})
    ensures !TypeConflict(p, rules)
  {
    if x: nat, y: nat, i: nat, j: nat :| ConflictAt(p, rules, x, y, i, j) {
      assert Covered(log, x, Pairs(p, rules[x])) && Covered(log, y, Pairs(p, rules[y]));
      var k :| 0 <= k < |log| && log[k] == Step(x, i, j);
      var l :| 0 <= l < |log| && log[l] == Step(y, i, j);
      assert Id(StepNode(rules, log[k])) == Id(StepNode(rules, log[l]));
      if k < l { NoTypeRuleTwice(rules, log, k, l); } else { NoTypeRuleTwice(rules, log, l, k); }
    }
  }

  /** In a complete log, the instances of a rule are the source rules that yield it. */
  lemma InsertsAreYields(p: Types, rules: seq<Node>, log: seq<Step>, id: RuleId)
    requires Progress(p, rules, log, |rules|, {})
    ensures forall k | Inserts(rules, log, k, id) :: YieldsAt(p, rules, log[k].rule, id)
    ensures forall x | YieldsAt(p, rules, x, id) :: exists k :: Inserts(rules, log, k, id) && log[k].rule == x
  {
    forall k | Inserts(rules, log, k, id)
      ensures YieldsAt(p, rules, log[k].rule, id)
    {
      var st := log[k];
      assert Covered(log, st.rule, Pairs(p, rules[st.rule]));
      assert (st.i, st.j) in Pairs(p, rules[st.rule]);
    }
    forall x | YieldsAt(p, rules, x, id)
      ensures exists k :: Inserts(rules, log, k, id) && log[k].rule == x
    {
      var i, j :| (i, j) in Pairs(p, rules[x]) && Id(Instance(rules[x], i, j)) == id;
      assert Covered(log, x, Pairs(p, rules[x]));
      var k :| 0 <= k < |log| && log[k] == Step(x, i, j);
      assert Inserts(rules, log, k, id);
    }
  }

  lemma CompleteIsExpansion(p: Types, rules: seq<Node>, log: seq<Step>)
    requires Progress(p, rules, log, |rules|, {}) && SingleKinds(rules)
    ensures IsExpansion(p, rules, Merged(rules, log).value)
  {
    var m := Merged(rules, log).value;
    forall id
      ensures id in m <==> exists x :: YieldsAt(p, rules, x, id)
    {
      MergedKeys(rules, log, id);
      InsertsAreYields(p, rules, log, id);
    }
    forall id, x: nat | id in m
      ensures DatumIsExpansion(p, rules, id, m[id], x)
    {
      CompleteDatum(p, rules, log, id, x);
    }
    forall id | id in m
      ensures TypeDatumIsExpansion(p, rules, id, m[id])
    {
      CompleteTypeDatum(p, rules, log, id);
    }
  }

  lemma CompleteTypeDatum(p: Types, rules: seq<Node>, log: seq<Step>, id: RuleId)
    requires Progress(p, rules, log, |rules|, {}) && id in Merged(rules, log).value
    ensures TypeDatumIsExpansion(p, rules, id, Merged(rules, log).value[id])
  {
    if IsTypeRule(id.key.specified) {
      InsertsAreYields(p, rules, log, id);
      MergedTypeDatum(rules, log, id);
      var d := Merged(rules, log).value[id];
      forall y | YieldsAt(p, rules, y, id) ensures rules[y].datum == d {
        var k :| Inserts(rules, log, k, id) && log[k].rule == y;
        assert StepNode(rules, log[k]).datum == d;
      }
    }
  }

  lemma CompleteDatum(p: Types, rules: seq<Node>, log: seq<Step>, id: RuleId, x: nat)
    requires Progress(p, rules, log, |rules|, {}) && SingleKinds(rules)
    requires id in Merged(rules, log).value
    ensures DatumIsExpansion(p, rules, id, Merged(rules, log).value[id], x)
  {
    MergedKeys(rules, log, id);
    InsertsAreYields(p, rules, log, id);
    var k :| Inserts(rules, log, k, id);
    assert id.key.specified == rules[log[k].rule].key.specified;
    MergedData(rules, log, id, x);
  }

  // ---------- consequences ----------

  lemma {:induction false} FlattenMembers(chains: seq<Chain>, n: Node)
    ensures n in Flatten(chains) <==> exists b, i :: 0 <= b < |chains| && 0 <= i < |chains[b]| && chains[b][i] == n
  {
    if chains != [] {
      FlattenMembers(chains[1..], n);
      if b, i :| 0 <= b < |chains[1..]| && 0 <= i < |chains[1..][b]| && chains[1..][b][i] == n {
        assert chains[b + 1][i] == n;
      }
      if b, i :| 0 <= b < |chains| && 0 <= i < |chains[b]| && chains[b][i] == n {
        if b > 0 { assert chains[1..][b - 1][i] == n; }
      }
    }
  }

  /** The nodes of a table that represents m are exactly the rules of m. */
  lemma NodesAreRules(chains: seq<Chain>, hash: Triple -> nat, m: RuleMap, n: Node)
    requires Agrees(chains, hash, m)
    ensures n in Flatten(chains) <==> Id(n) in m && m[Id(n)] == n.datum
  {
    FlattenMembers(chains, n);
    if b, i :| 0 <= b < |chains| && 0 <= i < |chains[b]| && chains[b][i] == n {
      assert ChainAgrees(chains[b], m);
    }
    if Id(n) in m && m[Id(n)] == n.datum {
      var b := hash(n.key.triple);
      assert HasId(chains[b], Id(n)) && ChainAgrees(chains[b], m);
      var i :| 0 <= i < |chains[b]| && Id(chains[b][i]) == Id(n);
      assert chains[b][i] == n;
    }
  }

  /** The one entry of the expanded table that decides what s may do to t. */
  function AllowId(s: nat, t: nat, c: nat): RuleId {
    RuleId(Key(Triple(s, t, c), {Allowed}), 0, 0)
  }

  lemma AllowYields(p: Types, e: Node, s: nat, t: nat, c: nat)
    requires SingleKind(e.key.specified)
    ensures Yields(p, e, AllowId(s, t, c)) <==> IsAllow(e) && Covers(p, e, s, t, c)
  {
    var id := AllowId(s, t, c);
    AllowIsKind(e);
    if e.key.specified == {Allowed} && Covers(p, e, s, t, c) {
      assert (s - 1, t - 1) in Pairs(p, e);
      AllowNode(Instance(e, s - 1, t - 1));
      assert Id(Instance(e, s - 1, t - 1)) == id;
    }
    if i, j :| (i, j) in Pairs(p, e) && Id(Instance(e, i, j)) == id {
      assert Instance(e, i, j).key == id.key;
    }
  }

  lemma AllowNode(n: Node)
    requires n.key.specified == {Allowed}
    ensures Id(n) == RuleId(n.key, 0, 0)
  {
    assert {Allowed} * XPERMS == {};
  }

  lemma AllowIsKind(e: Node)
    requires SingleKind(e.key.specified)
    ensures IsAllow(e) <==> e.key.specified == {Allowed}
  {
    assert e.key.specified - {Enabled} == e.key.specified;
  }

  /** What the source rules grant is what the one expanded entry holds. */
  lemma GrantsIsEntry(p: Types, rules: seq<Node>, m: RuleMap, s: nat, t: nat, c: nat, perm: Perm)
    requires IsExpansion(p, rules, m) && SingleKinds(rules)
    ensures var id := AllowId(s, t, c);
            Grants(p, rules, s, t, c, perm) <==> id in m && perm in m[id].data
  {
    var id := AllowId(s, t, c);
    forall x | 0 <= x < |rules|
      ensures YieldsAt(p, rules, x, id) && perm in rules[x].datum.data <==> GrantsByRule(p, rules[x], s, t, c, perm)
    {
      AllowYields(p, rules[x], s, t, c);
    }
    if id in m { assert DatumIsExpansion(p, rules, id, m[id], perm); }
  }

  /** Rule n of an expanded table speaks about its own two types only. */
  lemma ExpandedCovers(p: Types, rules: seq<Node>, m: RuleMap, n: Node, s: nat, t: nat, c: nat)
    requires p.Valid() && IsExpansion(p, rules, m) && Id(n) in m
    ensures Covers(p, n, s, t, c) <==> n.key.triple == Triple(s, t, c)
  {
    var x :| YieldsAt(p, rules, x, Id(n));
    YieldedIsIndividual(p, rules[x], n);
    CoversItself(p, n, s, t, c);
  }

  ghost predicate IsIndividual(p: Types, u: Triple)
    requires p.Valid()
  {
    p.InRange(u.src) && p.InRange(u.tgt) && p.individual[u.src - 1] && p.individual[u.tgt - 1]
  }

  lemma YieldedIsIndividual(p: Types, e: Node, n: Node)
    requires p.Valid() && Yields(p, e, Id(n))
    ensures IsIndividual(p, n.key.triple)
  {
    var i, j :| (i, j) in Pairs(p, e) && Id(Instance(e, i, j)) == Id(n);
    BehindInRange(p, e.key.triple.src, i);
    BehindInRange(p, e.key.triple.tgt, j);
    assert n.key == Instance(e, i, j).key;
  }

  lemma CoversItself(p: Types, n: Node, s: nat, t: nat, c: nat)
    requires p.Valid()
    requires IsIndividual(p, n.key.triple)
    ensures Covers(p, n, s, t, c) <==> n.key.triple == Triple(s, t, c)
  {
    var u := n.key.triple;
    assert p.Behind(u.src) == {u.src - 1} && p.Behind(u.tgt) == {u.tgt - 1};
  }

  lemma ExpandedIsSingle(chains: seq<Chain>, hash: Triple -> nat, m: RuleMap, n: Node)
    requires Agrees(chains, hash, m) && n in Flatten(chains)
    ensures SingleKind(n.key.specified)
  {
    FlattenMembers(chains, n);
    var b, i :| 0 <= b < |chains| && 0 <= i < |chains[b]| && chains[b][i] == n;
    assert ChainAgrees(chains[b], m);
  }

  /** Expansion preserves meaning: the expanded table grants what the table over
      attributes grants. */
  lemma ExpansionPreservesGrants(p: Types, rules: seq<Node>, chains: seq<Chain>, hash: Triple -> nat, m: RuleMap,
                                 s: nat, t: nat, c: nat, perm: Perm)
    requires p.Valid() && SingleKinds(rules)
    requires IsExpansion(p, rules, m) && Agrees(chains, hash, m)
    ensures Grants(p, Flatten(chains), s, t, c, perm) <==> Grants(p, rules, s, t, c, perm)
  {
    var id, nodes := AllowId(s, t, c), Flatten(chains);
    GrantsIsEntry(p, rules, m, s, t, c, perm);
    if id in m {
      var n := Node(id.key, m[id]);
      AllowNode(n);
      NodesAreRules(chains, hash, m, n);
      ExpandedCovers(p, rules, m, n, s, t, c);
      ExpandedIsSingle(chains, hash, m, n);
      AllowIsKind(n);
      var k :| 0 <= k < |nodes| && nodes[k] == n;
      assert perm in m[id].data ==> GrantsByRule(p, nodes[k], s, t, c, perm);
    }
    if k :| 0 <= k < |nodes| && GrantsByRule(p, nodes[k], s, t, c, perm) {
      NodesAreRules(chains, hash, m, nodes[k]);
      ExpandedCovers(p, rules, m, nodes[k], s, t, c);
      ExpandedIsSingle(chains, hash, m, nodes[k]);
      AllowIsKind(nodes[k]);
      AllowNode(nodes[k]);
    }
  }

  /** Two tables with the same rules, in whatever order, expand to the same entries
      with the same access vectors and ioctl sets. */
  lemma ExpansionIgnoresOrder(p: Types, rules: seq<Node>, rules': seq<Node>, m: RuleMap, m': RuleMap, id: RuleId)
    requires forall n :: n in rules <==> n in rules'
    requires IsExpansion(p, rules, m) && IsExpansion(p, rules', m')
    ensures id in m <==> id in m'
    ensures id in m && IsVector(id.key.specified) ==> m[id].data == m'[id].data
    ensures id in m && id.key.specified * XPERMS != {} ==> m[id].xperms.perms == m'[id].xperms.perms
    ensures id in m && IsTypeRule(id.key.specified) ==> m[id] == m'[id]
  {
    YieldedToo(p, rules, rules', id);
    YieldedToo(p, rules', rules, id);
    if id in m {
      SameSource(p, rules, rules', m, m', id);
      forall x: nat
        ensures At(id.key.specified, m[id], m'[id], x) && At(id.key.specified, m'[id], m[id], x)
      {
        assert DatumIsExpansion(p, rules, id, m[id], x) && DatumIsExpansion(p, rules', id, m'[id], x);
        DatumToo(p, rules, rules', id, m[id], m'[id], x);
        DatumToo(p, rules', rules, id, m'[id], m[id], x);
      }
      SameEverywhere(id.key.specified, m[id], m'[id]);
    }
  }

  lemma SameSource(p: Types, rules: seq<Node>, rules': seq<Node>, m: RuleMap, m': RuleMap, id: RuleId)
    requires forall n :: n in rules ==> n in rules'
    requires IsExpansion(p, rules, m) && IsExpansion(p, rules', m') && id in m && id in m'
    ensures IsTypeRule(id.key.specified) ==> m[id] == m'[id]
  {
    if IsTypeRule(id.key.specified) {
      assert TypeDatumIsExpansion(p, rules, id, m[id]) && TypeDatumIsExpansion(p, rules', id, m'[id]);
      var x :| YieldsAt(p, rules, x, id);
      var y := Mirrored(p, rules, rules', x, id);
    }
  }

  /** What d has of x, d' has as well; for auditdeny the other way round. */
  ghost predicate At(s: Spec, d: Datum, d': Datum, x: nat) {
    && ((s == {Allowed} || s == {AuditAllow}) ==> (x in d.data ==> x in d'.data))
    && (s == {AuditDeny} ==> (x in d'.data ==> x in d.data))
    && (s * XPERMS != {} ==> (x in d.xperms.perms ==> x in d'.xperms.perms))
  }

  /** The specifiers whose rules hold an access vector. */
  ghost predicate IsVector(s: Spec) { s == {Allowed} || s == {AuditAllow} || s == {AuditDeny} }

  lemma SameEverywhere(s: Spec, d: Datum, d': Datum)
    requires forall x: nat :: At(s, d, d', x) && At(s, d', d, x)
    ensures IsVector(s) ==> d.data == d'.data
    ensures s * XPERMS != {} ==> d.xperms.perms == d'.xperms.perms
  {
    forall x: nat
      ensures IsVector(s) ==> (x in d.data <==> x in d'.data)
      ensures s * XPERMS != {} ==> (x in d.xperms.perms <==> x in d'.xperms.perms)
    {
      assert At(s, d, d', x) && At(s, d', d, x);
    }
  }

  /** A source rule that yields id in the first list occurs in the second. */
  lemma Mirrored(p: Types, rules: seq<Node>, rules': seq<Node>, x: int, id: RuleId) returns (y: int)
    requires forall n :: n in rules ==> n in rules'
    requires YieldsAt(p, rules, x, id)
    ensures YieldsAt(p, rules', y, id) && rules'[y] == rules[x]
  {
    assert rules[x] in rules';
    y :| 0 <= y < |rules'| && rules'[y] == rules[x];
  }

  lemma YieldedToo(p: Types, rules: seq<Node>, rules': seq<Node>, id: RuleId)
    requires forall n :: n in rules ==> n in rules'
    ensures (exists x :: YieldsAt(p, rules, x, id)) ==> (exists y :: YieldsAt(p, rules', y, id))
  {
    if x :| YieldsAt(p, rules, x, id) {
      var y := Mirrored(p, rules, rules', x, id);
    }
  }

  lemma DatumToo(p: Types, rules: seq<Node>, rules': seq<Node>, id: RuleId, d: Datum, d': Datum, k: nat)
    requires forall n :: n in rules ==> n in rules'
    requires DatumIsExpansion(p, rules, id, d, k) && DatumIsExpansion(p, rules', id, d', k)
    ensures At(id.key.specified, d, d', k)
  {
    forall x | YieldsAt(p, rules, x, id)
      ensures exists y :: YieldsAt(p, rules', y, id) && rules'[y] == rules[x]
    {
      var y := Mirrored(p, rules, rules', x, id);
    }
  }
}
