/** Type bounds: deciding whether a child type is granted no more than its parent, by
    tables that hold what the parent is granted in every branch of the policy. */
module Hierarchy {
  import opened Wrappers
  import opened Avtab
  import opened Policy

  // ---------- tables of allow rules ----------

  /** The permissions a chain holds for a triple: those of its first allow node. */
  function CoverIn(c: Chain, t: Triple): Av {
    var k := FirstMatch(c, Key(t, {Allowed}), 0);
    if k < |c| then c[k].datum.data else {}
  }

  ghost function Cover(a: Table, t: Triple): Av
    requires a.Valid()
    reads a
  {
    CoverIn(a.Bucket(t), t)
  }

  lemma {:induction false} FirstMatchIs(c: Chain, key: Key, i: nat, k: nat)
    requires i <= k < |c| && Matches(key, c[k])
    requires forall j | i <= j < k :: !Matches(key, c[j])
    ensures FirstMatch(c, key, i) == k
    decreases k - i
  {
    if i < k { FirstMatchIs(c, key, i + 1, k); }
  }

  lemma {:induction false} NoFirstMatch(c: Chain, key: Key, i: nat)
    requires i <= |c| && forall j | i <= j < |c| :: !Matches(key, c[j])
    ensures FirstMatch(c, key, i) == |c|
    decreases |c| - i
  {
    if i < |c| { NoFirstMatch(c, key, i + 1); }
  }

  /** A new node decides its own triple if none did before, and no other. */
  lemma InsertCover(c: Chain, pos: nat, n: Node, t: Triple)
    requires pos <= |c| && n.key.specified == {Allowed}
    requires FirstMatch(c, n.key, 0) == |c|
    ensures CoverIn(InsertAt(c, pos, n), t) == if t == n.key.triple then n.datum.data else CoverIn(c, t)
  {
    var key, c' := Key(t, {Allowed}), InsertAt(c, pos, n);
    var k := FirstMatch(c, key, 0);
    InsertMatches(c, pos, n, key);
    if t == n.key.triple {
      assert key == n.key;
      FirstMatchIs(c', key, 0, pos);
    } else if k < |c| {
      FirstMatchIs(c', key, 0, if k < pos then k else k + 1);
    } else {
      NoFirstMatch(c', key, 0);
    }
  }

  lemma InsertMatches(c: Chain, pos: nat, n: Node, key: Key)
    requires pos <= |c| && n.key.specified == key.specified == {Allowed}
    ensures var c' := InsertAt(c, pos, n);
            && |c'| == |c| + 1
            && (forall j | 0 <= j < pos :: c'[j] == c[j])
            && (forall j | pos < j < |c'| :: c'[j] == c[j - 1])
            && c'[pos] == n && (Matches(key, n) <==> key.triple == n.key.triple)
  {
    assert ({Allowed} - {Enabled}) * {Allowed} == {Allowed};
  }

  lemma UpdateCover(c: Chain, at: nat, key: Key, d: Datum, t: Triple)
    requires at < |c| && key.specified == {Allowed} && FirstMatch(c, key, 0) == at
    ensures CoverIn(c[at := c[at].(datum := d)], t) == if t == key.triple then d.data else CoverIn(c, t)
  {
    var key', c' := Key(t, {Allowed}), c[at := c[at].(datum := d)];
    var k := FirstMatch(c, key', 0);
    if k < |c| { FirstMatchIs(c', key', 0, k); } else { NoFirstMatch(c', key', 0); }
  }

  // ---------- expanding the parent's rules ----------

  /** What a table holds, as a function of the triple. */
  type Coverage = Triple -> Av

  ghost predicate Shows(a: Table, cov: Coverage)
    reads a
  {
    a.Valid() && forall t :: Cover(a, t) == cov(t)
  }

  function Plus(cov: Coverage, key: Triple, data: Av): Coverage {
    t => if t == key then cov(t) + data else cov(t)
  }

  /** Or-accumulates a datum into a table. */
  method OrInto(a: Table, key: Key, datum: Datum, ghost cov: Coverage)
    requires Shows(a, cov) && a.htable != [] && key.specified == {Allowed}
    modifies a
    ensures Shows(a, Plus(cov, key.triple, datum.data)) && a.htable != []
  {
    ghost var before, h := a.htable, a.hash(key.triple);
    var dup := a.SearchNode(key);
    if dup.None? {
      var r := a.Insert(key, datum);
      assert r != Some(EEXIST) && r != Some(ENOMEM);
      InsertOutcomes(r);
      forall t
        ensures Cover(a, t) == Plus(cov, key.triple, datum.data)(t)
      {
        assert cov(t) == CoverIn(before[a.hash(t)], t);
        InsertCover(before[h], InsertPosition(before[h], key, 0), Node(key, datum), t);
      }
    } else {
      var found := a.Bucket(key.triple)[dup.value].datum;
      a.SetDatum(key.triple, dup.value, found.(data := found.data + datum.data));
      forall t
        ensures Cover(a, t) == Plus(cov, key.triple, datum.data)(t)
      {
        assert cov(t) == CoverIn(before[a.hash(t)], t);
        UpdateCover(before[h], dup.value, key, found.(data := found.data + datum.data), t);
      }
    }
  }

  lemma InsertOutcomes(r: Option<InsertError>)
    ensures r == None || r == Some(EEXIST) || r == Some(ENOMEM)
  {
    match r
    case None =>
    case Some(e) => match e case EEXIST => case ENOMEM =>
  }

  /** The three tables of an expansion; `global` and `other` come together or not at all. */
  ghost predicate TablesShow(avtab: Table, global: Table?, other: Table?, cov: Coverage, gcov: Coverage, ocov: Coverage)
    reads avtab, global, other
  {
    && Shows(avtab, cov) && avtab.htable != []
    && (global != null <==> other != null)
    && (other != null ==> Shows(global, gcov) && global.htable != [] && Shows(other, ocov))
    && (other != null ==> avtab != global && avtab != other && global != other)
  }

  /** Adds a permission set for a key, and to the global table the permissions that the
      other branch's table has in common with it. */
  method BoundsInsertRule(avtab: Table, global: Table?, other: Table?, key: Key, datum: Datum,
                          ghost cov: Coverage, ghost gcov: Coverage, ghost ocov: Coverage)
    requires TablesShow(avtab, global, other, cov, gcov, ocov) && key.specified == {Allowed}
    modifies avtab, global
    ensures TablesShow(avtab, global, other, Plus(cov, key.triple, datum.data),
                       Plus(gcov, key.triple, ocov(key.triple) * datum.data), ocov)
  {
    OrInto(avtab, key, datum, cov);
    if other != null {
      var data := InCommon(other, key, datum, ocov);
      if data != {} {
        OrInto(global, key, datum.(data := data), gcov);
      }
    }
  }

  /** The permissions of the datum that the other branch has for the key. */
  method InCommon(other: Table, key: Key, datum: Datum, ghost ocov: Coverage) returns (data: Av)
    requires Shows(other, ocov) && key.specified == {Allowed}
    ensures data == ocov(key.triple) * datum.data
  {
    var dup := other.SearchNode(key);
    assert Cover(other, key.triple) == ocov(key.triple);
    data := if dup.Some? then other.Bucket(key.triple)[dup.value].datum.data * datum.data else {};
  }

  /** What rule n adds to the table of parent: its permissions, on the triples it
      covers that have the parent as source or as target. */
  function Gain(p: Types, parent: nat, n: Node, t: Triple): Av {
    if AsSource(p, parent, n, t) || AsTarget(p, parent, n, t) then n.datum.data else {}
  }

  predicate AsSource(p: Types, parent: nat, n: Node, t: Triple) {
    t.src == parent && Covers(p, n, t.src, t.tgt, t.cls)
  }

  predicate AsTarget(p: Types, parent: nat, n: Node, t: Triple) {
    t.tgt == parent && Covers(p, n, t.src, t.tgt, t.cls)
  }

  /** Coverage cov' is cov plus `data` on the triples of `keys`. */
  ghost predicate Grown(cov: Coverage, cov': Coverage, keys: set<Triple>, data: Coverage) {
    forall t :: cov'(t) == cov(t) + if t in keys then data(t) else {}
  }

  lemma GrownStep(cov: Coverage, cov': Coverage, keys: set<Triple>, data: Coverage, key: Triple)
    requires Grown(cov, cov', keys, data)
    ensures Grown(cov, Plus(cov', key, data(key)), keys + {key}, data)
  {
  }

  /** What a rule adds to its own table, and to the global table, on a triple it covers. */
  function Own(n: Node): Coverage {
    _ => n.datum.data
  }

  function Common(n: Node, ocov: Coverage): Coverage {
    t => ocov(t) * n.datum.data
  }

  ghost function SourceKeys(p: Types, parent: nat, n: Node, i: nat): set<Triple> {
    set j | j in p.Behind(n.key.triple.tgt) && j < i && parent - 1 in p.Behind(n.key.triple.src) ::
      Triple(parent, j + 1, n.key.triple.cls)
  }

  lemma SourceKeysStep(p: Types, parent: nat, n: Node, i: nat)
    requires p.InRange(parent) && parent - 1 in p.Behind(n.key.triple.src)
    ensures SourceKeys(p, parent, n, i + 1) ==
            SourceKeys(p, parent, n, i) +
              if i in p.Behind(n.key.triple.tgt) then {Triple(parent, i + 1, n.key.triple.cls)} else {}
  {
  }

  lemma SourceKeysEnd(p: Types, parent: nat, n: Node)
    requires p.Valid() && p.InRange(parent)
    ensures forall t :: t in SourceKeys(p, parent, n, p.Count()) <==> AsSource(p, parent, n, t)
  {
    forall t | AsSource(p, parent, n, t)
      ensures t in SourceKeys(p, parent, n, p.Count())
    {
      BehindInRange(p, n.key.triple.tgt, t.tgt - 1);
    }
  }

  method BoundsSourceStep(p: Types, avtab: Table, global: Table?, other: Table?, parent: nat, n: Node, i: nat,
                           ghost cov: Coverage, ghost gcov: Coverage, ghost ocov: Coverage,
                           ghost c: Coverage, ghost g: Coverage)
    returns (ghost cov': Coverage, ghost gcov': Coverage)
    requires p.InRange(parent) && p.InRange(n.key.triple.tgt) && parent - 1 in p.Behind(n.key.triple.src)
    requires TablesShow(avtab, global, other, c, g, ocov)
    requires Grown(cov, c, SourceKeys(p, parent, n, i), Own(n)) &&
      Grown(gcov, g, SourceKeys(p, parent, n, i), Common(n, ocov))
    modifies avtab, global
    ensures TablesShow(avtab, global, other, cov', gcov', ocov)
    ensures Grown(cov, cov', SourceKeys(p, parent, n, i + 1), Own(n))
    ensures Grown(gcov, gcov', SourceKeys(p, parent, n, i + 1), Common(n, ocov))
  {
    SourceKeysStep(p, parent, n, i);
    cov', gcov' := c, g;
    if i !in p.attrTypes[n.key.triple.tgt - 1] { return; }
    var key := Key(Triple(parent, i + 1, n.key.triple.cls), {Allowed});
    GrownStep(cov, c, SourceKeys(p, parent, n, i), Own(n), key.triple);
    GrownStep(gcov, g, SourceKeys(p, parent, n, i), Common(n, ocov), key.triple);
    BoundsInsertRule(avtab, global, other, key, n.datum, c, g, ocov);
    cov', gcov' := Plus(c, key.triple, Own(n)(key.triple)), Plus(g, key.triple, Common(n, ocov)(key.triple));
  }

  /** The half of a rule's expansion in which the parent is the source. */
  method BoundsExpandAsSource(p: Types, avtab: Table, global: Table?, other: Table?, parent: nat, n: Node,
                             ghost cov: Coverage, ghost gcov: Coverage, ghost ocov: Coverage)
    returns (ghost cov': Coverage, ghost gcov': Coverage)
    requires p.Valid() && RuleInRange(p, n) && p.InRange(parent)
    requires TablesShow(avtab, global, other, cov, gcov, ocov)
    modifies avtab, global
    ensures TablesShow(avtab, global, other, cov', gcov', ocov)
    ensures Grown(cov, cov', SourceKeys(p, parent, n, p.Count()), Own(n))
    ensures Grown(gcov, gcov', SourceKeys(p, parent, n, p.Count()), Common(n, ocov))
  {
    cov', gcov' := cov, gcov;
    if parent - 1 !in p.attrTypes[n.key.triple.src - 1] { return; }
    for i := 0 to p.Count()
      invariant TablesShow(avtab, global, other, cov', gcov', ocov)
      invariant Grown(cov, cov', SourceKeys(p, parent, n, i), Own(n))
      invariant Grown(gcov, gcov', SourceKeys(p, parent, n, i), Common(n, ocov))
    {
      cov', gcov' := BoundsSourceStep(p, avtab, global, other, parent, n, i, cov, gcov, ocov, cov', gcov');
    }
  }

  ghost function TargetKeys(p: Types, parent: nat, n: Node, i: nat): set<Triple> {
    set j | j in p.Behind(n.key.triple.src) && j < i && parent - 1 in p.Behind(n.key.triple.tgt) ::
      Triple(j + 1, parent, n.key.triple.cls)
  }

  lemma TargetKeysStep(p: Types, parent: nat, n: Node, i: nat)
    requires p.InRange(parent) && parent - 1 in p.Behind(n.key.triple.tgt)
    ensures TargetKeys(p, parent, n, i + 1) ==
            TargetKeys(p, parent, n, i) +
              if i in p.Behind(n.key.triple.src) then {Triple(i + 1, parent, n.key.triple.cls)} else {}
  {
  }

  lemma TargetKeysEnd(p: Types, parent: nat, n: Node)
    requires p.Valid() && p.InRange(parent)
    ensures forall t :: t in TargetKeys(p, parent, n, p.Count()) <==> AsTarget(p, parent, n, t)
  {
    forall t | AsTarget(p, parent, n, t)
      ensures t in TargetKeys(p, parent, n, p.Count())
    {
      BehindInRange(p, n.key.triple.src, t.src - 1);
    }
  }

  method BoundsTargetStep(p: Types, avtab: Table, global: Table?, other: Table?, parent: nat, n: Node, i: nat,
                           ghost cov: Coverage, ghost gcov: Coverage, ghost ocov: Coverage,
                           ghost c: Coverage, ghost g: Coverage)
    returns (ghost cov': Coverage, ghost gcov': Coverage)
    requires p.InRange(parent) && p.InRange(n.key.triple.src) && parent - 1 in p.Behind(n.key.triple.tgt)
    requires TablesShow(avtab, global, other, c, g, ocov)
    requires Grown(cov, c, TargetKeys(p, parent, n, i), Own(n)) &&
      Grown(gcov, g, TargetKeys(p, parent, n, i), Common(n, ocov))
    modifies avtab, global
    ensures TablesShow(avtab, global, other, cov', gcov', ocov)
    ensures Grown(cov, cov', TargetKeys(p, parent, n, i + 1), Own(n))
    ensures Grown(gcov, gcov', TargetKeys(p, parent, n, i + 1), Common(n, ocov))
  {
    TargetKeysStep(p, parent, n, i);
    cov', gcov' := c, g;
    if i !in p.attrTypes[n.key.triple.src - 1] { return; }
    var key := Key(Triple(i + 1, parent, n.key.triple.cls), {Allowed});
    GrownStep(cov, c, TargetKeys(p, parent, n, i), Own(n), key.triple);
    GrownStep(gcov, g, TargetKeys(p, parent, n, i), Common(n, ocov), key.triple);
    BoundsInsertRule(avtab, global, other, key, n.datum, c, g, ocov);
    cov', gcov' := Plus(c, key.triple, Own(n)(key.triple)), Plus(g, key.triple, Common(n, ocov)(key.triple));
  }

  /** The half of a rule's expansion in which the parent is the target. */
  method BoundsExpandAsTarget(p: Types, avtab: Table, global: Table?, other: Table?, parent: nat, n: Node,
                             ghost cov: Coverage, ghost gcov: Coverage, ghost ocov: Coverage)
    returns (ghost cov': Coverage, ghost gcov': Coverage)
    requires p.Valid() && RuleInRange(p, n) && p.InRange(parent)
    requires TablesShow(avtab, global, other, cov, gcov, ocov)
    modifies avtab, global
    ensures TablesShow(avtab, global, other, cov', gcov', ocov)
    ensures Grown(cov, cov', TargetKeys(p, parent, n, p.Count()), Own(n))
    ensures Grown(gcov, gcov', TargetKeys(p, parent, n, p.Count()), Common(n, ocov))
  {
    cov', gcov' := cov, gcov;
    if parent - 1 !in p.attrTypes[n.key.triple.tgt - 1] { return; }
    for i := 0 to p.Count()
      invariant TablesShow(avtab, global, other, cov', gcov', ocov)
      invariant Grown(cov, cov', TargetKeys(p, parent, n, i), Own(n))
      invariant Grown(gcov, gcov', TargetKeys(p, parent, n, i), Common(n, ocov))
    {
      cov', gcov' := BoundsTargetStep(p, avtab, global, other, parent, n, i, cov, gcov, ocov, cov', gcov');
    }
  }

  /** Expands one rule, the parent standing first for the source, then for the target. */
  method BoundsExpandRule(p: Types, avtab: Table, global: Table?, other: Table?, parent: nat, n: Node,
                          ghost cov: Coverage, ghost gcov: Coverage, ghost ocov: Coverage)
    requires p.Valid() && RuleInRange(p, n) && p.InRange(parent)
    requires TablesShow(avtab, global, other, cov, gcov, ocov)
    modifies avtab, global
    ensures TablesShow(avtab, global, other, t => cov(t) + Gain(p, parent, n, t),
                       t => gcov(t) + ocov(t) * Gain(p, parent, n, t), ocov)
  {
    ghost var c1, g1 := BoundsExpandAsSource(p, avtab, global, other, parent, n, cov, gcov, ocov);
    ghost var c2, g2 := BoundsExpandAsTarget(p, avtab, global, other, parent, n, c1, g1, ocov);
    SourceKeysEnd(p, parent, n);
    TargetKeysEnd(p, parent, n);
    forall t
      ensures c2(t) == cov(t) + Gain(p, parent, n, t)
      ensures g2(t) == gcov(t) + ocov(t) * Gain(p, parent, n, t)
    {
    }
  }

  /** What a list of rules adds to the table of parent. */
  ghost function Gains(p: Types, parent: nat, rules: seq<Node>, t: Triple): Av {
    if rules == [] then {}
    else Gains(p, parent, rules[..|rules| - 1], t) + Gain(p, parent, rules[|rules| - 1], t)
  }

  /** Expands one branch of a conditional. The specifiers are not looked at. */
  method BoundsExpandCondRules(p: Types, rules: seq<Node>, avtab: Table, global: Table?, other: Table?, parent: nat,
                               ghost cov: Coverage, ghost gcov: Coverage, ghost ocov: Coverage)
    requires p.Valid() && RulesInRange(p, rules) && p.InRange(parent)
    requires TablesShow(avtab, global, other, cov, gcov, ocov)
    modifies avtab, global
    ensures TablesShow(avtab, global, other, t => cov(t) + Gains(p, parent, rules, t),
                       t => gcov(t) + ocov(t) * Gains(p, parent, rules, t), ocov)
  {
    ghost var c, g := cov, gcov;
    for k := 0 to |rules|
      invariant TablesShow(avtab, global, other, c, g, ocov)
      invariant Gained(p, parent, rules[..k], cov, c) && GainedCommon(p, parent, rules[..k], ocov, gcov, g)
    {
      BoundsExpandRule(p, avtab, global, other, parent, rules[k], c, g, ocov);
      GainedNext(p, parent, rules, k, cov, c, gcov, g, ocov);
      c, g := Onto(p, parent, rules[k], c), OntoCommon(p, parent, rules[k], ocov, g);
    }
    assert rules[..|rules|] == rules;
  }

  /** A coverage with the gain of one rule, and with what the other branch has of it. */
  ghost function Onto(p: Types, parent: nat, n: Node, c: Coverage): Coverage {
    t => c(t) + Gain(p, parent, n, t)
  }

  ghost function OntoCommon(p: Types, parent: nat, n: Node, ocov: Coverage, g: Coverage): Coverage {
    t => g(t) + ocov(t) * Gain(p, parent, n, t)
  }

  ghost predicate Gained(p: Types, parent: nat, rules: seq<Node>, cov: Coverage, c: Coverage) {
    forall t :: c(t) == cov(t) + Gains(p, parent, rules, t)
  }

  ghost predicate GainedCommon(p: Types, parent: nat, rules: seq<Node>, ocov: Coverage, gcov: Coverage, g: Coverage) {
    forall t :: g(t) == gcov(t) + ocov(t) * Gains(p, parent, rules, t)
  }

  lemma GainedNext(p: Types, parent: nat, rules: seq<Node>, k: nat, cov: Coverage, c: Coverage, gcov: Coverage,
                   g: Coverage, ocov: Coverage)
    requires k < |rules| && Gained(p, parent, rules[..k], cov, c)
    requires GainedCommon(p, parent, rules[..k], ocov, gcov, g)
    ensures Gained(p, parent, rules[..k + 1], cov, Onto(p, parent, rules[k], c))
    ensures GainedCommon(p, parent, rules[..k + 1], ocov, gcov, OntoCommon(p, parent, rules[k], ocov, g))
  {
    assert rules[..k + 1][..k] == rules[..k];
    forall t
      ensures Gains(p, parent, rules[..k + 1], t) == Gains(p, parent, rules[..k], t) + Gain(p, parent, rules[k], t)
    {
    }
  }

  /** What the unconditional rules add: those whose specifier includes Allowed. */
  ghost function TeGains(p: Types, parent: nat, te: seq<Node>, t: Triple): Av {
    if te == [] then {}
    else
      var n := te[|te| - 1];
      TeGains(p, parent, te[..|te| - 1], t) + if Allowed in n.key.specified then Gain(p, parent, n, t) else {}
  }

  /** The permissions that both branches of a conditional give. */
  ghost function BothBranches(p: Types, parent: nat, cond: CondNode, t: Triple): Av {
    Gains(p, parent, cond.trueList, t) * Gains(p, parent, cond.falseList, t)
  }

  ghost function CommonGains(p: Types, parent: nat, conds: seq<CondNode>, t: Triple): Av {
    if conds == [] then {}
    else CommonGains(p, parent, conds[..|conds| - 1], t) + BothBranches(p, parent, conds[|conds| - 1], t)
  }

  ghost predicate CondsInRange(p: Types, conds: seq<CondNode>) {
    forall i | 0 <= i < |conds| :: RulesInRange(p, conds[i].trueList) && RulesInRange(p, conds[i].falseList)
  }

  /** The tables of the two branches of one conditional. */
  datatype CondInfo = CondInfo(trueTab: Table, falseTab: Table, cond: CondNode)

  ghost predicate InfoShows(p: Types, parent: nat, ci: CondInfo)
    reads ci.trueTab, ci.falseTab
  {
    && Shows(ci.trueTab, t => Gains(p, parent, ci.cond.trueList, t))
    && Shows(ci.falseTab, t => Gains(p, parent, ci.cond.falseList, t))
  }

  method EmptyTable(hash: Triple -> nat, nslot: nat, alloc: bool) returns (a: Table)
    requires forall t :: hash(t) < nslot
    ensures fresh(a) && Shows(a, t => {}) && (alloc ==> a.htable != [])
  {
    a := new Table(hash);
    if alloc {
      assert hash(Triple(0, 0, 0)) < nslot;
      a.Alloc(nslot);
    }
  }

  /** Expands one conditional: the false branch, last, shares with the global table what
      the true branch gives as well. */
  method BoundsExpandCond(p: Types, cond: CondNode, global: Table, parent: nat, hash: Triple -> nat, nslot: nat,
                          ghost gcov: Coverage)
    returns (ci: CondInfo)
    requires p.Valid() && p.InRange(parent) && RulesInRange(p, cond.trueList) && RulesInRange(p, cond.falseList)
    requires Shows(global, gcov) && global.htable != [] && forall t :: hash(t) < nslot
    modifies global
    ensures fresh(ci.trueTab) && fresh(ci.falseTab) && ci.cond == cond && InfoShows(p, parent, ci)
    ensures Shows(global, t => gcov(t) + BothBranches(p, parent, cond, t)) && global.htable != []
  {
    ghost var none: Coverage := t => {};
    var trueTab := EmptyTable(hash, nslot, cond.trueList != []);
    if cond.trueList != [] {
      BoundsExpandCondRules(p, cond.trueList, trueTab, null, null, parent, none, none, none);
    }
    ghost var tcov: Coverage := t => Gains(p, parent, cond.trueList, t);
    assert Shows(trueTab, tcov);
    var falseTab := EmptyTable(hash, nslot, cond.falseList != []);
    if cond.falseList != [] {
      BoundsExpandCondRules(p, cond.falseList, falseTab, global, trueTab, parent, none, gcov, tcov);
    }
    ci := CondInfo(trueTab, falseTab, cond);
  }

  /** All the parent's rules. The conditionals' tables come out in reverse order. */
  method BoundsExpandParentRules(p: Types, te: seq<Node>, conds: seq<CondNode>, parent: nat, hash: Triple -> nat,
                                 nslot: nat)
    returns (global: Table, infos: seq<CondInfo>)
    requires p.Valid() && p.InRange(parent) && RulesInRange(p, te) && CondsInRange(p, conds)
    requires forall t :: hash(t) < nslot
    ensures fresh(global) && Shows(global, GlobalCoverage(p, te, conds, parent))
    ensures |infos| == |conds|
    ensures forall j | 0 <= j < |infos| :: infos[j].cond == conds[|conds| - 1 - j] && InfoShows(p, parent, infos[j])
  {
    global := ExpandTe(p, te, parent, hash, nslot);
    infos := [];
    for k := 0 to |conds|
      invariant fresh(global) && global.htable != []
      invariant Shows(global, t => TeGains(p, parent, te, t) + CommonGains(p, parent, conds[..k], t))
      invariant |infos| == k
      invariant forall j | 0 <= j < k :: infos[j].trueTab != global && infos[j].falseTab != global
      invariant forall j | 0 <= j < k :: infos[j].cond == conds[k - 1 - j] && InfoShows(p, parent, infos[j])
    {
      ghost var g: Coverage := t => TeGains(p, parent, te, t) + CommonGains(p, parent, conds[..k], t);
      var ci := BoundsExpandCond(p, conds[k], global, parent, hash, nslot, g);
      assert conds[..k + 1][..k] == conds[..k];
      infos := [ci] + infos;
    }
    assert conds[..|conds|] == conds;
  }

  ghost function GlobalCoverage(p: Types, te: seq<Node>, conds: seq<CondNode>, parent: nat): Coverage {
    t => TeGains(p, parent, te, t) + CommonGains(p, parent, conds, t)
  }

  method ExpandTe(p: Types, te: seq<Node>, parent: nat, hash: Triple -> nat, nslot: nat) returns (global: Table)
    requires p.Valid() && p.InRange(parent) && RulesInRange(p, te)
    requires forall t :: hash(t) < nslot
    ensures fresh(global) && Shows(global, t => TeGains(p, parent, te, t)) && global.htable != []
  {
    ghost var none: Coverage := t => {};
    global := EmptyTable(hash, nslot, true);
    for k := 0 to |te|
      invariant fresh(global) && global.htable != []
      invariant Shows(global, t => TeGains(p, parent, te[..k], t))
    {
      assert te[..k + 1][..k] == te[..k];
      if Allowed in te[k].key.specified {
        BoundsExpandRule(p, global, null, null, parent, te[k], t => TeGains(p, parent, te[..k], t), none, none);
      }
    }
    assert te[..|te|] == te;
  }

  // ---------- checking the child's rules ----------

  /** A record of a rule of the child that the parent does not have. */
  datatype Bad = Bad(src: nat, tgt: nat, cls: nat, data: Av)

  /** Two tables seen as one. */
  function Joint(cov: Coverage, gcov: Coverage): Coverage {
    t => cov(t) + gcov(t)
  }

  ghost predicate GlobalShows(global: Table?, gcov: Coverage)
    reads global
  {
    if global != null then Shows(global, gcov) else forall t :: gcov(t) == {}
  }

  /** The permissions of data that neither table has for the key. */
  method BoundsNotCovered(global: Table?, cur: Table, key: Triple, data: Av, ghost cov: Coverage, ghost gcov: Coverage)
    returns (d: Av)
    requires Shows(cur, cov) && GlobalShows(global, gcov)
    ensures d == data - Joint(cov, gcov)(key)
  {
    assert Cover(cur, key) == cov(key);
    d := data;
    var datum := cur.SearchNode(Key(key, {Allowed}));
    if datum.Some? {
      d := d - cur.Bucket(key)[datum.value].datum.data;
    }
    if global != null && d != {} {
      assert Cover(global, key) == gcov(key);
      datum := global.SearchNode(Key(key, {Allowed}));
      if datum.Some? {
        d := d - global.Bucket(key)[datum.value].datum.data;
      }
    }
  }

  /** What is missing of data when the type `other` is replaced by its own bound: the
      parent must have all of it on `other`, or all of it on the bound of `other`. */
  function Leftover(have: Coverage, onType: Triple, onBound: Triple, bound: nat, data: Av): Av {
    if data - have(onType) == {} then {}
    else if bound != 0 then data - have(onBound)
    else data - have(onType)
  }

  method FindLeftover(global: Table?, cur: Table, onType: Triple, onBound: Triple, bound: nat, data: Av,
                      ghost cov: Coverage, ghost gcov: Coverage)
    returns (d: Av)
    requires Shows(cur, cov) && GlobalShows(global, gcov)
    ensures d == Leftover(Joint(cov, gcov), onType, onBound, bound, data)
  {
    d := BoundsNotCovered(global, cur, onType, data, cov, gcov);
    if d != {} && bound != 0 {
      d := BoundsNotCovered(global, cur, onBound, data, cov, gcov);
    }
  }

  function SourceLeftover(have: Coverage, bounds: seq<nat>, parent: nat, cls: nat, data: Av, i: nat): Av
    requires i < |bounds|
  {
    Leftover(have, Triple(parent, i + 1, cls), Triple(parent, bounds[i], cls), bounds[i], data)
  }

  function TargetLeftover(have: Coverage, bounds: seq<nat>, parent: nat, cls: nat, data: Av, i: nat): Av
    requires i < |bounds|
  {
    Leftover(have, Triple(i + 1, parent, cls), Triple(bounds[i], parent, cls), bounds[i], data)
  }

  /** The record, if any, for rule n with the child as source and type i + 1 as target;
      and all those with target types up to k, the latest first. */
  ghost function SourceRecord(p: Types, bounds: seq<nat>, have: Coverage, child: nat, parent: nat, n: Node,
                              i: nat): seq<Bad>
    requires i < |bounds|
  {
    var cls := n.key.triple.cls;
    var d := SourceLeftover(have, bounds, parent, cls, n.datum.data, i);
    if child - 1 in p.Behind(n.key.triple.src) && i in p.Behind(n.key.triple.tgt) && d != {}
    then [Bad(child, i + 1, cls, d)] else []
  }

  ghost function SourceBads(p: Types, bounds: seq<nat>, have: Coverage, child: nat, parent: nat, n: Node,
                            k: nat): seq<Bad>
    requires k <= |bounds|
  {
    if k == 0 then []
    else SourceRecord(p, bounds, have, child, parent, n, k - 1) + SourceBads(p, bounds, have, child, parent, n, k - 1)
  }

  /** The same with the child as target; the child as its own source is left to the
      first half. */
  ghost function TargetRecord(p: Types, bounds: seq<nat>, have: Coverage, child: nat, parent: nat, n: Node,
                              i: nat): seq<Bad>
    requires i < |bounds|
  {
    var cls := n.key.triple.cls;
    var d := TargetLeftover(have, bounds, parent, cls, n.datum.data, i);
    if child - 1 in p.Behind(n.key.triple.tgt) && i in p.Behind(n.key.triple.src) && i + 1 != child && d != {}
    then [Bad(i + 1, child, cls, d)] else []
  }

  ghost function TargetBads(p: Types, bounds: seq<nat>, have: Coverage, child: nat, parent: nat, n: Node,
                            k: nat): seq<Bad>
    requires k <= |bounds|
  {
    if k == 0 then []
    else TargetRecord(p, bounds, have, child, parent, n, k - 1) + TargetBads(p, bounds, have, child, parent, n, k - 1)
  }

  ghost function RuleBads(p: Types, bounds: seq<nat>, have: Coverage, child: nat, parent: nat, n: Node): seq<Bad>
  {
    TargetBads(p, bounds, have, child, parent, n, |bounds|) + SourceBads(p, bounds, have, child, parent, n, |bounds|)
  }

  method CheckSourceAt(p: Types, bounds: seq<nat>, global: Table?, cur: Table, child: nat, parent: nat, n: Node, i: nat,
                       ghost cov: Coverage, ghost gcov: Coverage)
    returns (record: seq<Bad>)
    requires RuleInRange(p, n) && 1 <= child && i < |bounds| && child - 1 in p.Behind(n.key.triple.src)
    requires Shows(cur, cov) && GlobalShows(global, gcov)
    ensures record == SourceRecord(p, bounds, Joint(cov, gcov), child, parent, n, i)
  {
    var cls := n.key.triple.cls;
    if i !in p.attrTypes[n.key.triple.tgt - 1] { return []; }
    var d := FindLeftover(global, cur, Triple(parent, i + 1, cls), Triple(parent, bounds[i], cls), bounds[i],
                          n.datum.data, cov, gcov);
    record := if d == {} then [] else [Bad(child, i + 1, cls, d)];
  }

  method BoundsCheckAsSource(p: Types, bounds: seq<nat>, global: Table?, cur: Table, child: nat, parent: nat, n: Node,
                             bad: seq<Bad>, numbad: nat, ghost cov: Coverage, ghost gcov: Coverage)
    returns (bad': seq<Bad>, numbad': nat)
    requires p.Valid() && RuleInRange(p, n) && 1 <= child && |bounds| == p.Count()
    requires Shows(cur, cov) && GlobalShows(global, gcov)
    ensures bad' == SourceBads(p, bounds, Joint(cov, gcov), child, parent, n, |bounds|) + bad
    ensures numbad' == numbad + |bad'| - |bad|
  {
    bad', numbad' := bad, numbad;
    if child - 1 !in p.attrTypes[n.key.triple.src - 1] {
      NoSourceBads(p, bounds, Joint(cov, gcov), child, parent, n, |bounds|);
      return;
    }
    bad', numbad' := CheckAllSources(p, bounds, global, cur, child, parent, n, bad, numbad, cov, gcov);
  }

  method CheckAllSources(p: Types, bounds: seq<nat>, global: Table?, cur: Table, child: nat, parent: nat, n: Node,
                         bad: seq<Bad>, numbad: nat, ghost cov: Coverage, ghost gcov: Coverage)
    returns (bad': seq<Bad>, numbad': nat)
    requires RuleInRange(p, n) && 1 <= child && |bounds| == p.Count() && child - 1 in p.Behind(n.key.triple.src)
    requires Shows(cur, cov) && GlobalShows(global, gcov)
    ensures SourcesTo(p, bounds, Joint(cov, gcov), child, parent, n, |bounds|, bad, bad', numbad, numbad')
  {
    bad', numbad' := bad, numbad;
    ghost var have := Joint(cov, gcov);
    for i := 0 to |bounds|
      invariant SourcesTo(p, bounds, have, child, parent, n, i, bad, bad', numbad, numbad')
    {
      var record := CheckSourceAt(p, bounds, global, cur, child, parent, n, i, cov, gcov);
      SourcesNext(p, bounds, have, child, parent, n, i, bad, bad', numbad, numbad');
      numbad', bad' := numbad' + |record|, record + bad';
    }
  }

  /** The records for the first k types stand in front of the list and are counted. */
  ghost predicate SourcesTo(p: Types, bounds: seq<nat>, have: Coverage, child: nat, parent: nat, n: Node, k: nat,
                            bad: seq<Bad>, bad': seq<Bad>, numbad: nat, numbad': nat)
    requires k <= |bounds|
  {
    var made := SourceBads(p, bounds, have, child, parent, n, k);
    bad' == made + bad && numbad' == numbad + |made|
  }

  lemma SourcesNext(p: Types, bounds: seq<nat>, have: Coverage, child: nat, parent: nat, n: Node, k: nat,
                    bad: seq<Bad>, bad': seq<Bad>, numbad: nat, numbad': nat)
    requires k < |bounds| && SourcesTo(p, bounds, have, child, parent, n, k, bad, bad', numbad, numbad')
    ensures var record := SourceRecord(p, bounds, have, child, parent, n, k);
            SourcesTo(p, bounds, have, child, parent, n, k + 1, bad, record + bad', numbad, numbad' + |record|)
  {
    var record := SourceRecord(p, bounds, have, child, parent, n, k);
    var made := SourceBads(p, bounds, have, child, parent, n, k);
    ConcatAssociates(record, made, bad);
    assert SourceBads(p, bounds, have, child, parent, n, k + 1) == record + made;
  }

  lemma {:induction false} NoSourceBads(p: Types, bounds: seq<nat>, have: Coverage, child: nat, parent: nat, n: Node,
                                        k: nat)
    requires k <= |bounds| && child - 1 !in p.Behind(n.key.triple.src)
    ensures SourceBads(p, bounds, have, child, parent, n, k) == []
  {
    if k > 0 {
      var record := SourceRecord(p, bounds, have, child, parent, n, k - 1);
      assert record == [];
      NoSourceBads(p, bounds, have, child, parent, n, k - 1);
    }
  }

  method CheckTargetAt(p: Types, bounds: seq<nat>, global: Table?, cur: Table, child: nat, parent: nat, n: Node, i: nat,
                       ghost cov: Coverage, ghost gcov: Coverage)
    returns (record: seq<Bad>)
    requires RuleInRange(p, n) && 1 <= child && i < |bounds| && child - 1 in p.Behind(n.key.triple.tgt)
    requires Shows(cur, cov) && GlobalShows(global, gcov)
    ensures record == TargetRecord(p, bounds, Joint(cov, gcov), child, parent, n, i)
  {
    var cls := n.key.triple.cls;
    if i !in p.attrTypes[n.key.triple.src - 1] { return []; }
    if i + 1 == child { return []; }
    var d := FindLeftover(global, cur, Triple(i + 1, parent, cls), Triple(bounds[i], parent, cls), bounds[i],
                          n.datum.data, cov, gcov);
    record := if d == {} then [] else [Bad(i + 1, child, cls, d)];
  }

  method BoundsCheckAsTarget(p: Types, bounds: seq<nat>, global: Table?, cur: Table, child: nat, parent: nat, n: Node,
                             bad: seq<Bad>, numbad: nat, ghost cov: Coverage, ghost gcov: Coverage)
    returns (bad': seq<Bad>, numbad': nat)
    requires p.Valid() && RuleInRange(p, n) && 1 <= child && |bounds| == p.Count()
    requires Shows(cur, cov) && GlobalShows(global, gcov)
    ensures bad' == TargetBads(p, bounds, Joint(cov, gcov), child, parent, n, |bounds|) + bad
    ensures numbad' == numbad + |bad'| - |bad|
  {
    bad', numbad' := bad, numbad;
    if child - 1 !in p.attrTypes[n.key.triple.tgt - 1] {
      NoTargetBads(p, bounds, Joint(cov, gcov), child, parent, n, |bounds|);
      return;
    }
    bad', numbad' := CheckAllTargets(p, bounds, global, cur, child, parent, n, bad, numbad, cov, gcov);
  }

  method CheckAllTargets(p: Types, bounds: seq<nat>, global: Table?, cur: Table, child: nat, parent: nat, n: Node,
                         bad: seq<Bad>, numbad: nat, ghost cov: Coverage, ghost gcov: Coverage)
    returns (bad': seq<Bad>, numbad': nat)
    requires RuleInRange(p, n) && 1 <= child && |bounds| == p.Count() && child - 1 in p.Behind(n.key.triple.tgt)
    requires Shows(cur, cov) && GlobalShows(global, gcov)
    ensures TargetsTo(p, bounds, Joint(cov, gcov), child, parent, n, |bounds|, bad, bad', numbad, numbad')
  {
    bad', numbad' := bad, numbad;
    ghost var have := Joint(cov, gcov);
    for i := 0 to |bounds|
      invariant TargetsTo(p, bounds, have, child, parent, n, i, bad, bad', numbad, numbad')
    {
      var record := CheckTargetAt(p, bounds, global, cur, child, parent, n, i, cov, gcov);
      TargetsNext(p, bounds, have, child, parent, n, i, bad, bad', numbad, numbad');
      numbad', bad' := numbad' + |record|, record + bad';
    }
  }

  /** The records for the first k types stand in front of the list and are counted. */
  ghost predicate TargetsTo(p: Types, bounds: seq<nat>, have: Coverage, child: nat, parent: nat, n: Node, k: nat,
                            bad: seq<Bad>, bad': seq<Bad>, numbad: nat, numbad': nat)
    requires k <= |bounds|
  {
    var made := TargetBads(p, bounds, have, child, parent, n, k);
    bad' == made + bad && numbad' == numbad + |made|
  }

  lemma TargetsNext(p: Types, bounds: seq<nat>, have: Coverage, child: nat, parent: nat, n: Node, k: nat,
                    bad: seq<Bad>, bad': seq<Bad>, numbad: nat, numbad': nat)
    requires k < |bounds| && TargetsTo(p, bounds, have, child, parent, n, k, bad, bad', numbad, numbad')
    ensures var record := TargetRecord(p, bounds, have, child, parent, n, k);
            TargetsTo(p, bounds, have, child, parent, n, k + 1, bad, record + bad', numbad, numbad' + |record|)
  {
    var record := TargetRecord(p, bounds, have, child, parent, n, k);
    var made := TargetBads(p, bounds, have, child, parent, n, k);
    ConcatAssociates(record, made, bad);
    assert TargetBads(p, bounds, have, child, parent, n, k + 1) == record + made;
  }

  lemma {:induction false} NoTargetBads(p: Types, bounds: seq<nat>, have: Coverage, child: nat, parent: nat, n: Node,
                                        k: nat)
    requires k <= |bounds| && child - 1 !in p.Behind(n.key.triple.tgt)
    ensures TargetBads(p, bounds, have, child, parent, n, k) == []
  {
    if k > 0 {
      var record := TargetRecord(p, bounds, have, child, parent, n, k - 1);
      assert record == [];
      NoTargetBads(p, bounds, have, child, parent, n, k - 1);
    }
  }

  method BoundsCheckRule(p: Types, bounds: seq<nat>, global: Table?, cur: Table, child: nat, parent: nat, n: Node,
                         bad: seq<Bad>, numbad: nat, ghost cov: Coverage, ghost gcov: Coverage)
    returns (bad': seq<Bad>, numbad': nat)
    requires p.Valid() && RuleInRange(p, n) && 1 <= child && |bounds| == p.Count()
    requires Shows(cur, cov) && GlobalShows(global, gcov)
    ensures bad' == RuleBads(p, bounds, Joint(cov, gcov), child, parent, n) + bad
    ensures numbad' == numbad + |bad'| - |bad|
  {
    bad', numbad' := BoundsCheckAsSource(p, bounds, global, cur, child, parent, n, bad, numbad, cov, gcov);
    bad', numbad' := BoundsCheckAsTarget(p, bounds, global, cur, child, parent, n, bad', numbad', cov, gcov);
  }

  /** The records for a list of rules, those whose specifier lacks Allowed aside. */
  ghost function ListBads(p: Types, bounds: seq<nat>, have: Coverage, child: nat, parent: nat,
                          rules: seq<Node>): seq<Bad> {
    if rules == [] then []
    else
      var n := rules[|rules| - 1];
      (if Allowed in n.key.specified then RuleBads(p, bounds, have, child, parent, n) else [])
      + ListBads(p, bounds, have, child, parent, rules[..|rules| - 1])
  }

  /** Checks the rules of one branch, or with no global table the unconditional rules. */
  method BoundsCheckCondRules(p: Types, bounds: seq<nat>, global: Table?, cur: Table, rules: seq<Node>, child: nat,
                              parent: nat,
                              bad: seq<Bad>, numbad: nat, ghost cov: Coverage, ghost gcov: Coverage)
    returns (bad': seq<Bad>, numbad': nat)
    requires p.Valid() && RulesInRange(p, rules) && 1 <= child && |bounds| == p.Count()
    requires Shows(cur, cov) && GlobalShows(global, gcov)
    ensures bad' == ListBads(p, bounds, Joint(cov, gcov), child, parent, rules) + bad
    ensures numbad' == numbad + |bad'| - |bad|
  {
    bad', numbad' := bad, numbad;
    ghost var have, made: seq<Bad> := Joint(cov, gcov), [];
    for k := 0 to |rules|
      invariant made == ListBads(p, bounds, have, child, parent, rules[..k])
      invariant bad' == made + bad && numbad' == numbad + |made|
    {
      ListBadsStep(p, bounds, have, child, parent, rules, k);
      if Allowed !in rules[k].key.specified { continue; }
      ghost var found := RuleBads(p, bounds, have, child, parent, rules[k]);
      bad', numbad' := BoundsCheckRule(p, bounds, global, cur, child, parent, rules[k], bad', numbad', cov, gcov);
      ConcatAssociates(found, made, bad);
      made := found + made;
    }
    assert rules[..|rules|] == rules;
  }

  lemma ListBadsStep(p: Types, bounds: seq<nat>, have: Coverage, child: nat, parent: nat, rules: seq<Node>, k: nat)
    requires k < |rules|
    ensures ListBads(p, bounds, have, child, parent, rules[..k + 1]) ==
            (if Allowed in rules[k].key.specified then RuleBads(p, bounds, have, child, parent, rules[k]) else [])
            + ListBads(p, bounds, have, child, parent, rules[..k])
  {
    assert rules[..k + 1][..k] == rules[..k];
  }

  lemma ConcatAssociates(a: seq<Bad>, b: seq<Bad>, c: seq<Bad>)
    ensures a + (b + c) == (a + b) + c
  {
  }

  // ---------- the whole check ----------

  /** What the tables of one branch and of the unconditional rules hold together. */
  ghost function BranchCoverage(p: Types, te: seq<Node>, conds: seq<CondNode>, parent: nat,
                                rules: seq<Node>): Coverage {
    Joint(t => Gains(p, parent, rules, t), GlobalCoverage(p, te, conds, parent))
  }

  /** The records for the two branches of conditional i. */
  ghost function CondBads(p: Types, bounds: seq<nat>, te: seq<Node>, conds: seq<CondNode>, child: nat, parent: nat,
                          i: nat): seq<Bad> {
    if i < |conds| then
      var yes, no := conds[i].trueList, conds[i].falseList;
      ListBads(p, bounds, BranchCoverage(p, te, conds, parent, no), child, parent, no)
      + ListBads(p, bounds, BranchCoverage(p, te, conds, parent, yes), child, parent, yes)
    else []
  }

  ghost function Collect(f: nat -> seq<Bad>, k: nat, n: nat): seq<Bad>
    decreases n - k
  {
    if k >= n then [] else f(k) + Collect(f, k + 1, n)
  }

  lemma {:induction false} CollectsNothing(f: nat -> seq<Bad>, k: nat, n: nat)
    ensures Collect(f, k, n) == [] <==> forall i: nat | k <= i < n :: f(i) == []
    decreases n - k
  {
    if k < n { CollectsNothing(f, k + 1, n); }
  }

  /** The records for the conditionals from index k on. */
  ghost function CondBadsFrom(p: Types, bounds: seq<nat>, te: seq<Node>, conds: seq<CondNode>, child: nat, parent: nat,
                              k: nat): seq<Bad> {
    Collect((i: nat) => CondBads(p, bounds, te, conds, child, parent, i), k, |conds|)
  }

  ghost function TeBads(p: Types, bounds: seq<nat>, te: seq<Node>, conds: seq<CondNode>, child: nat,
                        parent: nat): seq<Bad> {
    ListBads(p, bounds, Joint(GlobalCoverage(p, te, conds, parent), t => {}), child, parent, te)
  }

  /** Everything the check of a child against its parent records. */
  ghost function AllBads(p: Types, bounds: seq<nat>, te: seq<Node>, conds: seq<CondNode>, child: nat,
                         parent: nat): seq<Bad> {
    CondBadsFrom(p, bounds, te, conds, child, parent, 0) + TeBads(p, bounds, te, conds, child, parent)
  }

  method BoundsCheckCond(p: Types, bounds: seq<nat>, te: seq<Node>, conds: seq<CondNode>, global: Table, ci: CondInfo,
                         child: nat, parent: nat, ghost k: nat, bad: seq<Bad>, numbad: nat, ghost rest: seq<Bad>)
    returns (bad': seq<Bad>, numbad': nat)
    requires p.Valid() && CondsInRange(p, conds) && 1 <= child && |bounds| == p.Count()
    requires k < |conds| && ci.cond == conds[k] && InfoShows(p, parent, ci)
    requires Shows(global, GlobalCoverage(p, te, conds, parent))
    requires bad == CondBadsFrom(p, bounds, te, conds, child, parent, k + 1) + rest && numbad == |bad|
    ensures bad' == CondBadsFrom(p, bounds, te, conds, child, parent, k) + rest && numbad' == |bad'|
  {
    ghost var g := GlobalCoverage(p, te, conds, parent);
    ghost var yes: Coverage, no: Coverage :=
      t => Gains(p, parent, ci.cond.trueList, t), t => Gains(p, parent, ci.cond.falseList, t);
    bad', numbad' := BoundsCheckCondRules(p, bounds, global, ci.trueTab, ci.cond.trueList, child, parent, bad, numbad,
                                          yes, g);
    bad', numbad' := BoundsCheckCondRules(p, bounds, global, ci.falseTab, ci.cond.falseList, child, parent, bad',
                                          numbad', no, g);
    CondBadsStep(p, bounds, te, conds, child, parent, k, rest,
                 ListBads(p, bounds, Joint(yes, g), child, parent, ci.cond.trueList),
                 ListBads(p, bounds, Joint(no, g), child, parent, ci.cond.falseList));
  }

  lemma CondBadsStep(p: Types, bounds: seq<nat>, te: seq<Node>, conds: seq<CondNode>, child: nat, parent: nat, k: nat,
                     rest: seq<Bad>, ofTrue: seq<Bad>, ofFalse: seq<Bad>)
    requires k < |conds|
    requires CondBads(p, bounds, te, conds, child, parent, k) == ofFalse + ofTrue
    ensures CondBadsFrom(p, bounds, te, conds, child, parent, k) + rest ==
            ofFalse + (ofTrue + (CondBadsFrom(p, bounds, te, conds, child, parent, k + 1) + rest))
  {
    var later := CondBadsFrom(p, bounds, te, conds, child, parent, k + 1);
    assert CondBadsFrom(p, bounds, te, conds, child, parent, k) == ofFalse + ofTrue + later;
    ConcatAssociates(ofTrue, later, rest);
    ConcatAssociates(ofFalse, ofTrue, later);
    ConcatAssociates(ofFalse, ofTrue + later, rest);
  }

  method BoundsCheckChildRules(p: Types, bounds: seq<nat>, te: seq<Node>, conds: seq<CondNode>, global: Table,
                               infos: seq<CondInfo>, child: nat, parent: nat)
    returns (bad: seq<Bad>, numbad: nat)
    requires p.Valid() && RulesInRange(p, te) && CondsInRange(p, conds) && 1 <= child && |bounds| == p.Count()
    requires Shows(global, GlobalCoverage(p, te, conds, parent)) && |infos| == |conds|
    requires forall j | 0 <= j < |infos| :: infos[j].cond == conds[|conds| - 1 - j] && InfoShows(p, parent, infos[j])
    ensures bad == AllBads(p, bounds, te, conds, child, parent) && numbad == |bad|
  {
    ghost var rest := TeBads(p, bounds, te, conds, child, parent);
    bad, numbad := BoundsCheckCondRules(p, bounds, null, global, te, child, parent, [], 0,
                                        GlobalCoverage(p, te, conds, parent), t => {});
    for j := 0 to |infos|
      invariant bad == CondBadsFrom(p, bounds, te, conds, child, parent, |conds| - j) + rest && numbad == |bad|
    {
      bad, numbad := BoundsCheckCond(p, bounds, te, conds, global, infos[j], child, parent, |conds| - 1 - j, bad,
                                     numbad, rest);
    }
  }

  /** Checks a child type against its parent: the records, and their number added to
      the caller's. */
  method BoundsCheckType(p: Types, bounds: seq<nat>, te: seq<Node>, conds: seq<CondNode>, child: nat, parent: nat,
                         hash: Triple -> nat, nslot: nat, numbad: nat)
    returns (bad: seq<Bad>, numbad': nat)
    requires p.Valid() && RulesInRange(p, te) && CondsInRange(p, conds)
    requires p.InRange(child) && p.InRange(parent) && |bounds| == p.Count()
    requires forall t :: hash(t) < nslot
    ensures bad == AllBads(p, bounds, te, conds, child, parent) && numbad' == numbad + |bad|
  {
    var global, infos := BoundsExpandParentRules(p, te, conds, parent, hash, nslot);
    bad, numbad' := BoundsCheckChildRules(p, bounds, te, conds, global, infos, child, parent);
    numbad' := numbad + numbad';
  }
}
