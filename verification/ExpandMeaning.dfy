/** What the expanded table says, kind of rule by kind of rule. */
module ExpandMeaning {
  import opened Avtab
  import opened Policy
  import opened Expand

  /** The rule has the flag and covers the types and the class. */
  predicate Applies(p: Types, n: Node, f: Flag, s: nat, t: nat, c: nat) {
    f in n.key.specified && Covers(p, n, s, t, c)
  }

  /** The entry has the flag and stands for just these. */
  predicate StandsFor(n: Node, f: Flag, s: nat, t: nat, c: nat) {
    f in n.key.specified && n.key.triple == Triple(s, t, c)
  }

  /** The block is of this kind and driver and holds the number. */
  predicate HoldsNumber(x: XPerms, kind: nat, driver: nat, number: nat) {
    x.specified == kind && x.driver == driver && number in x.perms
  }

  ghost predicate SomeRuleHolds(p: Types, rules: seq<Node>, f: Flag, s: nat, t: nat, c: nat, kind: nat, driver: nat,
                                number: nat) {
    exists n :: n in rules && Applies(p, n, f, s, t, c) && HoldsNumber(n.datum.xperms, kind, driver, number)
  }

  ghost predicate SomeEntryHolds(nodes: seq<Node>, f: Flag, s: nat, t: nat, c: nat, kind: nat, driver: nat,
                                 number: nat) {
    exists n :: n in nodes && StandsFor(n, f, s, t, c) && HoldsNumber(n.datum.xperms, kind, driver, number)
  }

  /** The chains are the expansion of the rules. */
  ghost predicate Expanded(p: Types, rules: seq<Node>, chains: seq<Chain>, hash: Triple -> nat, m: RuleMap) {
    p.Valid() && SingleKinds(rules) && IsExpansion(p, rules, m) && Agrees(chains, hash, m)
  }

  // ---------- one flag, one identity ----------

  lemma OneFlag(s: Spec, f: Flag)
    requires SingleKind(s) && f in s
    ensures s == {f}
  {
    var g: Flag :| g != Enabled && s == {g};
  }

  lemma BlockId(n: Node, f: Flag)
    requires n.key.specified == {f} && f in {XpermsAllowed, XpermsAuditAllow, XpermsDontAudit}
    ensures Id(n) == RuleId(n.key, n.datum.xperms.specified, n.datum.xperms.driver)
    ensures {f} * XPERMS != {}
  {
    assert f in {f} * XPERMS;
  }

  lemma PlainId(n: Node, f: Flag)
    requires n.key.specified == {f}
    requires f in {Allowed, AuditAllow, AuditDeny, Transition, Member, Change}
    ensures Id(n) == RuleId(n.key, 0, 0)
  {
    assert {f} * XPERMS == {};
  }

  /** What a rule yields: itself for each source and target it covers. */
  lemma YieldsItself(p: Types, e: Node, f: Flag, s: nat, t: nat, c: nat)
    requires e.key.specified == {f} && Covers(p, e, s, t, c)
    ensures Yields(p, e, Id(e.(key := Key(Triple(s, t, c), {f}))))
  {
    assert (s - 1, t - 1) in Pairs(p, e);
    assert Instance(e, s - 1, t - 1) == e.(key := Key(Triple(s, t, c), {f}));
  }

  lemma YieldedApplies(p: Types, e: Node, id: RuleId, f: Flag, s: nat, t: nat, c: nat)
    requires Yields(p, e, id) && id.key == Key(Triple(s, t, c), {f})
    ensures e.key.specified == {f} && Covers(p, e, s, t, c)
    ensures Id(e.(key := id.key)) == id
  {
    var i, j :| (i, j) in Pairs(p, e) && Id(Instance(e, i, j)) == id;
    assert Instance(e, i, j).key == id.key;
  }

  lemma NodesAreSingle(chains: seq<Chain>, hash: Triple -> nat, m: RuleMap, n: Node, f: Flag)
    requires Agrees(chains, hash, m) && n in Flatten(chains) && f in n.key.specified
    ensures n.key.specified == {f}
  {
    ExpandedIsSingle(chains, hash, m, n);
    OneFlag(n.key.specified, f);
  }

  lemma RulesAreSingle(rules: seq<Node>, n: Node, f: Flag)
    requires SingleKinds(rules) && n in rules && f in n.key.specified
    ensures n.key.specified == {f}
  {
    var k :| 0 <= k < |rules| && rules[k] == n;
    assert SingleKind(rules[k].key.specified);
    OneFlag(n.key.specified, f);
  }

  /** An entry of the map is a node of the table. */
  lemma EntryIsNode(chains: seq<Chain>, hash: Triple -> nat, m: RuleMap, id: RuleId) returns (n: Node)
    requires Agrees(chains, hash, m) && id in m
    ensures n in Flatten(chains) && Id(n) == id && n.datum == m[id] && n.key == id.key
  {
    var c := chains[hash(id.key.triple)];
    assert HasId(c, id) && ChainAgrees(c, m);
    var i :| 0 <= i < |c| && Id(c[i]) == id;
    n := c[i];
    FlattenMembers(chains, n);
  }

  // ---------- ioctl numbers ----------

  /** For each kind of extended permission rule, every block kind, driver and number: an
      entry of the expanded table holds it for a source, target and class exactly when some
      rule that covers them does. */
  lemma ExpansionKeepsNumbers(p: Types, rules: seq<Node>, chains: seq<Chain>, hash: Triple -> nat, m: RuleMap, f: Flag,
                              s: nat, t: nat, c: nat, kind: nat, driver: nat, number: nat)
    requires Expanded(p, rules, chains, hash, m)
    requires f == XpermsAllowed || f == XpermsAuditAllow || f == XpermsDontAudit
    ensures SomeEntryHolds(Flatten(chains), f, s, t, c, kind, driver, number) <==>
            SomeRuleHolds(p, rules, f, s, t, c, kind, driver, number)
  {
    if n :| n in Flatten(chains) && StandsFor(n, f, s, t, c) && HoldsNumber(n.datum.xperms, kind, driver, number) {
      EntryHasRule(p, rules, chains, hash, m, f, n, s, t, c, kind, driver, number);
    }
    if n :| n in rules && Applies(p, n, f, s, t, c) && HoldsNumber(n.datum.xperms, kind, driver, number) {
      RuleHasEntry(p, rules, chains, hash, m, f, n, s, t, c, kind, driver, number);
    }
  }

  lemma EntryHasRule(p: Types, rules: seq<Node>, chains: seq<Chain>, hash: Triple -> nat, m: RuleMap, f: Flag, n: Node,
                     s: nat, t: nat, c: nat, kind: nat, driver: nat, number: nat)
    requires Expanded(p, rules, chains, hash, m) && f in {XpermsAllowed, XpermsAuditAllow, XpermsDontAudit}
    requires n in Flatten(chains) && StandsFor(n, f, s, t, c) && HoldsNumber(n.datum.xperms, kind, driver, number)
    ensures SomeRuleHolds(p, rules, f, s, t, c, kind, driver, number)
  {
    NodesAreSingle(chains, hash, m, n, f);
    BlockId(n, f);
    NodesAreRules(chains, hash, m, n);
    assert DatumIsExpansion(p, rules, Id(n), m[Id(n)], number);
    var y :| YieldsAt(p, rules, y, Id(n)) && number in rules[y].datum.xperms.perms;
    YieldedApplies(p, rules[y], Id(n), f, s, t, c);
    BlockId(rules[y].(key := n.key), f);
    assert rules[y] in rules && Applies(p, rules[y], f, s, t, c);
  }

  lemma RuleHasEntry(p: Types, rules: seq<Node>, chains: seq<Chain>, hash: Triple -> nat, m: RuleMap, f: Flag, n: Node,
                     s: nat, t: nat, c: nat, kind: nat, driver: nat, number: nat)
    requires Expanded(p, rules, chains, hash, m) && f in {XpermsAllowed, XpermsAuditAllow, XpermsDontAudit}
    requires n in rules && Applies(p, n, f, s, t, c) && HoldsNumber(n.datum.xperms, kind, driver, number)
    ensures SomeEntryHolds(Flatten(chains), f, s, t, c, kind, driver, number)
  {
    RulesAreSingle(rules, n, f);
    YieldsItself(p, n, f, s, t, c);
    var id := Id(n.(key := Key(Triple(s, t, c), {f})));
    BlockId(n.(key := Key(Triple(s, t, c), {f})), f);
    var y :| 0 <= y < |rules| && rules[y] == n;
    assert YieldsAt(p, rules, y, id);
    assert DatumIsExpansion(p, rules, id, m[id], number);
    var e := EntryIsNode(chains, hash, m, id);
    BlockId(e, f);
  }

  // ---------- access vectors ----------

  ghost predicate SomeRuleHas(p: Types, rules: seq<Node>, f: Flag, s: nat, t: nat, c: nat, perm: Perm) {
    exists n :: n in rules && Applies(p, n, f, s, t, c) && perm in n.datum.data
  }

  ghost predicate AllRulesHave(p: Types, rules: seq<Node>, f: Flag, s: nat, t: nat, c: nat, perm: Perm) {
    forall n | n in rules && Applies(p, n, f, s, t, c) :: perm in n.datum.data
  }

  /** There is an entry exactly when some rule applies, and then only one: for allow and
      auditallow it has what some rule has, for auditdeny what all rules have. */
  lemma ExpansionKeepsVectors(p: Types, rules: seq<Node>, chains: seq<Chain>, hash: Triple -> nat, m: RuleMap, f: Flag,
                              s: nat, t: nat, c: nat, perm: Perm)
    requires Expanded(p, rules, chains, hash, m)
    requires f == Allowed || f == AuditAllow || f == AuditDeny
    ensures (exists n :: n in Flatten(chains) && StandsFor(n, f, s, t, c)) <==>
            exists n :: n in rules && Applies(p, n, f, s, t, c)
    ensures forall n | n in Flatten(chains) && StandsFor(n, f, s, t, c) ::
              perm in n.datum.data <==>
              if f == AuditDeny then AllRulesHave(p, rules, f, s, t, c, perm)
              else SomeRuleHas(p, rules, f, s, t, c, perm)
  {
    forall n | n in Flatten(chains) && StandsFor(n, f, s, t, c)
      ensures exists e :: e in rules && Applies(p, e, f, s, t, c)
      ensures perm in n.datum.data <==>
              if f == AuditDeny then AllRulesHave(p, rules, f, s, t, c, perm)
              else SomeRuleHas(p, rules, f, s, t, c, perm)
    {
      EntryFromRules(p, rules, chains, hash, m, f, n, s, t, c);
      VectorFromRules(p, rules, chains, hash, m, f, n, s, t, c, perm);
    }
    forall n | n in rules && Applies(p, n, f, s, t, c)
      ensures exists e :: e in Flatten(chains) && StandsFor(e, f, s, t, c)
    {
      var e := PlainEntry(p, rules, chains, hash, m, f, n, s, t, c);
    }
  }

  /** A rule that applies has an entry. */
  lemma PlainEntry(p: Types, rules: seq<Node>, chains: seq<Chain>, hash: Triple -> nat, m: RuleMap, f: Flag, n: Node,
                   s: nat, t: nat, c: nat)
    returns (e: Node)
    requires Expanded(p, rules, chains, hash, m) && n in rules && Applies(p, n, f, s, t, c)
    requires f in {Allowed, AuditAllow, AuditDeny, Transition, Member, Change}
    ensures e in Flatten(chains) && StandsFor(e, f, s, t, c)
  {
    var y := RuleYields(p, rules, n, f, s, t, c);
    e := EntryIsNode(chains, hash, m, RuleId(Key(Triple(s, t, c), {f}), 0, 0));
  }

  lemma RuleYields(p: Types, rules: seq<Node>, n: Node, f: Flag, s: nat, t: nat, c: nat) returns (y: nat)
    requires SingleKinds(rules) && n in rules && Applies(p, n, f, s, t, c)
    requires f in {Allowed, AuditAllow, AuditDeny, Transition, Member, Change}
    ensures y < |rules| && rules[y] == n && YieldsAt(p, rules, y, RuleId(Key(Triple(s, t, c), {f}), 0, 0))
  {
    RulesAreSingle(rules, n, f);
    YieldsItself(p, n, f, s, t, c);
    PlainId(n.(key := Key(Triple(s, t, c), {f})), f);
    y :| y < |rules| && rules[y] == n;
  }

  /** Every entry comes from a rule, and has its identity. */
  lemma EntryFromRules(p: Types, rules: seq<Node>, chains: seq<Chain>, hash: Triple -> nat, m: RuleMap, f: Flag,
                       n: Node, s: nat, t: nat, c: nat)
    requires Expanded(p, rules, chains, hash, m) && n in Flatten(chains) && StandsFor(n, f, s, t, c)
    requires f in {Allowed, AuditAllow, AuditDeny, Transition, Member, Change}
    ensures Id(n) == RuleId(Key(Triple(s, t, c), {f}), 0, 0) && Id(n) in m && m[Id(n)] == n.datum
    ensures exists e :: e in rules && Applies(p, e, f, s, t, c)
  {
    NodesAreSingle(chains, hash, m, n, f);
    PlainId(n, f);
    NodesAreRules(chains, hash, m, n);
    var y :| YieldsAt(p, rules, y, Id(n));
    YieldedApplies(p, rules[y], Id(n), f, s, t, c);
    assert rules[y] in rules;
  }

  lemma VectorFromRules(p: Types, rules: seq<Node>, chains: seq<Chain>, hash: Triple -> nat, m: RuleMap, f: Flag,
                        n: Node, s: nat, t: nat, c: nat, perm: Perm)
    requires Expanded(p, rules, chains, hash, m) && n in Flatten(chains) && StandsFor(n, f, s, t, c)
    requires f in {Allowed, AuditAllow, AuditDeny}
    ensures perm in n.datum.data <==>
            if f == AuditDeny then AllRulesHave(p, rules, f, s, t, c, perm)
            else SomeRuleHas(p, rules, f, s, t, c, perm)
  {
    EntryFromRules(p, rules, chains, hash, m, f, n, s, t, c);
    var id := Id(n);
    assert DatumIsExpansion(p, rules, id, m[id], perm);
    forall e | e in rules && Applies(p, e, f, s, t, c)
      ensures exists y :: YieldsAt(p, rules, y, id) && rules[y] == e
    {
      var y := RuleYields(p, rules, e, f, s, t, c);
    }
    forall y | YieldsAt(p, rules, y, id) ensures rules[y] in rules && Applies(p, rules[y], f, s, t, c) {
      YieldedApplies(p, rules[y], id, f, s, t, c);
    }
  }

  // ---------- type rules ----------

  /** The entries for transition, member and change rules are the rules that apply. */
  lemma ExpansionKeepsTypes(p: Types, rules: seq<Node>, chains: seq<Chain>, hash: Triple -> nat, m: RuleMap, f: Flag,
                            s: nat, t: nat, c: nat, d: Datum)
    requires Expanded(p, rules, chains, hash, m)
    requires f == Transition || f == Member || f == Change
    ensures (exists n :: n in Flatten(chains) && StandsFor(n, f, s, t, c) && n.datum == d) <==>
            exists n :: n in rules && Applies(p, n, f, s, t, c) && n.datum == d
  {
    forall n | n in Flatten(chains) && StandsFor(n, f, s, t, c) && n.datum == d
      ensures exists e :: e in rules && Applies(p, e, f, s, t, c) && e.datum == d
    {
      EntryFromRules(p, rules, chains, hash, m, f, n, s, t, c);
      var e :| e in rules && Applies(p, e, f, s, t, c);
      SourceDatum(p, rules, chains, hash, m, f, e, n, s, t, c);
    }
    forall e | e in rules && Applies(p, e, f, s, t, c) && e.datum == d
      ensures exists n :: n in Flatten(chains) && StandsFor(n, f, s, t, c) && n.datum == d
    {
      var n := PlainEntry(p, rules, chains, hash, m, f, e, s, t, c);
      SourceDatum(p, rules, chains, hash, m, f, e, n, s, t, c);
    }
  }

  lemma SourceDatum(p: Types, rules: seq<Node>, chains: seq<Chain>, hash: Triple -> nat, m: RuleMap, f: Flag, e: Node,
                    n: Node, s: nat, t: nat, c: nat)
    requires Expanded(p, rules, chains, hash, m) && f in {Transition, Member, Change}
    requires e in rules && Applies(p, e, f, s, t, c) && n in Flatten(chains) && StandsFor(n, f, s, t, c)
    ensures e.datum == n.datum
  {
    EntryFromRules(p, rules, chains, hash, m, f, n, s, t, c);
    var y := RuleYields(p, rules, e, f, s, t, c);
    assert TypeDatumIsExpansion(p, rules, Id(n), m[Id(n)]);
  }
}
