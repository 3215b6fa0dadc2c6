/** Neverallow checking: deciding and reporting, without expanding the table, whether
    the allow rules violate a neverallow rule. */
module Assertion {
  import opened Avtab
  import opened Policy
  import Expand

  datatype ClassPerm = ClassPerm(tclass: nat, data: Av)

  /** A plain neverallow rule over type indexes. With `self` each source is a target of its
      own, in addition to the targets listed. */
  datatype Neverallow = Neverallow(stypes: set<nat>, ttypes: set<nat>, self: bool, perms: seq<ClassPerm>)

  // ---------- the meaning of a neverallow rule ----------

  predicate Names(rule: Neverallow, c: nat, perm: Perm) {
    exists k :: 0 <= k < |rule.perms| && rule.perms[k].tclass == c && perm in rule.perms[k].data
  }

  /** The rule forbids source s (a type value) perm on target t and class c. */
  ghost predicate Forbids(rule: Neverallow, s: nat, t: nat, c: nat, perm: Perm) {
    && 1 <= s && 1 <= t
    && s - 1 in rule.stypes
    && ((rule.self && s == t) || t - 1 in rule.ttypes)
    && Names(rule, c, perm)
  }

  /** What the check looks for: of a rule with self, only a source on itself. */
  ghost predicate Sought(rule: Neverallow, s: nat, t: nat, c: nat, perm: Perm) {
    && 1 <= s && 1 <= t
    && s - 1 in rule.stypes
    && (if rule.self then s == t else t - 1 in rule.ttypes)
    && Names(rule, c, perm)
  }

  ghost predicate Violated(p: Types, rule: Neverallow, rules: seq<Node>) {
    exists s: nat, t: nat, c: nat, perm: Perm :: Forbids(rule, s, t, c, perm) && Grants(p, rules, s, t, c, perm)
  }

  /** What the check looks at: allow entries that are not marked Enabled. */
  ghost predicate EntryFlagged(p: Types, rule: Neverallow, n: Node) {
    n.key.specified == {Allowed} && EntrySought(p, rule, n)
  }

  ghost predicate Flagged(p: Types, rule: Neverallow, rules: seq<Node>) {
    exists k :: 0 <= k < |rules| && EntryFlagged(p, rule, rules[k])
  }

  /** The listed targets of a rule with self add nothing to self. */
  predicate SelfCovers(rule: Neverallow) {
    rule.self && HasPerms(rule) ==> forall i, j | i in rule.stypes && j in rule.ttypes :: i == j
  }

  predicate HasPerms(rule: Neverallow) {
    exists k :: 0 <= k < |rule.perms| && rule.perms[k].data != {}
  }

  lemma PlainAllow(n: Node)
    requires n.key.specified == {Allowed}
    ensures IsAllow(n)
  {
    assert {Allowed} - {Enabled} == {Allowed};
  }

  // ---------- the check ----------

  /** Some class permission of the list names this class and shares a permission. */
  method MatchAnyClassPermissions(perms: seq<ClassPerm>, class_: nat, data: Av) returns (found: bool)
    ensures found <==> exists k :: SharesPerm(perms, k, class_, data)
  {
    for k := 0 to |perms|
      invariant forall j | 0 <= j < k :: !SharesPerm(perms, j, class_, data)
    {
      if perms[k].tclass == class_ && perms[k].data * data != {} {
        assert SharesPerm(perms, k, class_, data);
        return true;
      }
    }
    return false;
  }

  predicate SharesPerm(perms: seq<ClassPerm>, k: int, class_: nat, data: Av) {
    0 <= k < |perms| && perms[k].tclass == class_ && perms[k].data * data != {}
  }

  /** The entry grants something that is looked for. */
  ghost predicate EntrySought(p: Types, rule: Neverallow, n: Node) {
    exists s: nat, t: nat, c: nat, perm: Perm :: Sought(rule, s, t, c, perm) && GrantsByRule(p, n, s, t, c, perm)
  }

  method CheckAssertionAvtabMatch(p: Types, rule: Neverallow, n: Node) returns (violated: bool)
    requires p.Valid() && RuleInRange(p, n)
    ensures violated <==> EntryFlagged(p, rule, n)
  {
    if n.key.specified != {Allowed} { return false; }
    var anyPerm := MatchAnyClassPermissions(rule.perms, n.key.triple.cls, n.datum.data);
    if EntrySought(p, rule, n) { ViolationNeeds(p, rule, n); }
    if !anyPerm { return false; }
    var sattr, tattr := p.attrTypes[n.key.triple.src - 1], p.attrTypes[n.key.triple.tgt - 1];
    if rule.stypes * sattr == {} { return false; }
    if rule.self {
      violated := rule.stypes * (sattr * tattr) != {};
    } else {
      violated := rule.ttypes * tattr != {};
    }
    EntryVerdict(p, rule, n);
  }

  lemma ViolationNeeds(p: Types, rule: Neverallow, n: Node)
    requires EntrySought(p, rule, n)
    ensures exists k :: SharesPerm(rule.perms, k, n.key.triple.cls, n.datum.data)
    ensures rule.stypes * p.Behind(n.key.triple.src) != {}
  {
    var s: nat, t: nat, c: nat, perm: Perm :| Sought(rule, s, t, c, perm) && GrantsByRule(p, n, s, t, c, perm);
    assert s - 1 in rule.stypes * p.Behind(n.key.triple.src);
    var k :| 0 <= k < |rule.perms| && rule.perms[k].tclass == c && perm in rule.perms[k].data;
    assert perm in rule.perms[k].data * n.datum.data;
    assert SharesPerm(rule.perms, k, c, n.datum.data);
  }

  /** The set tests on the entry's type sets decide whether some concrete source,
      target and permission are violated. */
  lemma EntryVerdict(p: Types, rule: Neverallow, n: Node)
    requires RuleInRange(p, n) && n.key.specified == {Allowed}
    requires exists k :: SharesPerm(rule.perms, k, n.key.triple.cls, n.datum.data)
    requires rule.stypes * p.Behind(n.key.triple.src) != {}
    ensures var sattr, tattr := p.Behind(n.key.triple.src), p.Behind(n.key.triple.tgt);
            EntrySought(p, rule, n) <==>
            if rule.self then rule.stypes * (sattr * tattr) != {} else rule.ttypes * tattr != {}
  {
    var sattr, tattr := p.Behind(n.key.triple.src), p.Behind(n.key.triple.tgt);
    var c := n.key.triple.cls;
    PlainAllow(n);
    var k :| SharesPerm(rule.perms, k, c, n.datum.data);
    var perm :| perm in rule.perms[k].data * n.datum.data;
    if rule.self && rule.stypes * (sattr * tattr) != {} {
      var i :| i in rule.stypes * (sattr * tattr);
      assert Sought(rule, i + 1, i + 1, c, perm) && GrantsByRule(p, n, i + 1, i + 1, c, perm);
    }
    if !rule.self && rule.ttypes * tattr != {} {
      var i :| i in rule.stypes * sattr;
      var j :| j in rule.ttypes * tattr;
      assert Sought(rule, i + 1, j + 1, c, perm) && GrantsByRule(p, n, i + 1, j + 1, c, perm);
    }
    if s: nat, t: nat, c': nat, perm': Perm :| Sought(rule, s, t, c', perm') && GrantsByRule(p, n, s, t, c', perm') {
      assert if rule.self then s - 1 in rule.stypes * (sattr * tattr) else t - 1 in rule.ttypes * tattr;
    }
  }

  /** The check, which never expands an attribute: it flags the rule exactly when some
      unmarked entry of either table grants some concrete source, on some concrete
      target, a permission that is looked for. */
  method CheckAssertion(p: Types, te: seq<Node>, teCond: seq<Node>, rule: Neverallow) returns (violated: bool)
    requires p.Valid() && RulesInRange(p, te) && RulesInRange(p, teCond)
    ensures violated <==> Flagged(p, rule, te + teCond)
  {
    violated := CheckTable(p, te, rule);
    if !violated {
      violated := CheckTable(p, teCond, rule);
    }
    FlaggedConcat(p, rule, te, teCond);
  }

  lemma FlaggedConcat(p: Types, rule: Neverallow, a: seq<Node>, b: seq<Node>)
    ensures Flagged(p, rule, a + b) <==> Flagged(p, rule, a) || Flagged(p, rule, b)
  {
    forall k | 0 <= k < |a| && EntryFlagged(p, rule, a[k]) ensures Flagged(p, rule, a + b) {
      assert (a + b)[k] == a[k];
    }
    forall k | 0 <= k < |b| && EntryFlagged(p, rule, b[k]) ensures Flagged(p, rule, a + b) {
      assert (a + b)[|a| + k] == b[k];
    }
  }

  method CheckTable(p: Types, rules: seq<Node>, rule: Neverallow) returns (violated: bool)
    requires p.Valid() && RulesInRange(p, rules)
    ensures violated <==> Flagged(p, rule, rules)
  {
    for k := 0 to |rules|
      invariant forall j | 0 <= j < k :: !EntryFlagged(p, rule, rules[j])
    {
      violated := CheckAssertionAvtabMatch(p, rule, rules[k]);
      if violated { return; }
    }
    return false;
  }

  // ---------- where the check is right ----------

  /** The grant of a marked entry is also made by an entry the check looks at. */
  ghost predicate GrantedUnmarked(p: Types, rules: seq<Node>, s: nat, t: nat, c: nat, perm: Perm) {
    exists k :: 0 <= k < |rules| && rules[k].key.specified == {Allowed} && GrantsByRule(p, rules[k], s, t, c, perm)
  }

  ghost predicate AllUnmarked(p: Types, rules: seq<Node>) {
    forall s: nat, t: nat, c: nat, perm: Perm | Grants(p, rules, s, t, c, perm) ::
      GrantedUnmarked(p, rules, s, t, c, perm)
  }

  ghost predicate RightAbout(p: Types, rule: Neverallow, rules: seq<Node>) {
    Flagged(p, rule, rules) <==> Violated(p, rule, rules)
  }

  /** What is looked for is forbidden, and the other way round if self covers the targets. */
  lemma SoughtIsForbidden(rule: Neverallow, s: nat, t: nat, c: nat, perm: Perm)
    ensures Sought(rule, s, t, c, perm) ==> Forbids(rule, s, t, c, perm)
    ensures SelfCovers(rule) && Forbids(rule, s, t, c, perm) ==> Sought(rule, s, t, c, perm)
  {
    if SelfCovers(rule) && Forbids(rule, s, t, c, perm) {
      var k :| 0 <= k < |rule.perms| && rule.perms[k].tclass == c && perm in rule.perms[k].data;
      assert HasPerms(rule);
    }
  }

  /** What is flagged is always a violation. */
  lemma FlaggedIsViolated(p: Types, rule: Neverallow, rules: seq<Node>)
    ensures Flagged(p, rule, rules) ==> Violated(p, rule, rules)
  {
    if Flagged(p, rule, rules) {
      var k :| 0 <= k < |rules| && EntryFlagged(p, rule, rules[k]);
      var s: nat, t: nat, c: nat, perm: Perm :| Sought(rule, s, t, c, perm) && GrantsByRule(p, rules[k], s, t, c, perm);
      SoughtIsForbidden(rule, s, t, c, perm);
      assert Grants(p, rules, s, t, c, perm);
    }
  }

  lemma UnmarkedIsFlagged(p: Types, rule: Neverallow, rules: seq<Node>)
    requires AllUnmarked(p, rules) && SelfCovers(rule) && Violated(p, rule, rules)
    ensures Flagged(p, rule, rules)
  {
    var s: nat, t: nat, c: nat, perm: Perm :| Forbids(rule, s, t, c, perm) && Grants(p, rules, s, t, c, perm);
    SoughtIsForbidden(rule, s, t, c, perm);
    assert GrantedUnmarked(p, rules, s, t, c, perm);
    var k :| 0 <= k < |rules| && rules[k].key.specified == {Allowed} && GrantsByRule(p, rules[k], s, t, c, perm);
    assert EntryFlagged(p, rule, rules[k]);
  }

  /** Neverallow exactness, table by table. Against the meaning of the policy, the check is
      right about every rule whose targets self covers (every rule without self is one)
      exactly when each grant is made by an unmarked entry. */
  lemma CheckIsExact(p: Types, rules: seq<Node>)
    ensures (forall rule | SelfCovers(rule) :: RightAbout(p, rule, rules)) <==> AllUnmarked(p, rules)
  {
    if AllUnmarked(p, rules) {
      forall rule | SelfCovers(rule) ensures RightAbout(p, rule, rules) {
        FlaggedIsViolated(p, rule, rules);
        if Violated(p, rule, rules) { UnmarkedIsFlagged(p, rule, rules); }
      }
    }
    if forall rule | SelfCovers(rule) :: RightAbout(p, rule, rules) {
      forall s: nat, t: nat, c: nat, perm: Perm | Grants(p, rules, s, t, c, perm)
        ensures GrantedUnmarked(p, rules, s, t, c, perm)
      {
        ForbidJustThis(p, rules, s, t, c, perm);
      }
    }
  }

  /** The rule that forbids a single grant. */
  function JustThis(s: nat, t: nat, c: nat, perm: Perm): Neverallow
    requires 1 <= s && 1 <= t
  {
    Neverallow({s - 1}, {t - 1}, false, [ClassPerm(c, {perm})])
  }

  lemma ForbidJustThis(p: Types, rules: seq<Node>, s: nat, t: nat, c: nat, perm: Perm)
    requires Grants(p, rules, s, t, c, perm)
    requires forall rule | SelfCovers(rule) :: RightAbout(p, rule, rules)
    ensures GrantedUnmarked(p, rules, s, t, c, perm)
  {
    var rule := JustThis(s, t, c, perm);
    assert rule.perms[0].tclass == c && perm in rule.perms[0].data;
    assert Forbids(rule, s, t, c, perm);
    assert SelfCovers(rule) && RightAbout(p, rule, rules);
    var k :| 0 <= k < |rules| && EntryFlagged(p, rule, rules[k]);
    assert GrantsByRule(p, rules[k], s, t, c, perm);
  }

  ghost predicate NoMarks(rules: seq<Node>) {
    forall k | 0 <= k < |rules| :: Enabled !in rules[k].key.specified
  }

  lemma NoMarksAllUnmarked(p: Types, rules: seq<Node>)
    requires NoMarks(rules)
    ensures AllUnmarked(p, rules)
  {
    forall s: nat, t: nat, c: nat, perm: Perm | Grants(p, rules, s, t, c, perm)
      ensures GrantedUnmarked(p, rules, s, t, c, perm)
    {
      var k :| 0 <= k < |rules| && GrantsByRule(p, rules[k], s, t, c, perm);
      assert rules[k].key.specified - {Enabled} == rules[k].key.specified;
    }
  }

  /** In particular when no entry is marked. */
  lemma UnmarkedCheckIsExact(p: Types, rule: Neverallow, rules: seq<Node>)
    requires NoMarks(rules)
    ensures SelfCovers(rule) ==> RightAbout(p, rule, rules)
    ensures Flagged(p, rule, rules) ==> Violated(p, rule, rules)
  {
    NoMarksAllUnmarked(p, rules);
    CheckIsExact(p, rules);
    FlaggedIsViolated(p, rule, rules);
  }

  /** The rule speaks about individual types, as it does once its type sets are expanded. */
  ghost predicate OverTypes(p: Types, rule: Neverallow) {
    forall i | i in rule.stypes + rule.ttypes :: i < |p.individual| && p.individual[i]
  }

  ghost predicate RightAboutAll(p: Types, rule: Neverallow) {
    forall rules | NoMarks(rules) :: RightAbout(p, rule, rules)
  }

  /** Neverallow exactness, rule by rule: the check is right about a rule on every unmarked
      table exactly when the rule has no self, or self covers its targets. */
  lemma RuleIsExact(p: Types, rule: Neverallow)
    requires p.Valid() && OverTypes(p, rule)
    ensures RightAboutAll(p, rule) <==> SelfCovers(rule)
  {
    if SelfCovers(rule) {
      forall rules | NoMarks(rules) ensures RightAbout(p, rule, rules) {
        UnmarkedCheckIsExact(p, rule, rules);
      }
    } else {
      var i, j :| i in rule.stypes && j in rule.ttypes && i != j;
      var k :| 0 <= k < |rule.perms| && rule.perms[k].data != {};
      var perm :| perm in rule.perms[k].data;
      SelfRuleMisses(p, rule, i, j, rule.perms[k].tclass, perm);
    }
  }

  /** The table of one allow rule. */
  function OneAllow(s: nat, t: nat, c: nat, perm: Perm): seq<Node> {
    [Node(Key(Triple(s, t, c), {Allowed}), Datum({perm}, XPerms(0, 0, {})))]
  }

  /** A rule with self and other targets lets an allow rule to one of those pass. */
  lemma SelfRuleMisses(p: Types, rule: Neverallow, i: nat, j: nat, c: nat, perm: Perm)
    requires p.Valid() && OverTypes(p, rule) && rule.self
    requires i in rule.stypes && j in rule.ttypes && i != j && Names(rule, c, perm)
    ensures var rules := OneAllow(i + 1, j + 1, c, perm);
            NoMarks(rules) && Violated(p, rule, rules) && !Flagged(p, rule, rules)
  {
    var rules := OneAllow(i + 1, j + 1, c, perm);
    assert i in rule.stypes + rule.ttypes && j in rule.stypes + rule.ttypes;
    PlainAllow(rules[0]);
    assert GrantsByRule(p, rules[0], i + 1, j + 1, c, perm);
    assert Forbids(rule, i + 1, j + 1, c, perm);
    assert Grants(p, rules, i + 1, j + 1, c, perm);
  }

  /** A conditional allow rule whose branch is enabled escapes the check. */
  lemma MarkedEntryEscapes()
    ensures var p := Types([true, true], [{0}, {1}]);
            var n := Node(Key(Triple(1, 2, 1), {Allowed, Enabled}), Datum({0}, XPerms(0, 0, {})));
            var rule := JustThis(1, 2, 1, 0);
            p.Valid() && Violated(p, rule, [n]) && !Flagged(p, rule, [n])
  {
    var p := Types([true, true], [{0}, {1}]);
    var n := Node(Key(Triple(1, 2, 1), {Allowed, Enabled}), Datum({0}, XPerms(0, 0, {})));
    var rule := JustThis(1, 2, 1, 0);
    assert n.key.specified - {Enabled} == {Allowed};
    assert GrantsByRule(p, [n][0], 1, 2, 1, 0);
    assert rule.perms[0].tclass == 1 && 0 in rule.perms[0].data;
    assert Forbids(rule, 1, 2, 1, 0);
    assert Enabled in n.key.specified;
  }

  /** Some grant of the policy is looked for. */
  ghost predicate Met(p: Types, rule: Neverallow, rules: seq<Node>) {
    exists s: nat, t: nat, c: nat, perm: Perm :: Sought(rule, s, t, c, perm) && Grants(p, rules, s, t, c, perm)
  }

  lemma FlaggedIsMet(p: Types, rule: Neverallow, rules: seq<Node>)
    requires NoMarks(rules)
    ensures Flagged(p, rule, rules) <==> Met(p, rule, rules)
  {
    if Flagged(p, rule, rules) {
      var k :| 0 <= k < |rules| && EntryFlagged(p, rule, rules[k]);
      var s: nat, t: nat, c: nat, perm: Perm :| Sought(rule, s, t, c, perm) && GrantsByRule(p, rules[k], s, t, c, perm);
      assert Grants(p, rules, s, t, c, perm);
    }
    if Met(p, rule, rules) {
      var s: nat, t: nat, c: nat, perm: Perm :| Sought(rule, s, t, c, perm) && Grants(p, rules, s, t, c, perm);
      NoMarksAllUnmarked(p, rules);
      assert GrantedUnmarked(p, rules, s, t, c, perm);
      var k :| 0 <= k < |rules| && rules[k].key.specified == {Allowed} && GrantsByRule(p, rules[k], s, t, c, perm);
      assert EntryFlagged(p, rule, rules[k]);
    }
  }

  /** The answer is the same on the expanded table, and so is what it should be. */
  lemma CheckAgreesOnExpansion(p: Types, rule: Neverallow, rules: seq<Node>, chains: seq<Chain>,
                               hash: Triple -> nat, m: Expand.RuleMap)
    requires p.Valid() && Expand.SingleKinds(rules)
    requires Expand.IsExpansion(p, rules, m) && Expand.Agrees(chains, hash, m)
    ensures Flagged(p, rule, Flatten(chains)) <==> Flagged(p, rule, rules)
    ensures Violated(p, rule, Flatten(chains)) <==> Violated(p, rule, rules)
    ensures SelfCovers(rule) ==> RightAbout(p, rule, rules)
  {
    forall s: nat, t: nat, c: nat, perm: Perm
      ensures Grants(p, Flatten(chains), s, t, c, perm) <==> Grants(p, rules, s, t, c, perm)
    {
      Expand.ExpansionPreservesGrants(p, rules, chains, hash, m, s, t, c, perm);
    }
    forall n | n in Flatten(chains) ensures Enabled !in n.key.specified {
      Expand.ExpandedIsSingle(chains, hash, m, n);
    }
    assert NoMarks(rules) by {
      forall k | 0 <= k < |rules| ensures Enabled !in rules[k].key.specified {
        assert SingleKind(rules[k].key.specified);
      }
    }
    FlaggedIsMet(p, rule, rules);
    FlaggedIsMet(p, rule, Flatten(chains));
    UnmarkedCheckIsExact(p, rule, rules);
  }

  // ---------- conditional rules ----------

  /** The conditional table holds the rules of all branches. */
  ghost predicate HoldsBranches(teCond: seq<Node>, conds: seq<CondNode>) {
    && (forall k | 0 <= k < |teCond| :: InSomeBranch(teCond[k], conds))
    && (forall i, value | 0 <= i < |conds| :: forall n | n in BranchOf(conds[i], value) :: n in teCond)
  }

  function BranchOf(cond: CondNode, value: bool): seq<Node> {
    if value then cond.trueList else cond.falseList
  }

  ghost predicate InSomeBranch(n: Node, conds: seq<CondNode>) {
    exists i, value :: 0 <= i < |conds| && n in BranchOf(conds[i], value)
  }

  /** Under some assignment to the conditionals the policy grants something forbidden. */
  ghost predicate ViolatedUnderSome(p: Types, rule: Neverallow, te: seq<Node>, conds: seq<CondNode>) {
    exists a: seq<bool>, s: nat, t: nat, c: nat, perm: Perm ::
      |a| == |conds| && Forbids(rule, s, t, c, perm) && GrantsUnder(p, te, conds, a, s, t, c, perm)
  }

  /** Everything a table of unmarked entries with all branches grants is granted under some
      assignment, and nothing else is. */
  lemma GrantsUnderSome(p: Types, te: seq<Node>, teCond: seq<Node>, conds: seq<CondNode>, s: nat, t: nat, c: nat,
                        perm: Perm)
    requires HoldsBranches(teCond, conds)
    ensures Grants(p, te + teCond, s, t, c, perm) <==>
            exists a: seq<bool> :: |a| == |conds| && GrantsUnder(p, te, conds, a, s, t, c, perm)
  {
    var all := te + teCond;
    if Grants(p, all, s, t, c, perm) {
      var k :| 0 <= k < |all| && GrantsByRule(p, all[k], s, t, c, perm);
      if k < |te| {
        assert Grants(p, te, s, t, c, perm) by { assert te[k] == all[k]; }
        assert GrantsUnder(p, te, conds, seq(|conds|, _ => true), s, t, c, perm);
      } else {
        assert teCond[k - |te|] == all[k] && InSomeBranch(teCond[k - |te|], conds);
        var i, value :| 0 <= i < |conds| && all[k] in BranchOf(conds[i], value);
        BranchGrantsUnder(p, te, conds, i, value, all[k], s, t, c, perm);
      }
    }
    if a: seq<bool> :| |a| == |conds| && GrantsUnder(p, te, conds, a, s, t, c, perm) {
      UnderIsInTable(p, te, teCond, conds, a, s, t, c, perm);
    }
  }

  lemma BranchGrantsUnder(p: Types, te: seq<Node>, conds: seq<CondNode>, i: nat, value: bool, n: Node,
                          s: nat, t: nat, c: nat, perm: Perm)
    requires i < |conds| && n in BranchOf(conds[i], value) && GrantsByRule(p, n, s, t, c, perm)
    ensures exists a: seq<bool> :: |a| == |conds| && GrantsUnder(p, te, conds, a, s, t, c, perm)
  {
    var a := seq(|conds|, _ => value);
    var k :| 0 <= k < |BranchOf(conds[i], value)| && BranchOf(conds[i], value)[k] == n;
    assert Grants(p, if a[i] then conds[i].trueList else conds[i].falseList, s, t, c, perm);
    assert GrantsUnder(p, te, conds, a, s, t, c, perm);
  }

  lemma UnderIsInTable(p: Types, te: seq<Node>, teCond: seq<Node>, conds: seq<CondNode>, a: seq<bool>,
                       s: nat, t: nat, c: nat, perm: Perm)
    requires HoldsBranches(teCond, conds) && |a| == |conds| && GrantsUnder(p, te, conds, a, s, t, c, perm)
    ensures Grants(p, te + teCond, s, t, c, perm)
  {
    var all := te + teCond;
    if Grants(p, te, s, t, c, perm) {
      var k :| 0 <= k < |te| && GrantsByRule(p, te[k], s, t, c, perm);
      assert all[k] == te[k];
    } else {
      var i :| 0 <= i < |conds| && Grants(p, if a[i] then conds[i].trueList else conds[i].falseList, s, t, c, perm);
      var list := BranchOf(conds[i], a[i]);
      var k :| 0 <= k < |list| && GrantsByRule(p, list[k], s, t, c, perm);
      assert list[k] in teCond;
      var l :| 0 <= l < |teCond| && teCond[l] == list[k];
      assert all[|te| + l] == list[k];
    }
  }

  /** So over both tables, if no entry is marked, a rule is flagged exactly when the policy
      violates it under some assignment to the conditionals. */
  lemma FlaggedUnderSome(p: Types, rule: Neverallow, te: seq<Node>, teCond: seq<Node>, conds: seq<CondNode>)
    requires HoldsBranches(teCond, conds) && NoMarks(te + teCond) && SelfCovers(rule)
    ensures Flagged(p, rule, te + teCond) <==> ViolatedUnderSome(p, rule, te, conds)
  {
    UnmarkedCheckIsExact(p, rule, te + teCond);
    if Violated(p, rule, te + teCond) {
      var s: nat, t: nat, c: nat, perm: Perm :| Forbids(rule, s, t, c, perm) && Grants(p, te + teCond, s, t, c, perm);
      GrantsUnderSome(p, te, teCond, conds, s, t, c, perm);
    }
    if ViolatedUnderSome(p, rule, te, conds) {
      var a: seq<bool>, s: nat, t: nat, c: nat, perm: Perm :|
        |a| == |conds| && Forbids(rule, s, t, c, perm) && GrantsUnder(p, te, conds, a, s, t, c, perm);
      UnderIsInTable(p, te, teCond, conds, a, s, t, c, perm);
    }
  }

  // ---------- the report ----------

  /** One reported failure: entry, class permission node, source and target index. */
  datatype Failure = Failure(entry: nat, perm: nat, src: nat, tgt: nat)

  function SrcMatches(p: Types, rule: Neverallow, n: Node): set<nat> {
    rule.stypes * p.Behind(n.key.triple.src)
  }

  function TgtMatches(p: Types, rule: Neverallow, n: Node): set<nat> {
    if rule.self then rule.stypes * (p.Behind(n.key.triple.src) * p.Behind(n.key.triple.tgt))
    else rule.ttypes * p.Behind(n.key.triple.tgt)
  }

  /** The class permission node c of the rule is violated by entry n. */
  predicate PermViolated(rule: Neverallow, n: Node, c: int) {
    n.key.specified == {Allowed} && SharesPerm(rule.perms, c, n.key.triple.cls, n.datum.data)
  }

  /** The failure f is one that the report prints for entry k. */
  predicate EntryReported(p: Types, rule: Neverallow, k: nat, n: Node, f: Failure) {
    && f.entry == k && PermViolated(rule, n, f.perm)
    && f.src in SrcMatches(p, rule, n) && f.tgt in TgtMatches(p, rule, n)
  }

  predicate IsReported(p: Types, rule: Neverallow, rules: seq<Node>, f: Failure) {
    f.entry < |rules| && EntryReported(p, rule, f.entry, rules[f.entry], f)
  }

  /** Each failure once. */
  ghost predicate Once(log: seq<Failure>) {
    forall i, j | 0 <= i < j < |log| :: log[i] != log[j]
  }

  /** The printed failures are those of the list of entries, each once. */
  ghost predicate IsReport(p: Types, rule: Neverallow, rules: seq<Node>, log: seq<Failure>) {
    Once(log) && forall f :: f in log <==> IsReported(p, rule, rules, f)
  }

  /** The tuple is a real violation by an unmarked entry: a concrete source, target and
      permission. */
  ghost predicate IsViolation(p: Types, rule: Neverallow, rules: seq<Node>, f: Failure) {
    && f.entry < |rules| && f.perm < |rule.perms|
    && EntryViolation(p, rule, rules[f.entry], f)
  }

  ghost predicate EntryViolation(p: Types, rule: Neverallow, n: Node, f: Failure)
    requires f.perm < |rule.perms|
  {
    && n.key.specified == {Allowed}
    && f.src in rule.stypes && ((rule.self && f.src == f.tgt) || f.tgt in rule.ttypes)
    && exists perm :: perm in rule.perms[f.perm].data
         && GrantsByRule(p, n, f.src + 1, f.tgt + 1, rule.perms[f.perm].tclass, perm)
  }

  /** Passed when the nested loops stand at (c, i, j). */
  predicate Earlier(f: Failure, c: nat, i: nat, j: nat) {
    f.perm < c || (f.perm == c && (f.src < i || (f.src == i && f.tgt < j)))
  }

  ghost predicate Logged(log: seq<Failure>, p: Types, rule: Neverallow, k: nat, n: Node, c: nat, i: nat, j: nat) {
    Once(log) && forall f :: f in log <==> EntryReported(p, rule, k, n, f) && Earlier(f, c, i, j)
  }

  lemma LogStep(log: seq<Failure>, p: Types, rule: Neverallow, k: nat, n: Node, c: nat, i: nat, j: nat)
    requires Logged(log, p, rule, k, n, c, i, j)
    ensures EntryReported(p, rule, k, n, Failure(k, c, i, j)) ==>
      Logged(log + [Failure(k, c, i, j)], p, rule, k, n, c, i, j + 1)
    ensures !EntryReported(p, rule, k, n, Failure(k, c, i, j)) ==> Logged(log, p, rule, k, n, c, i, j + 1)
  {
    var now := Failure(k, c, i, j);
    assert forall f: Failure :: f.entry == k && f.perm == c && f.src == i && f.tgt == j <==> f == now;
  }

  lemma ReportedInRange(p: Types, rule: Neverallow, k: nat, n: Node, f: Failure)
    requires p.Valid() && EntryReported(p, rule, k, n, f)
    ensures f.perm < |rule.perms| && f.src < p.Count() && f.tgt < p.Count()
  {
    BehindInRange(p, n.key.triple.src, f.src);
    BehindInRange(p, n.key.triple.tgt, f.tgt);
  }

  /** The ends of the loops, and what is skipped. */
  lemma LogEnds(log: seq<Failure>, p: Types, rule: Neverallow, k: nat, n: Node, c: nat, i: nat)
    requires p.Valid()
    ensures Logged(log, p, rule, k, n, c, i, p.Count()) ==> Logged(log, p, rule, k, n, c, i + 1, 0)
    ensures Logged(log, p, rule, k, n, c, p.Count(), 0) ==> Logged(log, p, rule, k, n, c + 1, 0, 0)
    ensures !PermViolated(rule, n, c) && Logged(log, p, rule, k, n, c, 0, 0) ==> Logged(log, p, rule, k, n, c + 1, 0, 0)
    ensures i !in SrcMatches(p, rule, n) && Logged(log, p, rule, k, n, c, i, 0) ==>
      Logged(log, p, rule, k, n, c, i + 1, 0)
  {
    forall f | EntryReported(p, rule, k, n, f)
      ensures Earlier(f, c, i, p.Count()) <==> Earlier(f, c, i + 1, 0)
      ensures Earlier(f, c, p.Count(), 0) <==> Earlier(f, c + 1, 0, 0)
      ensures f.perm == c ==> PermViolated(rule, n, c)
      ensures f.src == i ==> i in SrcMatches(p, rule, n)
    {
      ReportedInRange(p, rule, k, n, f);
    }
  }

  lemma LogAll(log: seq<Failure>, p: Types, rule: Neverallow, k: nat, n: Node)
    requires p.Valid() && Logged(log, p, rule, k, n, |rule.perms|, 0, 0)
    ensures forall f :: f in log <==> EntryReported(p, rule, k, n, f)
  {
    forall f | EntryReported(p, rule, k, n, f) ensures Earlier(f, |rule.perms|, 0, 0) {
      ReportedInRange(p, rule, k, n, f);
    }
  }

  /** The failures printed for one entry. */
  method ReportAssertionAvtabMatches(p: Types, rule: Neverallow, n: Node, k: nat) returns (log: seq<Failure>)
    requires p.Valid() && RuleInRange(p, n)
    ensures Once(log) && forall f :: f in log <==> EntryReported(p, rule, k, n, f)
  {
    log := [];
    if n.key.specified != {Allowed} { return; }
    var anyPerm := MatchAnyClassPermissions(rule.perms, n.key.triple.cls, n.datum.data);
    if !anyPerm { return; }
    var sattr, tattr := p.attrTypes[n.key.triple.src - 1], p.attrTypes[n.key.triple.tgt - 1];
    var srcMatches := rule.stypes * sattr;
    if srcMatches == {} { return; }
    var tgtMatches;
    if rule.self {
      tgtMatches := rule.stypes * (sattr * tattr);
    } else {
      tgtMatches := rule.ttypes * tattr;
    }
    if tgtMatches == {} { return; }
    for c := 0 to |rule.perms|
      invariant Logged(log, p, rule, k, n, c, 0, 0)
    {
      LogEnds(log, p, rule, k, n, c, 0);
      if rule.perms[c].tclass != n.key.triple.cls || rule.perms[c].data * n.datum.data == {} { continue; }
      log := ReportPairs(p, rule, n, k, c, srcMatches, tgtMatches, log);
    }
    LogAll(log, p, rule, k, n);
  }

  /** The pairs for one permission node. */
  method ReportPairs(p: Types, rule: Neverallow, n: Node, k: nat, c: nat, srcMatches: set<nat>, tgtMatches: set<nat>,
                     log0: seq<Failure>)
    returns (log: seq<Failure>)
    requires p.Valid() && PermViolated(rule, n, c) && Logged(log0, p, rule, k, n, c, 0, 0)
    requires srcMatches == SrcMatches(p, rule, n) && tgtMatches == TgtMatches(p, rule, n)
    ensures Logged(log, p, rule, k, n, c + 1, 0, 0)
  {
    log := log0;
    for i := 0 to p.Count()
      invariant Logged(log, p, rule, k, n, c, i, 0)
    {
      LogEnds(log, p, rule, k, n, c, i);
      if i !in srcMatches { continue; }
      for j := 0 to p.Count()
        invariant Logged(log, p, rule, k, n, c, i, j)
      {
        LogStep(log, p, rule, k, n, c, i, j);
        if j !in tgtMatches { continue; }
        log := log + [Failure(k, c, i, j)];
      }
      LogEnds(log, p, rule, k, n, c, i);
    }
    LogEnds(log, p, rule, k, n, c, 0);
  }

  /** The reporting pass over both tables: the number of errors is that of the failures
      printed. */
  method ReportAssertionFailures(p: Types, te: seq<Node>, teCond: seq<Node>, rule: Neverallow)
    returns (errors: nat, log: seq<Failure>)
    requires p.Valid() && RulesInRange(p, te) && RulesInRange(p, teCond)
    ensures errors == |log| && IsReport(p, rule, te + teCond, log)
  {
    var first := ReportTable(p, te, rule, 0);
    var second := ReportTable(p, teCond, rule, |te|);
    TablesReported(p, rule, te, teCond, first, second);
    errors, log := |first| + |second|, first + second;
  }

  /** The failures are those of entries numbered from base. */
  ghost predicate IsTableReport(p: Types, rule: Neverallow, rules: seq<Node>, base: nat, log: seq<Failure>) {
    && Once(log)
    && forall f :: f in log <==>
      base <= f.entry < base + |rules| && EntryReported(p, rule, f.entry, rules[f.entry - base], f)
  }

  lemma TablesReported(p: Types, rule: Neverallow, te: seq<Node>, teCond: seq<Node>, first: seq<Failure>,
                       second: seq<Failure>)
    requires IsTableReport(p, rule, te, 0, first) && IsTableReport(p, rule, teCond, |te|, second)
    ensures IsReport(p, rule, te + teCond, first + second)
  {
    forall f ensures f in first + second <==> IsReported(p, rule, te + teCond, f) {
      assert f in first + second <==> f in first || f in second;
    }
    assert forall i | 0 <= i < |first| :: first[i].entry < |te| by {
      forall i | 0 <= i < |first| ensures first[i].entry < |te| { assert first[i] in first; }
    }
    assert forall i | 0 <= i < |second| :: |te| <= second[i].entry by {
      forall i | 0 <= i < |second| ensures |te| <= second[i].entry { assert second[i] in second; }
    }
  }

  method ReportTable(p: Types, rules: seq<Node>, rule: Neverallow, base: nat) returns (log: seq<Failure>)
    requires p.Valid() && RulesInRange(p, rules)
    ensures IsTableReport(p, rule, rules, base, log)
  {
    log := [];
    for k := 0 to |rules|
      invariant IsTableReport(p, rule, rules[..k], base, log)
    {
      var more := ReportAssertionAvtabMatches(p, rule, rules[k], base + k);
      NextEntry(p, rule, rules, k, base, log, more);
      log := log + more;
    }
    assert rules[..|rules|] == rules;
  }

  lemma NextEntry(p: Types, rule: Neverallow, rules: seq<Node>, k: nat, base: nat, log: seq<Failure>,
                  more: seq<Failure>)
    requires k < |rules| && IsTableReport(p, rule, rules[..k], base, log)
    requires Once(more) && forall f :: f in more <==> EntryReported(p, rule, base + k, rules[k], f)
    ensures IsTableReport(p, rule, rules[..k + 1], base, log + more)
  {
    forall f ensures f in log + more <==>
      base <= f.entry < base + k + 1 && EntryReported(p, rule, f.entry, rules[..k + 1][f.entry - base], f) {
      assert f in log + more <==> f in log || f in more;
    }
    assert forall i | 0 <= i < |log| :: log[i].entry < base + k by {
      forall i | 0 <= i < |log| ensures log[i].entry < base + k { assert log[i] in log; }
    }
    assert forall i | 0 <= i < |more| :: more[i].entry == base + k by {
      forall i | 0 <= i < |more| ensures more[i].entry == base + k { assert more[i] in more; }
    }
  }

  /** An entry violates a permission node of the rule for the pairs behind it that the rule
      forbids. */
  lemma ViolationPairs(p: Types, rule: Neverallow, n: Node, f: Failure)
    requires f.perm < |rule.perms|
    ensures EntryViolation(p, rule, n, f) <==>
            && PermViolated(rule, n, f.perm) && f.src in SrcMatches(p, rule, n) && f.tgt in p.Behind(n.key.triple.tgt)
            && ((rule.self && f.src == f.tgt) || f.tgt in rule.ttypes)
  {
    var cp := rule.perms[f.perm];
    if EntryViolation(p, rule, n, f) {
      var perm :| perm in cp.data && GrantsByRule(p, n, f.src + 1, f.tgt + 1, cp.tclass, perm);
      assert perm in cp.data * n.datum.data;
    }
    if PermViolated(rule, n, f.perm) {
      PlainAllow(n);
      var perm :| perm in cp.data * n.datum.data;
    }
  }

  /** A reported tuple is a violation unless the rule has self and the tuple names a type
      that is neither the source nor a listed target; a violation is reported unless the
      rule has self and the target is not one of the matching sources. */
  lemma ReportedIsViolation(p: Types, rule: Neverallow, rules: seq<Node>, f: Failure)
    ensures IsReported(p, rule, rules, f) ==>
            (IsViolation(p, rule, rules, f) <==> (rule.self ==> f.src == f.tgt || f.tgt in rule.ttypes))
    ensures IsViolation(p, rule, rules, f) ==>
            (IsReported(p, rule, rules, f) <==> (rule.self ==> f.tgt in TgtMatches(p, rule, rules[f.entry])))
  {
    if f.entry < |rules| && f.perm < |rule.perms| { ViolationPairs(p, rule, rules[f.entry], f); }
  }

  /** All the violations there are. */
  ghost function Violations(p: Types, rule: Neverallow, rules: seq<Node>): set<Failure> {
    set k, c, i, j | 0 <= k < |rules| && 0 <= c < |rule.perms| && i in SrcMatches(p, rule, rules[k])
      && j in p.Behind(rules[k].key.triple.tgt) && IsViolation(p, rule, rules, Failure(k, c, i, j)) ::
        Failure(k, c, i, j)
  }

  lemma ViolationsComplete(p: Types, rule: Neverallow, rules: seq<Node>, f: Failure)
    ensures f in Violations(p, rule, rules) <==> IsViolation(p, rule, rules, f)
  {
    if IsViolation(p, rule, rules, f) {
      ViolationPairs(p, rule, rules[f.entry], f);
      assert f == Failure(f.entry, f.perm, f.src, f.tgt);
    }
  }

  /** The report over both tables finds an error exactly when the check flags the rule. */
  lemma ReportAgreesWithCheck(p: Types, rule: Neverallow, te: seq<Node>, teCond: seq<Node>, log: seq<Failure>)
    requires p.Valid() && RulesInRange(p, te) && RulesInRange(p, teCond) && IsReport(p, rule, te + teCond, log)
    ensures |log| > 0 <==> Flagged(p, rule, te + teCond)
  {
    var rules := te + teCond;
    if Flagged(p, rule, rules) {
      var k :| 0 <= k < |rules| && EntryFlagged(p, rule, rules[k]);
      var f := FlaggedIsReported(p, rule, rules, k);
      assert f in log;
    }
    if |log| > 0 {
      assert log[0] in log;
      EntryReportedFlagged(p, rule, log[0].entry, rules[log[0].entry], log[0]);
    }
  }

  lemma FlaggedIsReported(p: Types, rule: Neverallow, rules: seq<Node>, k: nat) returns (f: Failure)
    requires k < |rules| && EntryFlagged(p, rule, rules[k])
    ensures IsReported(p, rule, rules, f)
  {
    var s: nat, t: nat, c: nat, perm: Perm :| Sought(rule, s, t, c, perm) && GrantsByRule(p, rules[k], s, t, c, perm);
    var l :| 0 <= l < |rule.perms| && rule.perms[l].tclass == c && perm in rule.perms[l].data;
    f := Failure(k, l, s - 1, t - 1);
    assert perm in rule.perms[l].data * rules[k].datum.data;
    assert PermViolated(rule, rules[k], l);
  }

  lemma EntryReportedFlagged(p: Types, rule: Neverallow, k: nat, n: Node, f: Failure)
    requires RuleInRange(p, n) && EntryReported(p, rule, k, n, f)
    ensures EntryFlagged(p, rule, n)
  {
    assert f.src in SrcMatches(p, rule, n) && f.tgt in TgtMatches(p, rule, n);
    EntryVerdict(p, rule, n);
  }

  lemma {:induction false} OnceCounts(log: seq<Failure>, s: set<Failure>)
    requires Once(log) && forall f :: f in log <==> f in s
    ensures |log| == |s|
  {
    if log == [] {
      assert s == {};
    } else {
      var n := |log| - 1;
      var last := log[n];
      assert forall f :: f in log <==> f in log[..n] || f == last;
      OnceCounts(log[..n], s - {last});
    }
  }

  lemma {:induction false} OnceAtLeast(log: seq<Failure>, s: set<Failure>)
    requires Once(log) && forall f | f in s :: f in log
    ensures |s| <= |log| && (|s| == |log| ==> forall f | f in log :: f in s)
  {
    var all := set f | f in log;
    OnceCounts(log, all);
    if s != all {
      var x :| x in all && x !in s;
      ProperSubset(s, all, x);
    }
  }

  /** For a rule without self the errors are the violations, and as many. */
  lemma ReportCountsViolations(p: Types, rule: Neverallow, rules: seq<Node>, log: seq<Failure>)
    requires !rule.self && IsReport(p, rule, rules, log)
    ensures (forall f :: f in log <==> IsViolation(p, rule, rules, f)) && |log| == |Violations(p, rule, rules)|
  {
    forall f
      ensures f in log <==> IsViolation(p, rule, rules, f)
      ensures f in log <==> f in Violations(p, rule, rules)
    {
      ReportedIsViolation(p, rule, rules, f);
      ViolationsComplete(p, rule, rules, f);
    }
    OnceCounts(log, Violations(p, rule, rules));
  }

  /** What the report gets right about an entry, for a rule with self: the targets behind
      the entry that the rule lists are matching sources, and either all the reported
      targets are listed or there is a single source. */
  predicate ReportsRight(p: Types, rule: Neverallow, n: Node) {
    var src, tgt := SrcMatches(p, rule, n), TgtMatches(p, rule, n);
    src == {} || (rule.ttypes * p.Behind(n.key.triple.tgt) <= tgt && (tgt <= rule.ttypes || |src| == 1))
  }

  ghost predicate ReportsExactly(p: Types, rule: Neverallow, rules: seq<Node>) {
    forall f :: IsReported(p, rule, rules, f) <==> IsViolation(p, rule, rules, f)
  }

  /** For a rule with self the report is exact if and only if it gets every violated entry
      right. */
  lemma SelfReportExact(p: Types, rule: Neverallow, rules: seq<Node>)
    requires rule.self
    ensures ReportsExactly(p, rule, rules) <==>
            forall k, c | 0 <= k < |rules| && PermViolated(rule, rules[k], c) :: ReportsRight(p, rule, rules[k])
  {
    if ReportsExactly(p, rule, rules) {
      forall k: nat, c: nat | k < |rules| && PermViolated(rule, rules[k], c) ensures ReportsRight(p, rule, rules[k]) {
        if !ReportsRight(p, rule, rules[k]) {
          var f := WrongTuple(p, rule, rules, k, c);
        }
      }
    }
    if forall k, c | 0 <= k < |rules| && PermViolated(rule, rules[k], c) :: ReportsRight(p, rule, rules[k]) {
      forall f ensures IsReported(p, rule, rules, f) <==> IsViolation(p, rule, rules, f) {
        RightTuple(p, rule, rules, f);
      }
    }
  }

  /** If self covers the targets, then the number of errors is right exactly when the report
      is exact. */
  lemma SelfReportCount(p: Types, rule: Neverallow, rules: seq<Node>, log: seq<Failure>)
    requires rule.self && SelfCovers(rule) && IsReport(p, rule, rules, log)
    ensures |log| >= |Violations(p, rule, rules)|
    ensures |log| == |Violations(p, rule, rules)| <==> ReportsExactly(p, rule, rules)
  {
    var actual := Violations(p, rule, rules);
    forall f ensures f in actual <==> IsViolation(p, rule, rules, f) { ViolationsComplete(p, rule, rules, f); }
    forall f | f in actual ensures f in log { CoveredIsReported(p, rule, rules, f); }
    OnceAtLeast(log, actual);
    if ReportsExactly(p, rule, rules) { OnceCounts(log, actual); }
  }

  /** An entry the report does not get right shows in some tuple. */
  lemma WrongTuple(p: Types, rule: Neverallow, rules: seq<Node>, k: nat, c: nat) returns (f: Failure)
    requires rule.self && k < |rules| && PermViolated(rule, rules[k], c) && !ReportsRight(p, rule, rules[k])
    ensures IsReported(p, rule, rules, f) <==> !IsViolation(p, rule, rules, f)
  {
    var n := rules[k];
    var src, tgt, listed := SrcMatches(p, rule, n), TgtMatches(p, rule, n), rule.ttypes * p.Behind(n.key.triple.tgt);
    if !(listed <= tgt) {
      var i, j :| i in src && j in listed && j !in tgt;
      f := Failure(k, c, i, j);
    } else {
      var j :| j in tgt && j !in rule.ttypes;
      var i := OtherElement(src, j);
      f := Failure(k, c, i, j);
    }
    ViolationPairs(p, rule, n, f);
  }

  lemma RightTuple(p: Types, rule: Neverallow, rules: seq<Node>, f: Failure)
    requires rule.self
    requires forall k, c | 0 <= k < |rules| && PermViolated(rule, rules[k], c) :: ReportsRight(p, rule, rules[k])
    ensures IsReported(p, rule, rules, f) <==> IsViolation(p, rule, rules, f)
  {
    if f.entry < |rules| && f.perm < |rule.perms| {
      var n := rules[f.entry];
      ViolationPairs(p, rule, n, f);
      if PermViolated(rule, n, f.perm) && f.src in SrcMatches(p, rule, n) {
        assert ReportsRight(p, rule, n);
        if f.tgt in TgtMatches(p, rule, n) && f.tgt !in rule.ttypes {
          OnlyElement(SrcMatches(p, rule, n), f.src, f.tgt);
        }
      }
    }
  }

  lemma CoveredIsReported(p: Types, rule: Neverallow, rules: seq<Node>, f: Failure)
    requires rule.self && SelfCovers(rule) && IsViolation(p, rule, rules, f)
    ensures IsReported(p, rule, rules, f)
  {
    ViolationPairs(p, rule, rules[f.entry], f);
    assert rule.perms[f.perm].data != {};
    assert HasPerms(rule);
  }

  lemma OnlyElement(s: set<nat>, a: nat, b: nat)
    requires |s| == 1 && a in s && b in s
    ensures a == b
  {
    assert |s - {a}| == 0;
    assert b !in s - {a};
  }

  lemma OtherElement(s: set<nat>, a: nat) returns (b: nat)
    requires |s| != 1 && a in s
    ensures b in s && b != a
  {
    assert |s - {a}| == |s| - 1;
    b :| b in s - {a};
  }

  lemma ProperSubset(s: set<Failure>, t: set<Failure>, x: Failure)
    requires s <= t && x in t && x !in s
    ensures |s| < |t|
  {
    assert |t - s| > 0;
    assert t == s + (t - s);
  }
}
