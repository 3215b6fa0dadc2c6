/** What the bounds check decides, in terms of what the policy grants. */
module Bounds {
  import opened Avtab
  import opened Policy
  import opened Hierarchy

  /** A policy as the check sees it. Conditional lists hold allow rules only; the
      unconditional table may hold rules of any single kind. */
  datatype Source = Source(p: Types, bounds: seq<nat>, te: seq<Node>, conds: seq<CondNode>) {
    ghost predicate Valid() {
      && p.Valid() && |bounds| == p.Count()
      && RulesInRange(p, te) && CondsInRange(p, conds)
      && (forall k | 0 <= k < |te| :: SingleKind(te[k].key.specified))
      && (forall i | 0 <= i < |conds| :: AllAllow(conds[i].trueList) && AllAllow(conds[i].falseList))
    }

    /** When a rule is in force: always, or in one branch of one conditional. */
    function RulesOf(w: When): seq<Node>
      requires w.Branch? ==> w.cond < |conds|
    {
      match w
      case Unconditional => te
      case Branch(i, value) => if value then conds[i].trueList else conds[i].falseList
    }
  }

  datatype When = Unconditional | Branch(cond: nat, value: bool)

  ghost predicate AllAllow(rules: seq<Node>) {
    forall k | 0 <= k < |rules| :: IsAllow(rules[k])
  }

  type Assignment = seq<bool>

  ghost predicate Active(x: Source, w: When, a: Assignment) {
    |a| == |x.conds| && (w.Branch? ==> w.cond < |a| && a[w.cond] == w.value)
  }

  ghost predicate Granted(x: Source, a: Assignment, t: Triple, perm: Perm)
    requires |a| == |x.conds|
  {
    GrantsUnder(x.p, x.te, x.conds, a, t.src, t.tgt, t.cls, perm)
  }

  /** Perm is granted under every assignment that puts the rules of w in force. */
  ghost predicate Always(x: Source, w: When, t: Triple, perm: Perm) {
    forall a | Active(x, w, a) :: Granted(x, a, t, perm)
  }

  ghost predicate AlwaysAll(x: Source, w: When, t: Triple, data: Av) {
    forall perm | perm in data :: Always(x, w, t, perm)
  }

  // ---------- the tables hold what is always granted to the parent ----------

  predicate About(parent: nat, t: Triple) {
    t.src == parent || t.tgt == parent
  }

  lemma {:induction false} GainsAreGrants(p: Types, parent: nat, rules: seq<Node>, t: Triple, perm: Perm)
    requires AllAllow(rules)
    ensures perm in Gains(p, parent, rules, t) <==> About(parent, t) && Grants(p, rules, t.src, t.tgt, t.cls, perm)
  {
    if rules != [] {
      var n := |rules| - 1;
      GainsAreGrants(p, parent, rules[..n], t, perm);
      GrantsSplit(p, rules, t, perm);
    }
  }

  lemma GrantsSplit(p: Types, rules: seq<Node>, t: Triple, perm: Perm)
    requires rules != []
    ensures var n := |rules| - 1;
            Grants(p, rules, t.src, t.tgt, t.cls, perm) <==>
            Grants(p, rules[..n], t.src, t.tgt, t.cls, perm) || GrantsByRule(p, rules[n], t.src, t.tgt, t.cls, perm)
  {
    var n := |rules| - 1;
    if k :| 0 <= k < n && GrantsByRule(p, rules[..n][k], t.src, t.tgt, t.cls, perm) {
      assert GrantsByRule(p, rules[k], t.src, t.tgt, t.cls, perm);
    }
    if k :| 0 <= k < |rules| && GrantsByRule(p, rules[k], t.src, t.tgt, t.cls, perm) {
      if k < n { assert GrantsByRule(p, rules[..n][k], t.src, t.tgt, t.cls, perm); }
    }
  }

  lemma AllowedIsAllow(n: Node)
    requires SingleKind(n.key.specified)
    ensures Allowed in n.key.specified <==> IsAllow(n)
  {
    assert n.key.specified - {Enabled} == n.key.specified;
  }

  lemma {:induction false} TeGainsAreGrants(p: Types, parent: nat, te: seq<Node>, t: Triple, perm: Perm)
    requires forall k | 0 <= k < |te| :: SingleKind(te[k].key.specified)
    ensures perm in TeGains(p, parent, te, t) <==> About(parent, t) && Grants(p, te, t.src, t.tgt, t.cls, perm)
  {
    if te != [] {
      var n := |te| - 1;
      TeGainsAreGrants(p, parent, te[..n], t, perm);
      GrantsSplit(p, te, t, perm);
      AllowedIsAllow(te[n]);
    }
  }

  lemma {:induction false} CommonGainsAre(p: Types, parent: nat, conds: seq<CondNode>, t: Triple, perm: Perm)
    ensures perm in CommonGains(p, parent, conds, t) <==>
            exists i :: 0 <= i < |conds| && perm in BothBranches(p, parent, conds[i], t)
  {
    if conds != [] { CommonGainsAre(p, parent, conds[..|conds| - 1], t, perm); }
  }

  /** The coverage the check uses for the rules of w. */
  ghost function CoverageOf(x: Source, parent: nat, w: When): Coverage
    requires w.Branch? ==> w.cond < |x.conds|
  {
    match w
    case Unconditional => Joint(GlobalCoverage(x.p, x.te, x.conds, parent), t => {})
    case Branch(_, _) => BranchCoverage(x.p, x.te, x.conds, parent, x.RulesOf(w))
  }

  /** A branch of conditional i that does not give perm, if there is one. */
  ghost function Withholding(x: Source, parent: nat, t: Triple, perm: Perm, i: nat): bool
    requires i < |x.conds|
  {
    perm !in Gains(x.p, parent, x.conds[i].trueList, t)
  }

  /** The tables of the check are exact: they hold what is granted to the parent under
      every assignment in which the rules of w are in force. */
  lemma CoverageIsAlways(x: Source, parent: nat, w: When, t: Triple, perm: Perm)
    requires x.Valid() && About(parent, t) && (w.Branch? ==> w.cond < |x.conds|)
    ensures perm in CoverageOf(x, parent, w)(t) <==> Always(x, w, t, perm)
  {
    TeGainsAreGrants(x.p, parent, x.te, t, perm);
    CommonGainsAre(x.p, parent, x.conds, t, perm);
    forall i, value | 0 <= i < |x.conds|
      ensures perm in Gains(x.p, parent, x.RulesOf(Branch(i, value)), t) <==>
              Grants(x.p, x.RulesOf(Branch(i, value)), t.src, t.tgt, t.cls, perm)
    {
      GainsAreGrants(x.p, parent, x.RulesOf(Branch(i, value)), t, perm);
    }
    if perm in CoverageOf(x, parent, w)(t) {
      forall a | Active(x, w, a)
        ensures Granted(x, a, t, perm)
      {
        CoveredIsGranted(x, parent, w, t, perm, a);
      }
    } else {
      NotCoveredSomewhere(x, parent, w, t, perm);
    }
  }

  ghost predicate GainsMatch(x: Source, parent: nat, t: Triple, perm: Perm) {
    forall i, value | 0 <= i < |x.conds| ::
      perm in Gains(x.p, parent, x.RulesOf(Branch(i, value)), t) <==>
      Grants(x.p, x.RulesOf(Branch(i, value)), t.src, t.tgt, t.cls, perm)
  }

  lemma CoveredIsGranted(x: Source, parent: nat, w: When, t: Triple, perm: Perm, a: Assignment)
    requires Active(x, w, a) && GainsMatch(x, parent, t, perm)
    requires perm in TeGains(x.p, parent, x.te, t) <==> Grants(x.p, x.te, t.src, t.tgt, t.cls, perm)
    requires perm in CommonGains(x.p, parent, x.conds, t) <==>
             exists i :: 0 <= i < |x.conds| && perm in BothBranches(x.p, parent, x.conds[i], t)
    requires perm in CoverageOf(x, parent, w)(t)
    ensures Granted(x, a, t, perm)
  {
    if perm in CommonGains(x.p, parent, x.conds, t) {
      var i :| 0 <= i < |x.conds| && perm in BothBranches(x.p, parent, x.conds[i], t);
      assert perm in Gains(x.p, parent, x.RulesOf(Branch(i, a[i])), t);
    } else if perm !in TeGains(x.p, parent, x.te, t) {
      assert perm in Gains(x.p, parent, x.RulesOf(w), t);
      assert w == Branch(w.cond, a[w.cond]);
    }
  }

  lemma NotCoveredSomewhere(x: Source, parent: nat, w: When, t: Triple, perm: Perm)
    requires (w.Branch? ==> w.cond < |x.conds|) && GainsMatch(x, parent, t, perm)
    requires perm in TeGains(x.p, parent, x.te, t) <==> Grants(x.p, x.te, t.src, t.tgt, t.cls, perm)
    requires perm in CommonGains(x.p, parent, x.conds, t) <==>
             exists i :: 0 <= i < |x.conds| && perm in BothBranches(x.p, parent, x.conds[i], t)
    requires perm !in CoverageOf(x, parent, w)(t)
    ensures !Always(x, w, t, perm)
  {
    // Every conditional takes a branch that withholds the permission.
    var a := seq(|x.conds|, i requires 0 <= i < |x.conds| =>
      if w.Branch? && w.cond == i then w.value else Withholding(x, parent, t, perm, i));
    assert Active(x, w, a);
    forall i | 0 <= i < |x.conds|
      ensures perm !in Gains(x.p, parent, x.RulesOf(Branch(i, a[i])), t)
    {
      assert perm !in BothBranches(x.p, parent, x.conds[i], t);
      if w.Branch? && w.cond == i {
        assert perm !in Gains(x.p, parent, x.RulesOf(w), t);
      }
    }
    assert !Granted(x, a, t, perm);
  }

  // ---------- the verdict ----------

  /** The parent always has all of data on the type, or always has all of it on the
      type's bound. */
  ghost predicate Within(x: Source, w: When, onType: Triple, onBound: Triple, bound: nat, data: Av) {
    AlwaysAll(x, w, onType, data) || (bound != 0 && AlwaysAll(x, w, onBound, data))
  }

  /** Rule n of the child with type index i as target: the parent is always within. */
  ghost predicate SourceBounded(x: Source, w: When, child: nat, parent: nat, n: Node, i: nat)
    requires i < |x.bounds|
  {
    var cls := n.key.triple.cls;
    child - 1 in x.p.Behind(n.key.triple.src) && i in x.p.Behind(n.key.triple.tgt) ==>
      Within(x, w, Triple(parent, i + 1, cls), Triple(parent, x.bounds[i], cls), x.bounds[i], n.datum.data)
  }

  /** The same with type index i as source. */
  ghost predicate TargetBounded(x: Source, w: When, child: nat, parent: nat, n: Node, i: nat)
    requires i < |x.bounds|
  {
    var cls := n.key.triple.cls;
    child - 1 in x.p.Behind(n.key.triple.tgt) && i in x.p.Behind(n.key.triple.src) && i + 1 != child ==>
      Within(x, w, Triple(i + 1, parent, cls), Triple(x.bounds[i], parent, cls), x.bounds[i], n.datum.data)
  }

  ghost predicate RuleBounded(x: Source, w: When, child: nat, parent: nat, n: Node) {
    && (forall i | 0 <= i < |x.bounds| :: SourceBounded(x, w, child, parent, n, i))
    && (forall i | 0 <= i < |x.bounds| :: TargetBounded(x, w, child, parent, n, i))
  }

  lemma CoverageIsAlwaysAll(x: Source, parent: nat, w: When, t: Triple, data: Av)
    requires x.Valid() && About(parent, t) && (w.Branch? ==> w.cond < |x.conds|)
    ensures data - CoverageOf(x, parent, w)(t) == {} <==> AlwaysAll(x, w, t, data)
  {
    var have := CoverageOf(x, parent, w)(t);
    forall perm
      ensures perm in have <==> Always(x, w, t, perm)
    {
      CoverageIsAlways(x, parent, w, t, perm);
    }
    if data - have == {} {
      forall perm | perm in data ensures perm in have { assert perm !in data - have; }
    }
  }

  lemma LeftoverIsWithin(x: Source, parent: nat, w: When, onType: Triple, onBound: Triple, bound: nat, data: Av)
    requires x.Valid() && About(parent, onType) && About(parent, onBound) && (w.Branch? ==> w.cond < |x.conds|)
    ensures Leftover(CoverageOf(x, parent, w), onType, onBound, bound, data) == {} <==>
            Within(x, w, onType, onBound, bound, data)
  {
    CoverageIsAlwaysAll(x, parent, w, onType, data);
    CoverageIsAlwaysAll(x, parent, w, onBound, data);
  }

  lemma {:induction false} NoSourceRecords(p: Types, bounds: seq<nat>, have: Coverage, child: nat, parent: nat, n: Node,
                                           k: nat)
    requires k <= |bounds|
    ensures SourceBads(p, bounds, have, child, parent, n, k) == [] <==>
            forall i | 0 <= i < k :: SourceRecord(p, bounds, have, child, parent, n, i) == []
  {
    if k > 0 { NoSourceRecords(p, bounds, have, child, parent, n, k - 1); }
  }

  lemma {:induction false} NoTargetRecords(p: Types, bounds: seq<nat>, have: Coverage, child: nat, parent: nat, n: Node,
                                           k: nat)
    requires k <= |bounds|
    ensures TargetBads(p, bounds, have, child, parent, n, k) == [] <==>
            forall i | 0 <= i < k :: TargetRecord(p, bounds, have, child, parent, n, i) == []
  {
    if k > 0 { NoTargetRecords(p, bounds, have, child, parent, n, k - 1); }
  }

  lemma SourceVerdict(x: Source, w: When, child: nat, parent: nat, n: Node, i: nat)
    requires x.Valid() && (w.Branch? ==> w.cond < |x.conds|) && i < |x.bounds|
    ensures SourceRecord(x.p, x.bounds, CoverageOf(x, parent, w), child, parent, n, i) == [] <==>
            SourceBounded(x, w, child, parent, n, i)
  {
    var cls := n.key.triple.cls;
    LeftoverIsWithin(x, parent, w, Triple(parent, i + 1, cls), Triple(parent, x.bounds[i], cls), x.bounds[i],
                     n.datum.data);
  }

  lemma TargetVerdict(x: Source, w: When, child: nat, parent: nat, n: Node, i: nat)
    requires x.Valid() && (w.Branch? ==> w.cond < |x.conds|) && i < |x.bounds|
    ensures TargetRecord(x.p, x.bounds, CoverageOf(x, parent, w), child, parent, n, i) == [] <==>
            TargetBounded(x, w, child, parent, n, i)
  {
    var cls := n.key.triple.cls;
    LeftoverIsWithin(x, parent, w, Triple(i + 1, parent, cls), Triple(x.bounds[i], parent, cls), x.bounds[i],
                     n.datum.data);
  }

  lemma SourcesVerdict(x: Source, w: When, child: nat, parent: nat, n: Node)
    requires x.Valid() && (w.Branch? ==> w.cond < |x.conds|)
    ensures SourceBads(x.p, x.bounds, CoverageOf(x, parent, w), child, parent, n, |x.bounds|) == [] <==>
            forall i | 0 <= i < |x.bounds| :: SourceBounded(x, w, child, parent, n, i)
  {
    NoSourceRecords(x.p, x.bounds, CoverageOf(x, parent, w), child, parent, n, |x.bounds|);
    forall i | 0 <= i < |x.bounds| { SourceVerdict(x, w, child, parent, n, i); }
  }

  lemma TargetsVerdict(x: Source, w: When, child: nat, parent: nat, n: Node)
    requires x.Valid() && (w.Branch? ==> w.cond < |x.conds|)
    ensures TargetBads(x.p, x.bounds, CoverageOf(x, parent, w), child, parent, n, |x.bounds|) == [] <==>
            forall i | 0 <= i < |x.bounds| :: TargetBounded(x, w, child, parent, n, i)
  {
    NoTargetRecords(x.p, x.bounds, CoverageOf(x, parent, w), child, parent, n, |x.bounds|);
    forall i | 0 <= i < |x.bounds| { TargetVerdict(x, w, child, parent, n, i); }
  }

  lemma RuleVerdict(x: Source, w: When, child: nat, parent: nat, n: Node)
    requires x.Valid() && (w.Branch? ==> w.cond < |x.conds|)
    ensures RuleBads(x.p, x.bounds, CoverageOf(x, parent, w), child, parent, n) == [] <==>
            RuleBounded(x, w, child, parent, n)
  {
    SourcesVerdict(x, w, child, parent, n);
    TargetsVerdict(x, w, child, parent, n);
  }

  /** Every allow rule of the list is bounded. */
  ghost predicate ListBounded(x: Source, w: When, child: nat, parent: nat, rules: seq<Node>) {
    forall k | 0 <= k < |rules| && IsAllow(rules[k]) :: RuleBounded(x, w, child, parent, rules[k])
  }

  lemma ListBoundedSplit(x: Source, w: When, child: nat, parent: nat, rules: seq<Node>)
    requires rules != []
    ensures var n := |rules| - 1;
            ListBounded(x, w, child, parent, rules) <==>
            ListBounded(x, w, child, parent, rules[..n]) &&
              (IsAllow(rules[n]) ==> RuleBounded(x, w, child, parent, rules[n]))
  {
    var n := |rules| - 1;
    assert forall k | 0 <= k < n :: rules[..n][k] == rules[k];
  }

  lemma ListBadsSplit(p: Types, bounds: seq<nat>, have: Coverage, child: nat, parent: nat, rules: seq<Node>)
    requires rules != []
    ensures var n := |rules| - 1;
            ListBads(p, bounds, have, child, parent, rules) == [] <==>
            && ListBads(p, bounds, have, child, parent, rules[..n]) == []
            && (Allowed in rules[n].key.specified ==> RuleBads(p, bounds, have, child, parent, rules[n]) == [])
  {
  }

  lemma {:induction false} ListVerdict(x: Source, w: When, child: nat, parent: nat, rules: seq<Node>)
    requires x.Valid() && (w.Branch? ==> w.cond < |x.conds|)
    requires forall k | 0 <= k < |rules| :: Allowed in rules[k].key.specified <==> IsAllow(rules[k])
    ensures ListBads(x.p, x.bounds, CoverageOf(x, parent, w), child, parent, rules) == [] <==>
            ListBounded(x, w, child, parent, rules)
  {
    if rules != [] {
      var n := |rules| - 1;
      ListVerdict(x, w, child, parent, rules[..n]);
      RuleVerdict(x, w, child, parent, rules[n]);
      ListBoundedSplit(x, w, child, parent, rules);
      ListBadsSplit(x.p, x.bounds, CoverageOf(x, parent, w), child, parent, rules);
    }
  }

  lemma WhenVerdict(x: Source, w: When, child: nat, parent: nat)
    requires x.Valid() && (w.Branch? ==> w.cond < |x.conds|)
    ensures ListBads(x.p, x.bounds, CoverageOf(x, parent, w), child, parent, x.RulesOf(w)) == [] <==>
            ListBounded(x, w, child, parent, x.RulesOf(w))
  {
    var rules := x.RulesOf(w);
    forall k | 0 <= k < |rules|
      ensures Allowed in rules[k].key.specified <==> IsAllow(rules[k])
    {
      if w.Unconditional? { AllowedIsAllow(rules[k]); }
      if IsAllow(rules[k]) { assert Allowed in rules[k].key.specified - {Enabled}; }
    }
    ListVerdict(x, w, child, parent, rules);
  }

  /** Both branches of conditional i are bounded. */
  ghost predicate CondBounded(x: Source, child: nat, parent: nat, i: nat)
    requires i < |x.conds|
  {
    && ListBounded(x, Branch(i, true), child, parent, x.conds[i].trueList)
    && ListBounded(x, Branch(i, false), child, parent, x.conds[i].falseList)
  }

  lemma CondVerdict(x: Source, child: nat, parent: nat, i: nat)
    requires x.Valid() && i < |x.conds|
    ensures CondBads(x.p, x.bounds, x.te, x.conds, child, parent, i) == [] <==> CondBounded(x, child, parent, i)
  {
    WhenVerdict(x, Branch(i, true), child, parent);
    WhenVerdict(x, Branch(i, false), child, parent);
  }

  lemma CondsVerdict(x: Source, child: nat, parent: nat)
    requires x.Valid()
    ensures CondBadsFrom(x.p, x.bounds, x.te, x.conds, child, parent, 0) == [] <==>
            forall i | 0 <= i < |x.conds| :: CondBounded(x, child, parent, i)
  {
    var f := (i: nat) => CondBads(x.p, x.bounds, x.te, x.conds, child, parent, i);
    assert CondBadsFrom(x.p, x.bounds, x.te, x.conds, child, parent, 0) == Collect(f, 0, |x.conds|);
    CollectsNothing(f, 0, |x.conds|);
    forall i | 0 <= i < |x.conds|
      ensures f(i) == [] <==> CondBounded(x, child, parent, i)
    {
      CondVerdict(x, child, parent, i);
    }
  }

  /** Every allow rule of the child is bounded. */
  ghost predicate Bounded(x: Source, child: nat, parent: nat) {
    && ListBounded(x, Unconditional, child, parent, x.te)
    && (forall i | 0 <= i < |x.conds| :: CondBounded(x, child, parent, i))
  }

  /** The check is exact, rule by rule: it records nothing exactly when, for every allow
      rule of the child and every type on the rule's other side, the parent has all the
      rule's permissions on that type, or all of them on the type's bound, under every
      assignment that puts the rule in force. */
  lemma BoundsExact(x: Source, child: nat, parent: nat)
    requires x.Valid()
    ensures AllBads(x.p, x.bounds, x.te, x.conds, child, parent) == [] <==> Bounded(x, child, parent)
  {
    WhenVerdict(x, Unconditional, child, parent);
    CondsVerdict(x, child, parent);
  }

  /** A rule in force under the assignment grants perm to the child. */
  lemma GrantHasRule(x: Source, a: Assignment, t: Triple, perm: Perm) returns (w: When, k: nat)
    requires |a| == |x.conds| && Granted(x, a, t, perm)
    ensures Active(x, w, a) && k < |x.RulesOf(w)| && GrantsByRule(x.p, x.RulesOf(w)[k], t.src, t.tgt, t.cls, perm)
  {
    if Grants(x.p, x.te, t.src, t.tgt, t.cls, perm) {
      w := Unconditional;
    } else {
      var i :| 0 <= i < |x.conds| &&
               Grants(x.p, if a[i] then x.conds[i].trueList else x.conds[i].falseList, t.src, t.tgt, t.cls, perm);
      w := Branch(i, a[i]);
    }
    var rules := x.RulesOf(w);
    k :| 0 <= k < |rules| && GrantsByRule(x.p, rules[k], t.src, t.tgt, t.cls, perm);
  }

  lemma GrantingRuleIsBounded(x: Source, w: When, child: nat, parent: nat, k: nat)
    requires Bounded(x, child, parent) && (w.Branch? ==> w.cond < |x.conds|)
    requires k < |x.RulesOf(w)| && IsAllow(x.RulesOf(w)[k])
    ensures RuleBounded(x, w, child, parent, x.RulesOf(w)[k])
  {
    assert w.Branch? ==> CondBounded(x, child, parent, w.cond);
    assert ListBounded(x, w, child, parent, x.RulesOf(w));
  }

  lemma BoundedAt(x: Source, w: When, child: nat, parent: nat, k: nat, i: nat)
    requires Bounded(x, child, parent) && (w.Branch? ==> w.cond < |x.conds|) && i < |x.bounds|
    requires k < |x.RulesOf(w)| && IsAllow(x.RulesOf(w)[k])
    ensures SourceBounded(x, w, child, parent, x.RulesOf(w)[k], i)
    ensures TargetBounded(x, w, child, parent, x.RulesOf(w)[k], i)
  {
    GrantingRuleIsBounded(x, w, child, parent, k);
  }

  lemma InBounds(x: Source, v: nat, i: nat)
    requires x.Valid() && i in x.p.Behind(v)
    ensures i < |x.bounds| && x.p.InRange(i + 1)
  {
    BehindInRange(x.p, v, i);
  }

  lemma SourceBoundedGrants(x: Source, w: When, a: Assignment, child: nat, parent: nat, n: Node, i: nat, perm: Perm)
    requires Active(x, w, a) && i < |x.bounds| && SourceBounded(x, w, child, parent, n, i)
    requires GrantsByRule(x.p, n, child, i + 1, n.key.triple.cls, perm)
    ensures var cls := n.key.triple.cls;
            || Granted(x, a, Triple(parent, i + 1, cls), perm)
            || (x.bounds[i] != 0 && Granted(x, a, Triple(parent, x.bounds[i], cls), perm))
  {
    var cls := n.key.triple.cls;
    WithinGrants(x, w, a, Triple(parent, i + 1, cls), Triple(parent, x.bounds[i], cls), x.bounds[i], n.datum.data,
                 perm);
  }

  lemma TargetBoundedGrants(x: Source, w: When, a: Assignment, child: nat, parent: nat, n: Node, i: nat, perm: Perm)
    requires Active(x, w, a) && i < |x.bounds| && TargetBounded(x, w, child, parent, n, i) && i + 1 != child
    requires GrantsByRule(x.p, n, i + 1, child, n.key.triple.cls, perm)
    ensures var cls := n.key.triple.cls;
            || Granted(x, a, Triple(i + 1, parent, cls), perm)
            || (x.bounds[i] != 0 && Granted(x, a, Triple(x.bounds[i], parent, cls), perm))
  {
    var cls := n.key.triple.cls;
    WithinGrants(x, w, a, Triple(i + 1, parent, cls), Triple(x.bounds[i], parent, cls), x.bounds[i], n.datum.data,
                 perm);
  }

  lemma BoundedAsSource(x: Source, w: When, a: Assignment, child: nat, parent: nat, k: nat, other: nat, perm: Perm)
    requires x.Valid() && Active(x, w, a) && Bounded(x, child, parent)
    requires k < |x.RulesOf(w)| &&
      GrantsByRule(x.p, x.RulesOf(w)[k], child, other, x.RulesOf(w)[k].key.triple.cls, perm)
    ensures x.p.InRange(other)
    ensures var cls := x.RulesOf(w)[k].key.triple.cls;
            || Granted(x, a, Triple(parent, other, cls), perm)
            || (x.bounds[other - 1] != 0 && Granted(x, a, Triple(parent, x.bounds[other - 1], cls), perm))
  {
    var n, i := x.RulesOf(w)[k], other - 1;
    InBounds(x, n.key.triple.tgt, i);
    BoundedAt(x, w, child, parent, k, i);
    SourceBoundedGrants(x, w, a, child, parent, n, i, perm);
  }

  lemma BoundedAsTarget(x: Source, w: When, a: Assignment, child: nat, parent: nat, k: nat, other: nat, perm: Perm)
    requires x.Valid() && Active(x, w, a) && other != child && Bounded(x, child, parent)
    requires k < |x.RulesOf(w)| &&
      GrantsByRule(x.p, x.RulesOf(w)[k], other, child, x.RulesOf(w)[k].key.triple.cls, perm)
    ensures x.p.InRange(other)
    ensures var cls := x.RulesOf(w)[k].key.triple.cls;
            || Granted(x, a, Triple(other, parent, cls), perm)
            || (x.bounds[other - 1] != 0 && Granted(x, a, Triple(x.bounds[other - 1], parent, cls), perm))
  {
    var n, i := x.RulesOf(w)[k], other - 1;
    InBounds(x, n.key.triple.src, i);
    BoundedAt(x, w, child, parent, k, i);
    TargetBoundedGrants(x, w, a, child, parent, n, i, perm);
  }

  /** Bounds soundness: when nothing is recorded, then under every assignment the parent
      may do to a type, or to that type's bound, whatever the child may do to it. */
  lemma BoundsSoundAsSource(x: Source, child: nat, parent: nat, a: Assignment, other: nat, cls: nat, perm: Perm)
    requires x.Valid() && |a| == |x.conds|
    requires AllBads(x.p, x.bounds, x.te, x.conds, child, parent) == []
    requires Granted(x, a, Triple(child, other, cls), perm)
    ensures x.p.InRange(other)
    ensures || Granted(x, a, Triple(parent, other, cls), perm)
            || (x.bounds[other - 1] != 0 && Granted(x, a, Triple(parent, x.bounds[other - 1], cls), perm))
  {
    BoundsExact(x, child, parent);
    var w, k := GrantHasRule(x, a, Triple(child, other, cls), perm);
    BoundedAsSource(x, w, a, child, parent, k, other, perm);
  }

  /** The same with the child as target; what a child may do to itself is judged with
      the child as source. */
  lemma BoundsSoundAsTarget(x: Source, child: nat, parent: nat, a: Assignment, other: nat, cls: nat, perm: Perm)
    requires x.Valid() && |a| == |x.conds| && other != child
    requires AllBads(x.p, x.bounds, x.te, x.conds, child, parent) == []
    requires Granted(x, a, Triple(other, child, cls), perm)
    ensures x.p.InRange(other)
    ensures || Granted(x, a, Triple(other, parent, cls), perm)
            || (x.bounds[other - 1] != 0 && Granted(x, a, Triple(x.bounds[other - 1], parent, cls), perm))
  {
    BoundsExact(x, child, parent);
    var w, k := GrantHasRule(x, a, Triple(other, child, cls), perm);
    BoundedAsTarget(x, w, a, child, parent, k, other, perm);
  }

  lemma WithinGrants(x: Source, w: When, a: Assignment, onType: Triple, onBound: Triple, bound: nat, data: Av,
                     perm: Perm)
    requires Active(x, w, a) && Within(x, w, onType, onBound, bound, data) && perm in data
    ensures Granted(x, a, onType, perm) || (bound != 0 && Granted(x, a, onBound, perm))
  {
    if AlwaysAll(x, w, onType, data) {
      assert Always(x, w, onType, perm);
    } else {
      assert Always(x, w, onBound, perm);
    }
  }

  // ---------- where the check is not complete, and where it needs allow lists ----------

  /** Four individual types: 1 is the child, 2 its parent, 3 some type bounded by 4. */
  function Sample(te: seq<Node>, conds: seq<CondNode>): Source {
    Source(Types([true, true, true, true], [{0}, {1}, {2}, {3}]), [2, 0, 4, 0], te, conds)
  }

  function Rule(kind: Flag, src: nat, tgt: nat, data: Av): Node {
    Node(Key(Triple(src, tgt, 1), {kind}), Datum(data, XPerms(0, 0, {})))
  }

  lemma SampleGrant(te: seq<Node>, t: Triple, perm: Perm)
    requires 1 <= t.src <= 4 && 1 <= t.tgt <= 4
    requires forall k | 0 <= k < |te| :: 1 <= te[k].key.triple.src <= 4 && 1 <= te[k].key.triple.tgt <= 4
    ensures Granted(Sample(te, []), [], t, perm) <==>
            exists k :: 0 <= k < |te| && IsAllow(te[k]) && te[k].key.triple == t && perm in te[k].datum.data
  {
    var p := Sample(te, []).p;
    forall k | 0 <= k < |te|
      ensures GrantsByRule(p, te[k], t.src, t.tgt, t.cls, perm) <==>
              IsAllow(te[k]) && te[k].key.triple == t && perm in te[k].datum.data
    {
      var u := te[k].key.triple;
      assert p.Behind(u.src) == {u.src - 1} && p.Behind(u.tgt) == {u.tgt - 1};
    }
  }

  const SPLIT: seq<Node> := [Rule(Allowed, 1, 3, {0, 1}), Rule(Allowed, 2, 3, {0}), Rule(Allowed, 2, 4, {1})]

  lemma SplitGrants(perm: Perm)
    ensures Granted(Sample(SPLIT, []), [], Triple(1, 3, 1), perm) <==> perm == 0 || perm == 1
    ensures Granted(Sample(SPLIT, []), [], Triple(2, 3, 1), perm) <==> perm == 0
    ensures Granted(Sample(SPLIT, []), [], Triple(2, 4, 1), perm) <==> perm == 1
  {
    assert {Allowed} - {Enabled} == {Allowed};
    SampleGrant(SPLIT, Triple(1, 3, 1), perm);
    SampleGrant(SPLIT, Triple(2, 3, 1), perm);
    SampleGrant(SPLIT, Triple(2, 4, 1), perm);
    assert SPLIT[0].key.triple == Triple(1, 3, 1) && IsAllow(SPLIT[0]);
    assert SPLIT[1].key.triple == Triple(2, 3, 1) && IsAllow(SPLIT[1]);
    assert SPLIT[2].key.triple == Triple(2, 4, 1) && IsAllow(SPLIT[2]);
  }

  /** The check compares permission sets as wholes: a child whose two permissions the
      parent has one on the type and one on its bound is recorded as bad, although each
      permission taken alone is bounded. */
  lemma SplitGrantIsRecorded()
    ensures var x := Sample(SPLIT, []);
            && x.Valid()
            && (forall perm | Granted(x, [], Triple(1, 3, 1), perm) ::
                  Granted(x, [], Triple(2, 3, 1), perm) || Granted(x, [], Triple(2, 4, 1), perm))
            && AllBads(x.p, x.bounds, x.te, x.conds, 1, 2) != []
  {
    var x := Sample(SPLIT, []);
    forall perm | Granted(x, [], Triple(1, 3, 1), perm)
      ensures Granted(x, [], Triple(2, 3, 1), perm) || Granted(x, [], Triple(2, 4, 1), perm)
    {
      SplitGrants(perm);
    }
    SplitIsValid();
    if AllBads(x.p, x.bounds, x.te, x.conds, 1, 2) == [] {
      SplitWouldBeWithin();
      SplitIsNotWithin();
    }
  }

  lemma SplitIsValid()
    ensures Sample(SPLIT, []).Valid()
    ensures IsAllow(SPLIT[0])
  {
    assert {Allowed} - {Enabled} == {Allowed};
    assert forall k | 0 <= k < 3 :: SPLIT[k].key.specified == {Allowed};
  }

  lemma SplitWouldBeWithin()
    requires var x := Sample(SPLIT, []); AllBads(x.p, x.bounds, x.te, x.conds, 1, 2) == []
    ensures Within(Sample(SPLIT, []), Unconditional, Triple(2, 3, 1), Triple(2, 4, 1), 4, {0, 1})
  {
    var x := Sample(SPLIT, []);
    SplitIsValid();
    assert x.RulesOf(Unconditional) == SPLIT;
    BoundsExact(x, 1, 2);
    GrantingRuleIsBounded(x, Unconditional, 1, 2, 0);
    assert SourceBounded(x, Unconditional, 1, 2, SPLIT[0], 2);
  }

  lemma SplitIsNotWithin()
    ensures !Within(Sample(SPLIT, []), Unconditional, Triple(2, 3, 1), Triple(2, 4, 1), 4, {0, 1})
  {
    var x := Sample(SPLIT, []);
    SplitGrants(0);
    SplitGrants(1);
    assert Active(x, Unconditional, []);
    assert !Always(x, Unconditional, Triple(2, 3, 1), 1) && !Always(x, Unconditional, Triple(2, 4, 1), 0);
  }

  /** The expansion of a conditional list does not look at specifiers, so an auditallow
      rule of the parent counts as if it allowed: hence the lists of allow rules only. */
  lemma AuditRuleIsCounted()
    ensures var p, n := Sample([], []).p, Rule(AuditAllow, 2, 3, {0});
            0 in Gains(p, 2, [n], Triple(2, 3, 1)) && !Grants(p, [n], 2, 3, 1, 0)
  {
    var n := Rule(AuditAllow, 2, 3, {0});
    assert [n][..0] == [];
    assert AuditAllow in n.key.specified - {Enabled};
  }
}
