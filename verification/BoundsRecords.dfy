/** What the records of the bounds check name. */
module BoundsRecords {
  import opened Avtab
  import opened Policy
  import opened Hierarchy
  import opened Bounds

  /** What is missing of the rule's permissions: some of them the parent does not always have
      on the type; those recorded are the ones it does not always have on the bound of the
      type or, without a bound, on the type itself. */
  ghost predicate Missing(x: Source, w: When, onType: Triple, onBound: Triple, bound: nat, data: Av, d: Av) {
    && d != {} && (exists perm :: perm in data && !Always(x, w, onType, perm))
    && forall perm :: perm in d <==> perm in data && !Always(x, w, if bound != 0 then onBound else onType, perm)
  }

  /** The rule grants the child data on type i + 1, and the parent lacks some. */
  ghost predicate NamesSource(x: Source, w: When, child: nat, parent: nat, n: Node, i: nat, b: Bad) {
    && i < |x.bounds| && b.src == child && b.tgt == i + 1 && b.cls == n.key.triple.cls
    && 1 <= child && Covers(x.p, n, child, i + 1, b.cls)
    && Missing(x, w, Triple(parent, i + 1, b.cls), Triple(parent, x.bounds[i], b.cls), x.bounds[i], n.datum.data,
               b.data)
  }

  /** The rule grants type i + 1 data on the child, and lacks some on the parent. */
  ghost predicate NamesTarget(x: Source, w: When, child: nat, parent: nat, n: Node, i: nat, b: Bad) {
    && i < |x.bounds| && b.src == i + 1 && b.tgt == child && b.cls == n.key.triple.cls && i + 1 != child
    && 1 <= child && Covers(x.p, n, i + 1, child, b.cls)
    && Missing(x, w, Triple(i + 1, parent, b.cls), Triple(x.bounds[i], parent, b.cls), x.bounds[i], n.datum.data,
               b.data)
  }

  /** The record names something of the rule. */
  ghost predicate Names(x: Source, w: When, child: nat, parent: nat, n: Node, b: Bad) {
    (exists i: nat :: NamesSource(x, w, child, parent, n, i, b)) ||
    (exists i: nat :: NamesTarget(x, w, child, parent, n, i, b))
  }

  ghost predicate InForce(x: Source, w: When) {
    w.Branch? ==> w.cond < |x.conds|
  }

  // ---------- one record ----------

  /** The leftover in terms of two sets: what is had on the type and on its bound. */
  lemma PlainLeftover(data: Av, onType: Av, onBound: Av, bound: nat, d: Av)
    ensures var left := if data - onType == {} then {} else if bound != 0 then data - onBound else data - onType;
            d != {} && d == left <==>
            && d != {} && (exists perm :: perm in data && perm !in onType)
            && forall perm :: perm in d <==> perm in data && perm !in if bound != 0 then onBound else onType
  {
    var missing := data - onType;
    if perm :| perm in data && perm !in onType { assert perm in missing; }
    if missing != {} {
      var perm :| perm in missing;
      assert perm in data && perm !in onType;
    }
  }

  /** What the tables have is what is always granted. */
  lemma HadIsAlways(x: Source, parent: nat, w: When, t: Triple)
    requires x.Valid() && About(parent, t) && InForce(x, w)
    ensures forall perm :: perm in CoverageOf(x, parent, w)(t) <==> Always(x, w, t, perm)
  {
    forall perm ensures perm in CoverageOf(x, parent, w)(t) <==> Always(x, w, t, perm) {
      CoverageIsAlways(x, parent, w, t, perm);
    }
  }

  lemma LeftoverMeans(x: Source, parent: nat, w: When, onType: Triple, onBound: Triple, bound: nat, data: Av, d: Av)
    requires x.Valid() && About(parent, onType) && About(parent, onBound) && InForce(x, w)
    ensures d != {} && d == Leftover(CoverageOf(x, parent, w), onType, onBound, bound, data) <==>
            Missing(x, w, onType, onBound, bound, data, d)
  {
    var a, b := CoverageOf(x, parent, w)(onType), CoverageOf(x, parent, w)(onBound);
    HadIsAlways(x, parent, w, onType);
    HadIsAlways(x, parent, w, onBound);
    PlainLeftover(data, a, b, bound, d);
    MissingIs(x, w, onType, onBound, bound, data, d, a, b);
  }

  lemma MissingIs(x: Source, w: When, onType: Triple, onBound: Triple, bound: nat, data: Av, d: Av, a: Av, b: Av)
    requires forall perm :: perm in a <==> Always(x, w, onType, perm)
    requires forall perm :: perm in b <==> Always(x, w, onBound, perm)
    ensures Missing(x, w, onType, onBound, bound, data, d) <==>
            && d != {} && (exists perm :: perm in data && perm !in a)
            && forall perm :: perm in d <==> perm in data && perm !in if bound != 0 then b else a
  {
  }

  lemma InOne(c: bool, r: Bad, b: Bad)
    ensures b in (if c then [r] else []) <==> c && b == r
  {
  }

  lemma SourceRecordIs(p: Types, bounds: seq<nat>, have: Coverage, child: nat, parent: nat, n: Node, i: nat)
    requires i < |bounds| && 1 <= child
    ensures var cls := n.key.triple.cls;
            var onType, onBound := Triple(parent, i + 1, cls), Triple(parent, bounds[i], cls);
            var d := Leftover(have, onType, onBound, bounds[i], n.datum.data);
            SourceRecord(p, bounds, have, child, parent, n, i) ==
            if Covers(p, n, child, i + 1, cls) && d != {} then [Bad(child, i + 1, cls, d)] else []
  {
  }

  lemma SourceRecordNames(x: Source, w: When, child: nat, parent: nat, n: Node, i: nat, b: Bad)
    requires x.Valid() && InForce(x, w) && i < |x.bounds| && 1 <= child
    ensures b in SourceRecord(x.p, x.bounds, CoverageOf(x, parent, w), child, parent, n, i) <==>
            NamesSource(x, w, child, parent, n, i, b)
  {
    var cls, have := n.key.triple.cls, CoverageOf(x, parent, w);
    var onType, onBound := Triple(parent, i + 1, cls), Triple(parent, x.bounds[i], cls);
    var d := Leftover(have, onType, onBound, x.bounds[i], n.datum.data);
    SourceRecordIs(x.p, x.bounds, have, child, parent, n, i);
    InOne(Covers(x.p, n, child, i + 1, cls) && d != {}, Bad(child, i + 1, cls, d), b);
    LeftoverMeans(x, parent, w, onType, onBound, x.bounds[i], n.datum.data, b.data);
    SourceIs(x, w, child, parent, n, i, b);
  }

  lemma SourceIs(x: Source, w: When, child: nat, parent: nat, n: Node, i: nat, b: Bad)
    requires i < |x.bounds| && 1 <= child
    ensures var cls := n.key.triple.cls;
            NamesSource(x, w, child, parent, n, i, b) <==>
            && b == Bad(child, i + 1, cls, b.data) && Covers(x.p, n, child, i + 1, cls)
            && Missing(x, w, Triple(parent, i + 1, cls), Triple(parent, x.bounds[i], cls), x.bounds[i], n.datum.data,
                       b.data)
  {
  }

  lemma TargetRecordIs(p: Types, bounds: seq<nat>, have: Coverage, child: nat, parent: nat, n: Node, i: nat)
    requires i < |bounds| && 1 <= child
    ensures var cls := n.key.triple.cls;
            var onType, onBound := Triple(i + 1, parent, cls), Triple(bounds[i], parent, cls);
            var d := Leftover(have, onType, onBound, bounds[i], n.datum.data);
            TargetRecord(p, bounds, have, child, parent, n, i) ==
            if Covers(p, n, i + 1, child, cls) && i + 1 != child && d != {} then [Bad(i + 1, child, cls, d)] else []
  {
  }

  lemma TargetRecordNames(x: Source, w: When, child: nat, parent: nat, n: Node, i: nat, b: Bad)
    requires x.Valid() && InForce(x, w) && i < |x.bounds| && 1 <= child
    ensures b in TargetRecord(x.p, x.bounds, CoverageOf(x, parent, w), child, parent, n, i) <==>
            NamesTarget(x, w, child, parent, n, i, b)
  {
    var cls, have := n.key.triple.cls, CoverageOf(x, parent, w);
    var onType, onBound := Triple(i + 1, parent, cls), Triple(x.bounds[i], parent, cls);
    var d := Leftover(have, onType, onBound, x.bounds[i], n.datum.data);
    TargetRecordIs(x.p, x.bounds, have, child, parent, n, i);
    InOne(Covers(x.p, n, i + 1, child, cls) && i + 1 != child && d != {}, Bad(i + 1, child, cls, d), b);
    LeftoverMeans(x, parent, w, onType, onBound, x.bounds[i], n.datum.data, b.data);
    TargetIs(x, w, child, parent, n, i, b);
  }

  lemma TargetIs(x: Source, w: When, child: nat, parent: nat, n: Node, i: nat, b: Bad)
    requires i < |x.bounds| && 1 <= child
    ensures var cls := n.key.triple.cls;
            NamesTarget(x, w, child, parent, n, i, b) <==>
            && b == Bad(i + 1, child, cls, b.data) && Covers(x.p, n, i + 1, child, cls) && i + 1 != child
            && Missing(x, w, Triple(i + 1, parent, cls), Triple(x.bounds[i], parent, cls), x.bounds[i], n.datum.data,
                       b.data)
  {
  }

  // ---------- the lists ----------

  ghost predicate NamesSourceBefore(x: Source, w: When, child: nat, parent: nat, n: Node, k: nat, b: Bad) {
    exists i: nat :: i < k && NamesSource(x, w, child, parent, n, i, b)
  }

  lemma SourceBadsNext(p: Types, bounds: seq<nat>, have: Coverage, child: nat, parent: nat, n: Node, k: nat, b: Bad)
    requires k < |bounds|
    ensures b in SourceBads(p, bounds, have, child, parent, n, k + 1) <==>
            || b in SourceBads(p, bounds, have, child, parent, n, k)
            || b in SourceRecord(p, bounds, have, child, parent, n, k)
  {
  }

  /** Some of the first k records is this one. */
  ghost predicate AmongSourceRecords(p: Types, bounds: seq<nat>, have: Coverage, child: nat, parent: nat, n: Node,
                                     k: nat, b: Bad)
    requires k <= |bounds|
  {
    exists i: nat :: i < k && b in SourceRecord(p, bounds, have, child, parent, n, i)
  }

  lemma {:induction false} SourceBadsAre(p: Types, bounds: seq<nat>, have: Coverage, child: nat, parent: nat, n: Node,
                                       k: nat, b: Bad)
    requires k <= |bounds|
    ensures b in SourceBads(p, bounds, have, child, parent, n, k) <==>
            AmongSourceRecords(p, bounds, have, child, parent, n, k, b)
  {
    if k > 0 {
      SourceBadsAre(p, bounds, have, child, parent, n, k - 1, b);
      SourceBadsNext(p, bounds, have, child, parent, n, k - 1, b);
    }
  }

  lemma InSourceBads(x: Source, w: When, child: nat, parent: nat, n: Node, b: Bad)
    requires x.Valid() && InForce(x, w) && 1 <= child
    ensures b in SourceBads(x.p, x.bounds, CoverageOf(x, parent, w), child, parent, n, |x.bounds|) <==>
            NamesSourceBefore(x, w, child, parent, n, |x.bounds|, b)
  {
    SourceBadsAre(x.p, x.bounds, CoverageOf(x, parent, w), child, parent, n, |x.bounds|, b);
    forall i: nat | i < |x.bounds|
      ensures b in SourceRecord(x.p, x.bounds, CoverageOf(x, parent, w), child, parent, n, i) <==>
              NamesSource(x, w, child, parent, n, i, b)
    {
      SourceRecordNames(x, w, child, parent, n, i, b);
    }
  }

  ghost predicate NamesTargetBefore(x: Source, w: When, child: nat, parent: nat, n: Node, k: nat, b: Bad) {
    exists i: nat :: i < k && NamesTarget(x, w, child, parent, n, i, b)
  }

  lemma TargetBadsNext(p: Types, bounds: seq<nat>, have: Coverage, child: nat, parent: nat, n: Node, k: nat, b: Bad)
    requires k < |bounds|
    ensures b in TargetBads(p, bounds, have, child, parent, n, k + 1) <==>
            || b in TargetBads(p, bounds, have, child, parent, n, k)
            || b in TargetRecord(p, bounds, have, child, parent, n, k)
  {
  }

  /** Some of the first k records is this one. */
  ghost predicate AmongTargetRecords(p: Types, bounds: seq<nat>, have: Coverage, child: nat, parent: nat, n: Node,
                                     k: nat, b: Bad)
    requires k <= |bounds|
  {
    exists i: nat :: i < k && b in TargetRecord(p, bounds, have, child, parent, n, i)
  }

  lemma {:induction false} TargetBadsAre(p: Types, bounds: seq<nat>, have: Coverage, child: nat, parent: nat, n: Node,
                                       k: nat, b: Bad)
    requires k <= |bounds|
    ensures b in TargetBads(p, bounds, have, child, parent, n, k) <==>
            AmongTargetRecords(p, bounds, have, child, parent, n, k, b)
  {
    if k > 0 {
      TargetBadsAre(p, bounds, have, child, parent, n, k - 1, b);
      TargetBadsNext(p, bounds, have, child, parent, n, k - 1, b);
    }
  }

  lemma InTargetBads(x: Source, w: When, child: nat, parent: nat, n: Node, b: Bad)
    requires x.Valid() && InForce(x, w) && 1 <= child
    ensures b in TargetBads(x.p, x.bounds, CoverageOf(x, parent, w), child, parent, n, |x.bounds|) <==>
            NamesTargetBefore(x, w, child, parent, n, |x.bounds|, b)
  {
    TargetBadsAre(x.p, x.bounds, CoverageOf(x, parent, w), child, parent, n, |x.bounds|, b);
    forall i: nat | i < |x.bounds|
      ensures b in TargetRecord(x.p, x.bounds, CoverageOf(x, parent, w), child, parent, n, i) <==>
              NamesTarget(x, w, child, parent, n, i, b)
    {
      TargetRecordNames(x, w, child, parent, n, i, b);
    }
  }

  lemma InRuleBads(x: Source, w: When, child: nat, parent: nat, n: Node, b: Bad)
    requires x.Valid() && InForce(x, w) && 1 <= child
    ensures b in RuleBads(x.p, x.bounds, CoverageOf(x, parent, w), child, parent, n) <==>
            Names(x, w, child, parent, n, b)
  {
    InSourceBads(x, w, child, parent, n, b);
    InTargetBads(x, w, child, parent, n, b);
    InRange(x, w, child, parent, n, b);
  }

  lemma InRange(x: Source, w: When, child: nat, parent: nat, n: Node, b: Bad)
    ensures NamesSourceBefore(x, w, child, parent, n, |x.bounds|, b) <==>
            exists i: nat :: NamesSource(x, w, child, parent, n, i, b)
    ensures NamesTargetBefore(x, w, child, parent, n, |x.bounds|, b) <==>
            exists i: nat :: NamesTarget(x, w, child, parent, n, i, b)
  {
  }

  /** Some allow rule of the list has the record. */
  ghost predicate ListNames(x: Source, w: When, child: nat, parent: nat, rules: seq<Node>, b: Bad) {
    exists n :: n in rules && Allowed in n.key.specified && Names(x, w, child, parent, n, b)
  }

  lemma {:induction false} InListBads(x: Source, w: When, child: nat, parent: nat, rules: seq<Node>, b: Bad)
    requires x.Valid() && InForce(x, w) && 1 <= child
    ensures b in ListBads(x.p, x.bounds, CoverageOf(x, parent, w), child, parent, rules) <==>
            ListNames(x, w, child, parent, rules, b)
  {
    if rules != [] {
      InListBads(x, w, child, parent, rules[..|rules| - 1], b);
      InRuleBads(x, w, child, parent, rules[|rules| - 1], b);
      ListNamesNext(x, w, child, parent, rules, b);
    }
  }

  lemma ListNamesNext(x: Source, w: When, child: nat, parent: nat, rules: seq<Node>, b: Bad)
    requires rules != []
    ensures var last := rules[|rules| - 1];
            ListNames(x, w, child, parent, rules, b) <==>
            || ListNames(x, w, child, parent, rules[..|rules| - 1], b)
            || (Allowed in last.key.specified && Names(x, w, child, parent, last, b))
  {
    var k := |rules| - 1;
    assert forall n :: n in rules <==> n in rules[..k] || n == rules[k];
  }

  ghost predicate InSome(f: nat -> seq<Bad>, k: nat, n: nat, b: Bad) {
    exists i: nat :: k <= i < n && b in f(i)
  }

  lemma InSomeNext(f: nat -> seq<Bad>, k: nat, n: nat, b: Bad)
    requires k < n
    ensures InSome(f, k, n, b) <==> b in f(k) || InSome(f, k + 1, n, b)
  {
  }

  lemma {:induction false} InCollect(f: nat -> seq<Bad>, k: nat, n: nat, b: Bad)
    ensures b in Collect(f, k, n) <==> InSome(f, k, n, b)
    decreases n - k
  {
    if k < n {
      InSomeNext(f, k, n, b);
      InCollect(f, k + 1, n, b);
    }
  }

  // ---------- the whole check ----------

  lemma InTeBads(x: Source, child: nat, parent: nat, b: Bad)
    requires x.Valid() && 1 <= child
    ensures b in TeBads(x.p, x.bounds, x.te, x.conds, child, parent) <==>
            ListNames(x, Unconditional, child, parent, x.te, b)
  {
    InListBads(x, Unconditional, child, parent, x.te, b);
  }

  lemma InCondBads(x: Source, child: nat, parent: nat, i: nat, b: Bad)
    requires x.Valid() && i < |x.conds| && 1 <= child
    ensures b in CondBads(x.p, x.bounds, x.te, x.conds, child, parent, i) <==>
            || ListNames(x, Branch(i, true), child, parent, x.conds[i].trueList, b)
            || ListNames(x, Branch(i, false), child, parent, x.conds[i].falseList, b)
  {
    InListBads(x, Branch(i, true), child, parent, x.conds[i].trueList, b);
    InListBads(x, Branch(i, false), child, parent, x.conds[i].falseList, b);
  }

  /** The records are exactly what is missing for the unconditional rules of the child, and
      for the rules of each branch. */
  lemma RecordsAreMissing(x: Source, child: nat, parent: nat, b: Bad)
    requires x.Valid() && 1 <= child
    ensures b in AllBads(x.p, x.bounds, x.te, x.conds, child, parent) <==>
            || ListNames(x, Unconditional, child, parent, x.te, b)
            || exists i: nat :: i < |x.conds| && CondNames(x, child, parent, i, b)
  {
    InTeBads(x, child, parent, b);
    var f := (i: nat) => CondBads(x.p, x.bounds, x.te, x.conds, child, parent, i);
    assert CondBadsFrom(x.p, x.bounds, x.te, x.conds, child, parent, 0) == Collect(f, 0, |x.conds|);
    InCollect(f, 0, |x.conds|, b);
    forall i: nat | i < |x.conds| ensures b in f(i) <==> CondNames(x, child, parent, i, b) {
      InCondBads(x, child, parent, i, b);
    }
  }

  ghost predicate CondNames(x: Source, child: nat, parent: nat, i: nat, b: Bad)
    requires i < |x.conds|
  {
    || ListNames(x, Branch(i, true), child, parent, x.conds[i].trueList, b)
    || ListNames(x, Branch(i, false), child, parent, x.conds[i].falseList, b)
  }
}
