/** Conditional rules at run time: setting a boolean re-evaluates every conditional and
    switches the rules of those whose value changed. */
module CondState {
  import opened Wrappers
  import opened Avtab
  import CE = CondExpr

  /** A pointer to a node of the conditional table. */
  datatype Ref = Ref(bucket: nat, index: nat)

  datatype Cond = Cond(expr: CE.Postfix, trueList: seq<Ref>, falseList: seq<Ref>, curState: int)

  predicate Points(h: seq<Chain>, r: Ref) {
    r.bucket < |h| && r.index < |h[r.bucket]|
  }

  function At(h: seq<Chain>, r: Ref): Node
    requires Points(h, r)
  {
    h[r.bucket][r.index]
  }

  predicate IsOn(h: seq<Chain>, r: Ref)
    requires Points(h, r)
  {
    Enabled in At(h, r).key.specified
  }

  /** h is h0 with the nodes of the list switched on or off. */
  ghost predicate SwitchedFrom(h0: seq<Chain>, h: seq<Chain>, list: seq<Ref>, on: bool) {
    && (forall r :: Points(h, r) <==> Points(h0, r))
    && |h| == |h0|
    && (forall r | Points(h, r) :: At(h, r) == if r in list then Switched(At(h0, r), on) else At(h0, r))
  }

  ghost predicate AllPoint(h: seq<Chain>, list: seq<Ref>) {
    forall k | 0 <= k < |list| :: Points(h, list[k])
  }

  method SwitchAll(table: Table, list: seq<Ref>, on: bool)
    requires table.Valid() && AllPoint(table.htable, list)
    modifies table
    ensures table.Valid() && table.nel == old(table.nel)
    ensures SwitchedFrom(old(table.htable), table.htable, list, on)
  {
    ghost var h0 := table.htable;
    for k := 0 to |list|
      invariant table.Valid() && table.nel == old(table.nel)
      invariant SwitchedFrom(h0, table.htable, list[..k], on)
    {
      ghost var h := table.htable;
      table.SetEnabled(list[k].bucket, list[k].index, on);
      SwitchOne(h0, h, list, k, on);
    }
    assert list[..|list|] == list;
  }

  lemma SwitchTwice(n: Node, on: bool)
    ensures Switched(Switched(n, on), on) == Switched(n, on)
  {
    assert WithEnabled(WithEnabled(n.key.specified, on), on) == WithEnabled(n.key.specified, on);
  }

  lemma SwitchOne(h0: seq<Chain>, h: seq<Chain>, list: seq<Ref>, k: nat, on: bool)
    requires k < |list| && Points(h0, list[k]) && SwitchedFrom(h0, h, list[..k], on)
    ensures Points(h, list[k])
    ensures
      var r := list[k];
      SwitchedFrom(h0, h[r.bucket := h[r.bucket][r.index := Switched(At(h, r), on)]], list[..k + 1], on)
  {
    var r := list[k];
    SwitchTwice(At(h0, r), on);
    var h' := h[r.bucket := h[r.bucket][r.index := Switched(At(h, r), on)]];
    assert list[..k + 1] == list[..k] + [r];
    forall q ensures Points(h', q) <==> Points(h0, q) {
      assert Points(h, q) <==> Points(h0, q);
    }
  }

  // ---------- being in step ----------

  /** Which list a value turns on: 1 the true list, 0 the false list, -1 neither. */
  predicate ListsShow(h: seq<Chain>, c: Cond, value: int) {
    && (forall k | 0 <= k < |c.trueList| :: Points(h, c.trueList[k]) && (IsOn(h, c.trueList[k]) <==> value == 1))
    && (forall k | 0 <= k < |c.falseList| :: Points(h, c.falseList[k]) && (IsOn(h, c.falseList[k]) <==> value == 0))
  }

  /** The conditional is in step with the booleans. */
  ghost predicate InStep(h: seq<Chain>, c: Cond, s: CE.Assignment) {
    c.curState == CE.Eval(c.expr, s) && ListsShow(h, c, c.curState)
  }

  /** The stored value tells what the lists show, even if it is out of date. */
  ghost predicate Honest(h: seq<Chain>, c: Cond) {
    -1 <= c.curState <= 1 && ListsShow(h, c, c.curState)
  }

  predicate Apart(c: Cond, d: Cond) {
    forall r | r in c.trueList + c.falseList :: r !in d.trueList && r !in d.falseList
  }

  /** Each rule is in one list only. */
  ghost predicate Separate(conds: seq<Cond>) {
    && (forall i | 0 <= i < |conds| :: forall r | r in conds[i].trueList :: r !in conds[i].falseList)
    && (forall i, j | 0 <= i < |conds| && 0 <= j < |conds| && i != j :: Apart(conds[i], conds[j]))
  }

  /** Only nodes in the lists of c may differ. */
  ghost predicate Within(h0: seq<Chain>, h: seq<Chain>, c: Cond) {
    && (forall r :: Points(h, r) <==> Points(h0, r))
    && (forall r | Points(h, r) && r !in c.trueList && r !in c.falseList :: At(h, r) == At(h0, r))
  }

  lemma OthersKeepShowing(h0: seq<Chain>, h: seq<Chain>, c: Cond, d: Cond, value: int)
    requires Within(h0, h, c) && ListsShow(h0, d, value) && Apart(d, c)
    ensures ListsShow(h, d, value)
  {
    forall k | 0 <= k < |d.trueList|
      ensures Points(h, d.trueList[k]) && (IsOn(h, d.trueList[k]) <==> value == 1)
    {
      assert d.trueList[k] in d.trueList + d.falseList && Points(h0, d.trueList[k]);
    }
    forall k | 0 <= k < |d.falseList|
      ensures Points(h, d.falseList[k]) && (IsOn(h, d.falseList[k]) <==> value == 0)
    {
      assert d.falseList[k] in d.trueList + d.falseList && Points(h0, d.falseList[k]);
    }
  }

  lemma BothSwitched(h0: seq<Chain>, h1: seq<Chain>, h2: seq<Chain>, c: Cond, value: int)
    requires SwitchedFrom(h0, h1, c.trueList, value > 0) && SwitchedFrom(h1, h2, c.falseList, value == 0)
    requires AllPoint(h0, c.trueList) && AllPoint(h0, c.falseList) && -1 <= value <= 1
    requires forall r | r in c.trueList :: r !in c.falseList
    ensures ListsShow(h2, c, value)
  {
    forall k | 0 <= k < |c.trueList|
      ensures Points(h2, c.trueList[k]) && (IsOn(h2, c.trueList[k]) <==> value == 1)
    {
      var r := c.trueList[k];
      assert r in c.trueList && Points(h0, r) && Points(h1, r);
    }
    forall k | 0 <= k < |c.falseList|
      ensures Points(h2, c.falseList[k]) && (IsOn(h2, c.falseList[k]) <==> value == 0)
    {
      var r := c.falseList[k];
      assert r in c.falseList && Points(h0, r) && Points(h1, r);
    }
  }

  /** Two tables that differ at most in Enabled bits. */
  ghost predicate SameRules(h0: seq<Chain>, h: seq<Chain>) {
    && |h| == |h0|
    && (forall r :: Points(h, r) <==> Points(h0, r))
    && (forall r | Points(h, r) :: Switched(At(h, r), false) == Switched(At(h0, r), false))
  }

  lemma SwitchKeepsRules(h0: seq<Chain>, h: seq<Chain>, list: seq<Ref>, on: bool)
    requires SwitchedFrom(h0, h, list, on)
    ensures SameRules(h0, h)
  {
    forall r | Points(h, r) ensures Switched(At(h, r), false) == Switched(At(h0, r), false) {
      var s := At(h0, r).key.specified;
      assert WithEnabled(WithEnabled(s, on), false) == WithEnabled(s, false);
    }
  }

  class Policy {
    /** Boolean names and their values, 1-based. */
    var names: map<string, nat>
    var states: array<bool>
    var conds: seq<Cond>
    const table: Table

    constructor (names: map<string, nat>, states: array<bool>, conds: seq<Cond>, table: Table)
      ensures this.names == names && this.states == states && this.conds == conds && this.table == table
    {
      this.names, this.states, this.conds, this.table := names, states, conds, table;
    }

    ghost function Assigned(): CE.Assignment
      reads this, states
    {
      CE.View(states[..])
    }

    ghost predicate Shape()
      reads this, table, states
    {
      && table.Valid()
      && (forall n | n in names :: 1 <= names[n] <= states.Length)
      && (forall i | 0 <= i < |conds| :: CE.InRange(conds[i].expr, states.Length))
      && Separate(conds)
    }

    /** Every stored value matches its lists: what setting booleans relies on. */
    ghost predicate Valid()
      reads this, table, states
    {
      Shape() && forall i | 0 <= i < |conds| :: Honest(table.htable, conds[i])
    }

    /** Every conditional is in step with the booleans. */
    ghost predicate Synchronised()
      reads this, table, states
    {
      Valid() && forall i | 0 <= i < |conds| :: InStep(table.htable, conds[i], Assigned())
    }

    /** Re-evaluates one conditional, and switches its lists if its value changed. */
    method EvaluateCondNode(i: nat)
      requires Valid() && i < |conds|
      modifies this`conds, table
      ensures Valid() && SameRules(old(table.htable), table.htable)
      ensures conds == old(conds)[i := Reevaluated(old(conds)[i], Assigned())]
    {
      var c := conds[i];
      ghost var all, h0 := conds, table.htable;
      var value := CE.EvaluateExpr(c.expr, states);
      if value != c.curState {
        conds := conds[i := c.(curState := value)];
        SwitchLists(table, c, value);
        SameLists(c, value, table.htable);
        SeparateStays(all, i, value);
        OthersStayHonest(h0, table.htable, all, i, value);
      }
    }

    /** Re-evaluates every conditional. */
    method EvaluateConds()
      requires Valid()
      modifies this`conds, table
      ensures Synchronised() && SameRules(old(table.htable), table.htable)
      ensures SameConds(old(conds), conds)
    {
      ghost var h0, all := table.htable, conds;
      for i := 0 to |conds|
        invariant Valid() && SameRules(h0, table.htable) && SameConds(all, conds)
        invariant forall j | 0 <= j < i :: conds[j].curState == CE.Eval(conds[j].expr, Assigned())
      {
        ghost var h := table.htable;
        EvaluateCondNode(i);
        SameRulesTrans(h0, h, table.htable);
      }
    }

    /** Refuses names the policy does not have and values other than 0 and 1. */
    method BoolUpdate(name: string, value: int) returns (ok: bool)
      requires Shape()
      modifies states
      ensures ok <==> name in names && (value == 0 || value == 1)
      ensures states[..] == After(old(states[..]), names, name, value)
      ensures ok ==> states[names[name] - 1] == (value == 1)
      ensures forall i | 0 <= i < states.Length :: (ok ==> i + 1 != names[name]) ==> states[i] == old(states[i])
    {
      if name !in names { return false; }
      if value != 0 && value != 1 { return false; }
      states[names[name] - 1] := value == 1;
      ok := true;
    }

    method BoolSet(name: string, value: int) returns (ok: bool)
      requires Valid()
      modifies this`conds, table, states
      ensures ok <==> name in names && (value == 0 || value == 1)
      ensures states[..] == After(old(states[..]), names, name, value)
      ensures Valid() && (ok || old(Synchronised()) ==> Synchronised())
      ensures SameRules(old(table.htable), table.htable) && SameConds(old(conds), conds)
    {
      ok := BoolUpdate(name, value);
      if ok {
        EvaluateConds();
      }
    }

    /** Any sequence of requests, some of which may be refused. */
    method RunSets(requests: seq<(string, int)>)
      requires Synchronised()
      modifies this`conds, table, states
      ensures Synchronised()
      ensures states[..] == AfterAll(old(states[..]), names, requests)
      ensures SameRules(old(table.htable), table.htable) && SameConds(old(conds), conds)
    {
      ghost var h0, all, before := table.htable, conds, states[..];
      for i := 0 to |requests|
        invariant Synchronised()
        invariant states[..] == AfterAll(before, names, requests[..i])
        invariant SameRules(h0, table.htable) && SameConds(all, conds)
      {
        ghost var h := table.htable;
        var ok := BoolSet(requests[i].0, requests[i].1);
        SameRulesTrans(h0, h, table.htable);
        assert requests[..i + 1][..i] == requests[..i];
      }
      assert requests[..|requests|] == requests;
    }

    /** Adds what the enabled conditional rules say to a decision. */
    method ComputeAv(key: Key, avd: Decision) returns (r: Decision)
      requires table.Valid()
      ensures r == UpTo(table.Bucket(key.triple), key, avd, |table.Bucket(key.triple)|)
    {
      r := avd;
      var c := table.Bucket(key.triple);
      var node := table.SearchNode(key);
      ghost var at := 0;
      while node.Some?
        invariant at <= |c| && IsFirst(c, key, at, node)
        invariant r == UpTo(c, key, avd, at)
        decreases |c| - at
      {
        AddNext(c, key, avd, at, node.value);
        r := Adding(r, c[node.value]);
        at := node.value + 1;
        node := table.SearchNodeNext(key, node.value);
      }
      SkipUnmatched(c, key, avd, at, |c|);
    }
  }

  function Reevaluated(c: Cond, s: CE.Assignment): Cond {
    c.(curState := CE.Eval(c.expr, s))
  }

  method SwitchLists(table: Table, c: Cond, value: int)
    requires table.Valid() && AllPoint(table.htable, c.trueList) && AllPoint(table.htable, c.falseList)
    requires -1 <= value <= 1 && forall r | r in c.trueList :: r !in c.falseList
    modifies table
    ensures table.Valid() && SameRules(old(table.htable), table.htable)
    ensures Within(old(table.htable), table.htable, c) && ListsShow(table.htable, c, value)
  {
    ghost var h0 := table.htable;
    SwitchAll(table, c.trueList, value > 0);
    ghost var h1 := table.htable;
    SwitchAll(table, c.falseList, value == 0);
    BothSwitched(h0, h1, table.htable, c, value);
    SwitchKeepsRules(h0, h1, c.trueList, value > 0);
    SwitchKeepsRules(h1, table.htable, c.falseList, value == 0);
  }

  lemma SameLists(c: Cond, value: int, h: seq<Chain>)
    ensures ListsShow(h, c.(curState := value), value) <==> ListsShow(h, c, value)
  {
    var d := c.(curState := value);
    assert d.trueList == c.trueList && d.falseList == c.falseList;
  }

  lemma SeparateStays(conds: seq<Cond>, i: nat, value: int)
    requires Separate(conds) && i < |conds|
    ensures Separate(conds[i := conds[i].(curState := value)])
  {
    var after := conds[i := conds[i].(curState := value)];
    forall j, k | 0 <= j < |after| && 0 <= k < |after| && j != k ensures Apart(after[j], after[k]) {
      assert Apart(conds[j], conds[k]);
    }
  }

  lemma OthersStayHonest(h0: seq<Chain>, h: seq<Chain>, conds: seq<Cond>, i: nat, value: int)
    requires Separate(conds) && i < |conds| && Within(h0, h, conds[i])
    requires forall j | 0 <= j < |conds| :: Honest(h0, conds[j])
    ensures forall j | 0 <= j < |conds| && j != i :: Honest(h, conds[j])
  {
    forall j | 0 <= j < |conds| && j != i ensures Honest(h, conds[j]) {
      assert Honest(h0, conds[j]);
      OthersKeepShowing(h0, h, conds[i], conds[j], conds[j].curState);
    }
  }

  /** The states after one request. */
  function After(states: seq<bool>, names: map<string, nat>, name: string, value: int): seq<bool> {
    if name in names && 1 <= names[name] <= |states| && (value == 0 || value == 1)
    then states[names[name] - 1 := value == 1] else states
  }

  function AfterAll(states: seq<bool>, names: map<string, nat>, requests: seq<(string, int)>): seq<bool> {
    if requests == [] then states
    else
      var last := requests[|requests| - 1];
      After(AfterAll(states, names, requests[..|requests| - 1]), names, last.0, last.1)
  }

  /** Nothing but the stored values may differ. */
  ghost predicate SameConds(before: seq<Cond>, after: seq<Cond>) {
    |after| == |before| && forall i | 0 <= i < |after| :: after[i] == before[i].(curState := after[i].curState)
  }

  lemma SameRulesTrans(h0: seq<Chain>, h1: seq<Chain>, h2: seq<Chain>)
    requires SameRules(h0, h1) && SameRules(h1, h2)
    ensures SameRules(h0, h2)
  {
    forall r | Points(h2, r) ensures Switched(At(h2, r), false) == Switched(At(h0, r), false) {
      assert Points(h1, r);
    }
  }

  // ---------- what the switches mean ----------

  /** The rule is in the branch its conditional's expression selects. */
  predicate SelectedBy(c: Cond, s: CE.Assignment, r: Ref) {
    || (r in c.trueList && CE.Eval(c.expr, s) == 1)
    || (r in c.falseList && CE.Eval(c.expr, s) == 0)
  }

  ghost predicate Selected(conds: seq<Cond>, s: CE.Assignment, r: Ref) {
    exists i :: 0 <= i < |conds| && SelectedBy(conds[i], s, r)
  }

  ghost predicate Listed(conds: seq<Cond>, r: Ref) {
    exists i :: 0 <= i < |conds| && r in conds[i].trueList + conds[i].falseList
  }

  /** In step, a listed rule is on exactly when the current booleans select its branch. */
  lemma OnIffSelected(p: Policy, r: Ref)
    requires p.Synchronised() && Points(p.table.htable, r) && Listed(p.conds, r)
    ensures IsOn(p.table.htable, r) <==> Selected(p.conds, p.Assigned(), r)
  {
    var i :| 0 <= i < |p.conds| && r in p.conds[i].trueList + p.conds[i].falseList;
    var c := p.conds[i];
    assert InStep(p.table.htable, c, p.Assigned());
    if r in c.trueList {
      var k :| 0 <= k < |c.trueList| && c.trueList[k] == r;
    } else {
      var k :| 0 <= k < |c.falseList| && c.falseList[k] == r;
    }
    forall j | 0 <= j < |p.conds| && SelectedBy(p.conds[j], p.Assigned(), r) ensures j == i {
      assert j == i || Apart(c, p.conds[j]);
    }
  }

  /** In step, the true list is enabled exactly when the expression is true, the false list
      exactly when it is false, and neither when it is undefined. */
  lemma OnByValue(p: Policy, i: nat, r: Ref)
    requires p.Synchronised() && i < |p.conds| && Points(p.table.htable, r)
    ensures r in p.conds[i].trueList ==>
            (Enabled in p.table.htable[r.bucket][r.index].key.specified <==>
             CE.Eval(p.conds[i].expr, p.Assigned()) == 1)
    ensures r in p.conds[i].falseList ==>
            (Enabled in p.table.htable[r.bucket][r.index].key.specified <==>
             CE.Eval(p.conds[i].expr, p.Assigned()) == 0)
  {
    var c := p.conds[i];
    assert InStep(p.table.htable, c, p.Assigned());
    if r in c.trueList {
      var k :| 0 <= k < |c.trueList| && c.trueList[k] == r;
    }
    if r in c.falseList {
      var k :| 0 <= k < |c.falseList| && c.falseList[k] == r;
    }
  }

  datatype Decision = Decision(allowed: Av, auditallow: Av, auditdeny: Av)

  predicate Counts(n: Node, f: Flag) {
    f in n.key.specified && Enabled in n.key.specified
  }

  function Adding(d: Decision, n: Node): Decision {
    Decision(
      if Counts(n, Allowed) then d.allowed + n.datum.data else d.allowed,
      if Counts(n, AuditAllow) then d.auditallow + n.datum.data else d.auditallow,
      if Counts(n, AuditDeny) then d.auditdeny * n.datum.data else d.auditdeny)
  }

  function UpTo(c: Chain, key: Key, avd: Decision, i: nat): Decision
    requires i <= |c|
  {
    if i == 0 then avd
    else
      var d := UpTo(c, key, avd, i - 1);
      if Matches(key, c[i - 1]) then Adding(d, c[i - 1]) else d
  }

  lemma {:induction false} SkipUnmatched(c: Chain, key: Key, avd: Decision, i: nat, j: nat)
    requires i <= j <= |c| && forall k | i <= k < j :: !Matches(key, c[k])
    ensures UpTo(c, key, avd, j) == UpTo(c, key, avd, i)
  {
    if i < j { SkipUnmatched(c, key, avd, i, j - 1); }
  }

  lemma AddNext(c: Chain, key: Key, avd: Decision, at: nat, next: nat)
    requires at <= |c| && IsFirst(c, key, at, Some(next))
    ensures next < |c| && UpTo(c, key, avd, next + 1) == Adding(UpTo(c, key, avd, at), c[next])
  {
    SkipUnmatched(c, key, avd, at, next);
  }

  ghost predicate Added(c: Chain, key: Key, f: Flag, perm: Perm, i: nat)
    requires i <= |c|
  {
    exists k :: 0 <= k < i && Matches(key, c[k]) && Counts(c[k], f) && perm in c[k].datum.data
  }

  ghost predicate Removed(c: Chain, key: Key, perm: Perm, i: nat)
    requires i <= |c|
  {
    exists k :: 0 <= k < i && Matches(key, c[k]) && Counts(c[k], AuditDeny) && perm !in c[k].datum.data
  }

  /** Allow and audit-allow add up over the enabled matching rules; audit-deny keeps only
      what every one of them keeps. */
  lemma {:induction false} UpToExact(c: Chain, key: Key, avd: Decision, i: nat, perm: Perm)
    requires i <= |c|
    ensures perm in UpTo(c, key, avd, i).allowed <==> perm in avd.allowed || Added(c, key, Allowed, perm, i)
    ensures perm in UpTo(c, key, avd, i).auditallow <==> perm in avd.auditallow || Added(c, key, AuditAllow, perm, i)
    ensures perm in UpTo(c, key, avd, i).auditdeny <==> perm in avd.auditdeny && !Removed(c, key, perm, i)
  {
    if i > 0 { UpToExact(c, key, avd, i - 1, perm); }
  }

  /** A matching rule of kind f in a branch the booleans select, with the permission or
      without it. */
  ghost predicate BySelected(p: Policy, key: Key, f: Flag, perm: Perm, has: bool)
    requires p.table.Valid()
    reads p, p.table, p.states
  {
    exists r :: Points(p.table.htable, r) && Selected(p.conds, p.Assigned(), r) &&
      Speaks(At(p.table.htable, r), key, f, perm, has)
  }

  predicate Speaks(n: Node, key: Key, f: Flag, perm: Perm, has: bool) {
    Matches(key, n) && f in n.key.specified && (perm in n.datum.data <==> has)
  }

  /** The same among the enabled nodes of a chain. */
  ghost predicate ByEnabled(c: Chain, key: Key, f: Flag, perm: Perm, has: bool) {
    exists k :: 0 <= k < |c| && Enabled in c[k].key.specified && Speaks(c[k], key, f, perm, has)
  }

  /** Where a node that speaks about a key lies. */
  lemma SpeakerIsInBucket(p: Policy, key: Key, r: Ref)
    requires p.table.Valid() && Points(p.table.htable, r) && Matches(key, At(p.table.htable, r))
    ensures r.index < |p.table.Bucket(key.triple)| && p.table.Bucket(key.triple)[r.index] == At(p.table.htable, r)
  {
  }

  lemma EnabledIsSelected(p: Policy, key: Key, f: Flag, perm: Perm, has: bool)
    requires p.Synchronised()
    requires forall r | Points(p.table.htable, r) :: Listed(p.conds, r)
    ensures ByEnabled(p.table.Bucket(key.triple), key, f, perm, has) <==> BySelected(p, key, f, perm, has)
  {
    var c := p.table.Bucket(key.triple);
    if ByEnabled(c, key, f, perm, has) {
      var k :| 0 <= k < |c| && Enabled in c[k].key.specified && Speaks(c[k], key, f, perm, has);
      NodeIsSelected(p, key, f, perm, has, k);
    }
    if BySelected(p, key, f, perm, has) {
      var h := p.table.htable;
      var r :| Points(h, r) && Selected(p.conds, p.Assigned(), r) && Speaks(At(h, r), key, f, perm, has);
      RefIsEnabled(p, key, f, perm, has, r);
    }
  }

  lemma RefIsEnabled(p: Policy, key: Key, f: Flag, perm: Perm, has: bool, r: Ref)
    requires p.Synchronised() && Points(p.table.htable, r) && Listed(p.conds, r)
    requires Selected(p.conds, p.Assigned(), r) && Speaks(At(p.table.htable, r), key, f, perm, has)
    ensures ByEnabled(p.table.Bucket(key.triple), key, f, perm, has)
  {
    OnIffSelected(p, r);
    SpeakerIsInBucket(p, key, r);
  }

  lemma NodeIsSelected(p: Policy, key: Key, f: Flag, perm: Perm, has: bool, k: nat)
    requires p.Synchronised() && k < |p.table.Bucket(key.triple)|
    requires forall r | Points(p.table.htable, r) :: Listed(p.conds, r)
    requires Enabled in p.table.Bucket(key.triple)[k].key.specified &&
      Speaks(p.table.Bucket(key.triple)[k], key, f, perm, has)
    ensures BySelected(p, key, f, perm, has)
  {
    var r := Ref(p.table.hash(key.triple), k);
    assert Points(p.table.htable, r) && At(p.table.htable, r) == p.table.Bucket(key.triple)[k];
    OnIffSelected(p, r);
  }

  /** So a decision depends on the current booleans alone, not on the history of settings:
      allow and auditallow rules of the selected branches add permissions, auditdeny rules
      of those branches take away what they do not name. */
  lemma DecisionFromBooleans(p: Policy, key: Key, avd: Decision, perm: Perm)
    requires p.Synchronised()
    requires forall r | Points(p.table.htable, r) :: Listed(p.conds, r)
    ensures
      var c := p.table.Bucket(key.triple);
      var d := UpTo(c, key, avd, |c|);
      && (perm in d.allowed <==> perm in avd.allowed || BySelected(p, key, Allowed, perm, true))
      && (perm in d.auditallow <==> perm in avd.auditallow || BySelected(p, key, AuditAllow, perm, true))
      && (perm in d.auditdeny <==> perm in avd.auditdeny && !BySelected(p, key, AuditDeny, perm, false))
  {
    var c := p.table.Bucket(key.triple);
    UpToExact(c, key, avd, |c|, perm);
    AddedIsEnabled(c, key, Allowed, perm);
    AddedIsEnabled(c, key, AuditAllow, perm);
    RemovedIsEnabled(c, key, perm);
    EnabledIsSelected(p, key, Allowed, perm, true);
    EnabledIsSelected(p, key, AuditAllow, perm, true);
    EnabledIsSelected(p, key, AuditDeny, perm, false);
  }

  lemma AddedIsEnabled(c: Chain, key: Key, f: Flag, perm: Perm)
    ensures Added(c, key, f, perm, |c|) <==> ByEnabled(c, key, f, perm, true)
  {
    if Added(c, key, f, perm, |c|) {
      var k :| 0 <= k < |c| && Matches(key, c[k]) && Counts(c[k], f) && perm in c[k].datum.data;
      assert Speaks(c[k], key, f, perm, true);
    }
    if ByEnabled(c, key, f, perm, true) {
      var k :| 0 <= k < |c| && Enabled in c[k].key.specified && Speaks(c[k], key, f, perm, true);
      assert Counts(c[k], f);
    }
  }

  lemma RemovedIsEnabled(c: Chain, key: Key, perm: Perm)
    ensures Removed(c, key, perm, |c|) <==> ByEnabled(c, key, AuditDeny, perm, false)
  {
    if Removed(c, key, perm, |c|) {
      var k :| 0 <= k < |c| && Matches(key, c[k]) && Counts(c[k], AuditDeny) && perm !in c[k].datum.data;
      assert Speaks(c[k], key, AuditDeny, perm, false);
    }
    if ByEnabled(c, key, AuditDeny, perm, false) {
      var k :| 0 <= k < |c| && Enabled in c[k].key.specified && Speaks(c[k], key, AuditDeny, perm, false);
      assert Counts(c[k], AuditDeny);
    }
  }

  // ---------- list order ----------

  function Matching(list: seq<Ref>, h: seq<Chain>, isType: bool): seq<Ref>
    requires AllPoint(h, list)
  {
    if list == [] then []
    else
      var n := |list| - 1;
      var rest := Matching(list[..n], h, isType);
      if (At(h, list[n]).key.specified * TYPE != {}) != isType then rest
      else if isType then [list[n]] + rest else rest + [list[n]]
  }

  /** The list in its new order. */
  function Reordered(h: seq<Chain>, list: seq<Ref>): seq<Ref>
    requires AllPoint(h, list)
  {
    Matching(list, h, true) + Matching(list, h, false)
  }

  /** Moves the type rules to the front, which reverses them and keeps the others in order. */
  method Optimize(h: seq<Chain>, list: seq<Ref>) returns (r: seq<Ref>)
    requires AllPoint(h, list)
    ensures r == Reordered(h, list)
  {
    r := list;
    for i := 0 to |list|
      invariant |r| == |list| && r[i..] == list[i..]
      invariant r[..i] == Matching(list[..i], h, true) + Matching(list[..i], h, false)
    {
      assert list[..i + 1][..i] == list[..i];
      if At(h, list[i]).key.specified * TYPE != {} && i > 0 {
        r := [list[i]] + r[..i] + r[i + 1..];
      }
    }
    assert list[..|list|] == list;
  }

  lemma {:induction false} OptimizeKeepsRules(h: seq<Chain>, list: seq<Ref>)
    requires AllPoint(h, list)
    ensures multiset(Reordered(h, list)) == multiset(list)
  {
    if list != [] {
      var n := |list| - 1;
      OptimizeKeepsRules(h, list[..n]);
      assert list == list[..n] + [list[n]];
    }
  }

  /** A transition, member or change rule. */
  predicate TypeRule(n: Node) {
    Transition in n.key.specified || Member in n.key.specified || Change in n.key.specified
  }

  /** x stands somewhere before y. */
  ghost predicate StandsBefore(list: seq<Ref>, x: Ref, y: Ref) {
    exists i, j :: 0 <= i < j < |list| && list[i] == x && list[j] == y
  }

  lemma TypeIs(n: Node)
    ensures n.key.specified * TYPE != {} <==> TypeRule(n)
  {
    assert Transition in TYPE && Member in TYPE && Change in TYPE;
    if f :| f in n.key.specified * TYPE { assert f in TYPE; }
    if Transition in n.key.specified { assert Transition in n.key.specified * TYPE; }
    if Member in n.key.specified { assert Member in n.key.specified * TYPE; }
    if Change in n.key.specified { assert Change in n.key.specified * TYPE; }
  }

  lemma ReorderedNext(h: seq<Chain>, list: seq<Ref>)
    requires AllPoint(h, list) && list != []
    ensures var n := |list| - 1;
            var rest := Reordered(h, list[..n]);
            Reordered(h, list) == if TypeRule(At(h, list[n])) then [list[n]] + rest else rest + [list[n]]
  {
    TypeIs(At(h, list[|list| - 1]));
  }

  lemma ReorderedHas(h: seq<Chain>, list: seq<Ref>, k: nat)
    requires AllPoint(h, list) && k < |list|
    ensures list[k] in Reordered(h, list)
  {
    OptimizeKeepsRules(h, list);
    assert list[k] in multiset(list);
    assert list[k] in multiset(Reordered(h, list));
  }

  /** The new order of any two rules: type rules come before others, type rules change places
      among themselves, others do not. */
  lemma {:induction false} OptimizeOrder(h: seq<Chain>, list: seq<Ref>, k: nat, l: nat)
    requires AllPoint(h, list) && k < l < |list|
    ensures if TypeRule(At(h, list[l])) then StandsBefore(Reordered(h, list), list[l], list[k])
            else StandsBefore(Reordered(h, list), list[k], list[l])
  {
    var n := |list| - 1;
    if l == n {
      LastOrder(h, list, k);
    } else {
      OptimizeOrder(h, list[..n], k, l);
      if TypeRule(At(h, list[l])) {
        StaysBefore(h, list, list[l], list[k]);
      } else {
        StaysBefore(h, list, list[k], list[l]);
      }
    }
  }

  lemma LastOrder(h: seq<Chain>, list: seq<Ref>, k: nat)
    requires AllPoint(h, list) && k < |list| - 1
    ensures var last := list[|list| - 1];
            if TypeRule(At(h, last)) then StandsBefore(Reordered(h, list), last, list[k])
            else StandsBefore(Reordered(h, list), list[k], last)
  {
    var n := |list| - 1;
    var rest := Reordered(h, list[..n]);
    ReorderedNext(h, list);
    ReorderedHas(h, list[..n], k);
    var i :| 0 <= i < |rest| && rest[i] == list[k];
    if TypeRule(At(h, list[n])) {
      assert ([list[n]] + rest)[0] == list[n] && ([list[n]] + rest)[i + 1] == list[k];
    } else {
      assert (rest + [list[n]])[i] == list[k] && (rest + [list[n]])[|rest|] == list[n];
    }
  }

  lemma StaysBefore(h: seq<Chain>, list: seq<Ref>, x: Ref, y: Ref)
    requires AllPoint(h, list) && list != [] && StandsBefore(Reordered(h, list[..|list| - 1]), x, y)
    ensures StandsBefore(Reordered(h, list), x, y)
  {
    var n := |list| - 1;
    var rest := Reordered(h, list[..n]);
    ReorderedNext(h, list);
    var i, j :| 0 <= i < j < |rest| && rest[i] == x && rest[j] == y;
    if TypeRule(At(h, list[n])) {
      assert ([list[n]] + rest)[i + 1] == x && ([list[n]] + rest)[j + 1] == y;
    } else {
      assert (rest + [list[n]])[i] == x && (rest + [list[n]])[j] == y;
    }
  }
}
