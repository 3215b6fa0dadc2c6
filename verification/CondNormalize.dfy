/** Normalising conditional expressions, and comparing them by their truth tables. */
module CondNormalize {
  import opened Wrappers
  import opened CondExpr

  const MAX_BOOLS: nat := 5

  /** A conditional node; the rule lists are known by their rules' numbers. */
  class Cond {
    var expr: Postfix
    var trueList: seq<nat>
    var falseList: seq<nat>
    var avTrue: seq<nat>
    var avFalse: seq<nat>
    var nbools: nat
    var boolIds: seq<nat>
    /** The numbers k of the assignments that make the expression true. */
    var preComp: set<nat>

    constructor (e: Postfix, t: seq<nat>, f: seq<nat>, avt: seq<nat>, avf: seq<nat>)
      ensures expr == e && trueList == t && falseList == f && avTrue == avt && avFalse == avf
    {
      expr, trueList, falseList, avTrue, avFalse := e, t, f, avt, avf;
      nbools, boolIds, preComp := 0, [], {};
    }
  }

  // ---------- assignments by number ----------

  function Pow2(n: nat): (p: nat)
    ensures p >= 1
  {
    if n == 0 then 1 else 2 * Pow2(n - 1)
  }

  function Bit(k: nat, j: nat): bool {
    if j == 0 then k % 2 == 1 else Bit(k / 2, j - 1)
  }

  function IndexOf(ids: seq<nat>, b: nat): (i: nat)
    requires b in ids
    ensures i < |ids| && ids[i] == b
  {
    if ids[0] == b then 0 else 1 + IndexOf(ids[1..], b)
  }

  ghost predicate Distinct(ids: seq<nat>) {
    forall i, j | 0 <= i < j < |ids| :: ids[i] != ids[j]
  }

  lemma IndexUnique(ids: seq<nat>, i: nat)
    requires Distinct(ids) && i < |ids|
    ensures IndexOf(ids, ids[i]) == i
  {
  }

  /** Assignment number k: bit j of k is the state of the j-th listed boolean. */
  function Under(ids: seq<nat>, k: nat): Assignment {
    b => b in ids && Bit(k, IndexOf(ids, b))
  }

  /** The listed booleans, five at most, are the bits of k from the lowest on. */
  lemma UnderIsBit(ids: seq<nat>, k: nat, j: nat)
    requires Distinct(ids) && j < |ids| <= 5
    ensures Under(ids, k)(ids[j]) <==>
            (if j == 0 then k else if j == 1 then k / 2 else if j == 2 then k / 4 else if j == 3 then k / 8 else k / 16)
              % 2 == 1
  {
    IndexUnique(ids, j);
    LowBits(k);
    LowBits(k / 2);
    HighBits(k);
  }

  lemma LowBits(k: nat)
    ensures (Bit(k, 0) <==> k % 2 == 1) && (Bit(k, 1) <==> k / 2 % 2 == 1)
  {
    assert Bit(k, 1) == Bit(k / 2, 0);
  }

  lemma HighBits(k: nat)
    ensures (Bit(k, 2) <==> k / 4 % 2 == 1) && (Bit(k, 3) <==> k / 8 % 2 == 1) && (Bit(k, 4) <==> k / 16 % 2 == 1)
  {
    SecondBit(k);
    ThirdBit(k);
    FourthBit(k);
    LowBits(k / 16);
  }

  lemma SecondBit(k: nat)
    ensures Bit(k, 2) <==> k / 4 % 2 == 1
  {
    ShiftedBits(k, 1);
    LowBits(k / 4);
  }

  lemma ThirdBit(k: nat)
    ensures Bit(k, 3) <==> k / 8 % 2 == 1
  {
    ShiftedBits(k, 2);
    LowBits(k / 4);
    assert k / 4 / 2 == k / 8;
  }

  lemma ShiftedBits(k: nat, j: nat)
    requires 1 <= j
    ensures Bit(k, j + 1) == Bit(k / 4, j - 1)
  {
    assert Bit(k, j + 1) == Bit(k / 2, j) == Bit(k / 2 / 2, j - 1);
    assert k / 2 / 2 == k / 4;
  }

  lemma FourthBit(k: nat)
    ensures Bit(k, 4) == Bit(k / 16, 0)
  {
    ShiftedBits(k, 3);
    ShiftedBits(k / 4, 1);
    assert k / 4 / 4 == k / 16;
  }

  /** The truth table: which assignments make the expression true. */
  function Table(expr: Postfix, ids: seq<nat>): set<nat> {
    set k: nat | 0 <= k < Pow2(|ids|) && Eval(expr, Under(ids, k)) == 1 :: k
  }

  /** Every choice of n bits is the number of some assignment. */
  lemma {:induction false} NumberOf(f: nat -> bool, n: nat) returns (k: nat)
    ensures k < Pow2(n) && forall j: nat | j < n :: Bit(k, j) == f(j)
  {
    if n == 0 { return 0; }
    var rest := NumberOf((j: nat) => f(j + 1), n - 1);
    k := 2 * rest + if f(0) then 1 else 0;
    forall j: nat | j < n ensures Bit(k, j) == f(j) {
      if j > 0 { assert k / 2 == rest && Bit(rest, j - 1) == f(j - 1 + 1); }
    }
  }

  /** Every assignment agrees with a numbered one on the listed booleans. */
  lemma NumberFor(ids: seq<nat>, s: Assignment) returns (k: nat)
    requires Distinct(ids)
    ensures k < Pow2(|ids|) && forall b | b in ids :: Under(ids, k)(b) == s(b)
  {
    k := NumberOf((j: nat) => if j < |ids| then s(ids[j]) else false, |ids|);
    forall b | b in ids ensures Under(ids, k)(b) == s(b) {
      assert Bit(k, IndexOf(ids, b)) == s(ids[IndexOf(ids, b)]);
    }
  }

  // ---------- counting booleans ----------

  method BoolPresent(target: nat, ids: seq<nat>, n: nat) returns (present: bool)
    requires n <= MAX_BOOLS ==> n <= |ids|
    ensures present <==> n <= MAX_BOOLS && target in ids[..n]
  {
    if n > MAX_BOOLS { return false; }
    var i := 0;
    while i < n && target != ids[i]
      invariant 0 <= i <= n && target !in ids[..i]
    {
      i := i + 1;
    }
    present := i < n;
  }

  /** What one element does to the count and to the at most five recorded booleans. Past
      five every occurrence counts, but the count is then only compared with other counts. */
  function CountOne(n: nat, ids: seq<nat>, e: Elem): (nat, seq<nat>) {
    if !e.Bool? || (n <= MAX_BOOLS && e.b in ids) then (n, ids)
    else (n + 1, if n < MAX_BOOLS then ids + [e.b] else ids)
  }

  function Count(expr: Postfix): (nat, seq<nat>) {
    if expr == [] then (0, [])
    else var c := Count(expr[..|expr| - 1]); CountOne(c.0, c.1, expr[|expr| - 1])
  }

  /** Up to five the count is exact, and so is the record. */
  lemma {:induction false} CountIsExact(expr: Postfix)
    ensures Count(expr).0 <= 5 <==> |Ids(expr)| <= 5
    ensures Count(expr).0 <= 5 ==> Count(expr) == (|Ids(expr)|, Ids(expr))
    ensures |Count(expr).1| <= 5
    ensures Count(expr).0 > 5 ==> |Count(expr).1| == 5
  {
    if expr != [] {
      CountIsExact(expr[..|expr| - 1]);
    }
  }

  method CountBools(expr: Postfix) returns (n: nat, ids: seq<nat>)
    ensures (n, ids) == Count(expr)
    ensures n <= MAX_BOOLS <==> |Ids(expr)| <= MAX_BOOLS
    ensures n <= MAX_BOOLS ==> n == |Ids(expr)| && ids == Ids(expr)
  {
    n, ids := 0, [];
    for i := 0 to |expr|
      invariant (n, ids) == Count(expr[..i])
    {
      assert expr[..i + 1][..i] == expr[..i];
      CountIsExact(expr[..i]);
      if expr[i].Bool? {
        var present := BoolPresent(expr[i].b, ids, n);
        assert n <= MAX_BOOLS ==> ids[..n] == ids;
        if !present {
          if n < MAX_BOOLS { ids := ids + [expr[i].b]; }
          n := n + 1;
        }
      }
    }
    assert expr[..|expr|] == expr;
    CountIsExact(expr);
  }

  // ---------- the truth table ----------

  /** Booleans 1..n hold assignment k, the others are as they were. */
  ghost predicate Holds(now: seq<bool>, before: seq<bool>, ids: seq<nat>, k: nat) {
    && |now| == |before|
    && forall b | 1 <= b <= |now| :: now[b - 1] == if b in ids then Under(ids, k)(b) else before[b - 1]
  }

  ghost predicate Ranged(ids: seq<nat>, n: nat) {
    Distinct(ids) && forall i | 0 <= i < |ids| :: 1 <= ids[i] <= n
  }

  method SetBits(ids: seq<nat>, k: nat, state: array<bool>, ghost before: seq<bool>)
    requires Ranged(ids, state.Length) && |before| == state.Length
    requires forall i | 0 <= i < state.Length && i + 1 !in ids :: state[i] == before[i]
    modifies state
    ensures Holds(state[..], before, ids, k)
  {
    for j := 0 to |ids|
      invariant forall i | 0 <= i < state.Length && i + 1 !in ids :: state[i] == before[i]
      invariant forall i | 0 <= i < j :: state[ids[i] - 1] == Bit(k, i)
    {
      state[ids[j] - 1] := Bit(k, j);
    }
    forall b | 1 <= b <= state.Length && b in ids ensures state[b - 1] == Under(ids, k)(b) {
      var i := IndexOf(ids, b);
      assert state[ids[i] - 1] == Bit(k, i);
    }
  }

  lemma HoldsEvaluates(expr: Postfix, now: seq<bool>, before: seq<bool>, ids: seq<nat>, k: nat)
    requires ids == Ids(expr) && InRange(expr, |now|) && Holds(now, before, ids, k)
    ensures Eval(expr, View(now)) == Eval(expr, Under(ids, k))
  {
    IdsExact(expr);
    forall b | b in Ids(expr) ensures View(now)(b) == Under(ids, k)(b) {
      var i :| 0 <= i < |expr| && expr[i] == Bool(b);
    }
    EvalAgrees(expr, View(now), Under(ids, k));
  }

  lemma IdsRanged(expr: Postfix, n: nat)
    requires InRange(expr, n)
    ensures Ranged(Ids(expr), n)
  {
    IdsExact(expr);
    forall i | 0 <= i < |Ids(expr)| ensures 1 <= Ids(expr)[i] <= n {
      assert Ids(expr)[i] in Ids(expr);
      var j :| 0 <= j < |expr| && expr[j] == Bool(Ids(expr)[i]);
    }
  }

  method SaveStates(ids: seq<nat>, state: array<bool>) returns (saved: seq<bool>)
    requires Ranged(ids, state.Length)
    ensures |saved| == |ids| && forall i | 0 <= i < |ids| :: saved[i] == state[ids[i] - 1]
  {
    saved := [];
    for i := 0 to |ids|
      invariant |saved| == i && forall h | 0 <= h < i :: saved[h] == state[ids[h] - 1]
    {
      saved := saved + [state[ids[i] - 1]];
    }
  }

  method RestoreStates(ids: seq<nat>, saved: seq<bool>, state: array<bool>, ghost before: seq<bool>)
    requires Ranged(ids, state.Length) && |saved| == |ids| && |before| == state.Length
    requires forall i | 0 <= i < |ids| :: saved[i] == before[ids[i] - 1]
    requires forall i | 0 <= i < state.Length && i + 1 !in ids :: state[i] == before[i]
    modifies state
    ensures state[..] == before
  {
    for i := 0 to |ids|
      invariant forall h | 0 <= h < state.Length && h + 1 !in ids[i..] :: state[h] == before[h]
    {
      forall h | 0 <= h < state.Length && h + 1 !in ids[i + 1..] && h + 1 != ids[i]
        ensures state[h] == before[h]
      {
        assert ids[i..] == [ids[i]] + ids[i + 1..];
      }
      state[ids[i] - 1] := saved[i];
    }
  }

  /** Evaluates under assignment k. */
  method TryAssignment(expr: Postfix, ids: seq<nat>, k: nat, state: array<bool>, ghost before: seq<bool>)
    returns (r: int)
    requires ids == Ids(expr) && InRange(expr, state.Length) && |before| == state.Length
    requires forall i | 0 <= i < state.Length && i + 1 !in ids :: state[i] == before[i]
    modifies state
    ensures Holds(state[..], before, ids, k)
    ensures r == Eval(expr, Under(ids, k))
  {
    IdsRanged(expr, state.Length);
    SetBits(ids, k, state, before);
    HoldsEvaluates(expr, state[..], before, ids, k);
    r := EvaluateExpr(expr, state);
  }

  /** Fills the table by trying every assignment on the live states, and puts the states
      back. An undefined expression shows at the first try, and the states are then left
      with every listed boolean false. */
  method Precompute(expr: Postfix, ids: seq<nat>, state: array<bool>) returns (ok: bool, table: set<nat>)
    requires ids == Ids(expr) && InRange(expr, state.Length)
    modifies state
    ensures ok <==> Eval(expr, View(old(state[..]))) != -1
    ensures ok ==> table == Table(expr, ids) && state[..] == old(state[..])
    ensures !ok ==> table == {} && Holds(state[..], old(state[..]), ids, 0)
  {
    ghost var before := state[..];
    IdsRanged(expr, state.Length);
    var saved := SaveStates(ids, state);
    table := {};
    var test := 0;
    while test < Pow2(|ids|)
      invariant test <= Pow2(|ids|)
      invariant forall i | 0 <= i < state.Length && i + 1 !in ids :: state[i] == before[i]
      invariant test > 0 ==> Eval(expr, View(before)) != -1
      invariant table == set k: nat | 0 <= k < test && Eval(expr, Under(ids, k)) == 1 :: k
      decreases Pow2(|ids|) - test
    {
      var k := TryAssignment(expr, ids, test, state, before);
      UndefinedForAll(expr, View(before), Under(ids, test));
      if k == -1 { return false, {}; }
      if k != 0 { table := table + {test}; }
      test := test + 1;
    }
    RestoreStates(ids, saved, state, before);
    ok := true;
  }

  // ---------- normalising ----------

  predicate EndsInNot(expr: Postfix) {
    expr != [] && expr[|expr| - 1].Not?
  }

  /** A closing Not is dropped; the rule lists change places in its stead. */
  function Stripped(expr: Postfix): Postfix {
    if EndsInNot(expr) then expr[..|expr| - 1] else expr
  }

  method StripNot(cn: Cond) returns (ok: bool)
    requires cn.expr != []
    modifies cn
    ensures cn.nbools == 0 && cn.boolIds == [] && cn.preComp == {}
    ensures ok <==> old(cn.expr) != [Not]
    ensures cn.expr == if ok then Stripped(old(cn.expr)) else old(cn.expr)
    ensures cn.expr != []
    ensures ok && EndsInNot(old(cn.expr)) ==>
      && cn.trueList == old(cn.falseList) && cn.falseList == old(cn.trueList)
      && cn.avTrue == old(cn.avFalse) && cn.avFalse == old(cn.avTrue)
    ensures !(ok && EndsInNot(old(cn.expr))) ==>
      && cn.trueList == old(cn.trueList) && cn.falseList == old(cn.falseList)
      && cn.avTrue == old(cn.avTrue) && cn.avFalse == old(cn.avFalse)
  {
    cn.nbools, cn.boolIds, cn.preComp := 0, [], {};
    var last := |cn.expr| - 1;
    if cn.expr[last].Not? {
      if last == 0 { return false; }
      cn.expr := cn.expr[..last];
      cn.trueList, cn.falseList := cn.falseList, cn.trueList;
      cn.avTrue, cn.avFalse := cn.avFalse, cn.avTrue;
    }
    ok := true;
  }

  /** What a normalised node says of itself. */
  ghost predicate Normalised(cn: Cond)
    reads cn
  {
    && (cn.nbools, cn.boolIds) == Count(cn.expr)
    && cn.preComp == (if cn.nbools <= MAX_BOOLS then Table(cn.expr, cn.boolIds) else {})
  }

  /** Fails on a lone Not and on a short expression without a value. */
  predicate Accepts(expr: Postfix, s: Assignment) {
    expr != [Not] && (|Ids(Stripped(expr))| <= MAX_BOOLS ==> Eval(Stripped(expr), s) != -1)
  }

  method NormalizeExpr(cn: Cond, state: array<bool>) returns (ok: bool)
    requires cn.expr != [] && InRange(cn.expr, state.Length)
    modifies cn, state
    ensures ok <==> Accepts(old(cn.expr), View(old(state[..])))
    ensures ok ==> Normalised(cn) && cn.expr == Stripped(old(cn.expr))
    ensures ok ==> state[..] == old(state[..])
    ensures ok && EndsInNot(old(cn.expr)) ==>
      && cn.trueList == old(cn.falseList) && cn.falseList == old(cn.trueList)
      && cn.avTrue == old(cn.avFalse) && cn.avFalse == old(cn.avTrue)
    ensures ok && !EndsInNot(old(cn.expr)) ==>
      && cn.trueList == old(cn.trueList) && cn.falseList == old(cn.falseList)
      && cn.avTrue == old(cn.avTrue) && cn.avFalse == old(cn.avFalse)
    ensures !ok && old(cn.expr) == [Not] ==> state[..] == old(state[..])
    ensures !ok && old(cn.expr) != [Not] ==> Holds(state[..], old(state[..]), Ids(cn.expr), 0)
  {
    ok := StripNot(cn);
    if !ok { return; }
    cn.nbools, cn.boolIds := CountBools(cn.expr);
    if cn.nbools <= MAX_BOOLS {
      ok, cn.preComp := Precompute(cn.expr, cn.boolIds, state);
    }
  }

  // ---------- what normalising keeps ----------

  /** The rule list a value selects: 1 the true list, 0 the false list, -1 none. */
  function Chosen(v: int, t: seq<nat>, f: seq<nat>): Option<seq<nat>> {
    if v == 1 then Some(t) else if v == 0 then Some(f) else None
  }

  /** The values left on the stack at the end of a run, 0 if the run breaks off. */
  function Remaining(expr: Postfix, s: Assignment): nat {
    var r := Run(expr, [], s);
    if r.None? then 0 else |r.value|
  }

  lemma {:induction false} StaysNonEmpty(expr: Postfix, stack: seq<bool>, s: Assignment)
    requires Run(expr, stack, s).Some? && (expr != [] || stack != [])
    ensures Run(expr, stack, s).value != []
  {
    if expr != [] {
      var next := Step(expr[0], stack, s).value;
      StaysNonEmpty(expr[1..], next, s);
    }
  }

  lemma EvalStripped(expr: Postfix, s: Assignment)
    requires EndsInNot(expr) && expr != [Not]
    ensures Remaining(expr, s) == Remaining(Stripped(expr), s)
    ensures Eval(expr, s) == -1 <==> Eval(Stripped(expr), s) == -1
    ensures Eval(expr, s) != -1 ==>
      (Eval(expr, s) == 1 - Eval(Stripped(expr), s) <==> Remaining(expr, s) == 1)
    ensures Eval(expr, s) != -1 ==>
      (Eval(expr, s) == Eval(Stripped(expr), s) <==> Remaining(expr, s) != 1)
  {
    var e := Stripped(expr);
    assert expr == e + [Not];
    RunConcat(e, [Not], [], s);
    if Run(e, [], s).Some? {
      StaysNonEmpty(e, [], s);
      var stack := Run(e, [], s).value;
      assert [Not][1..] == [];
      assert Run([Not], stack, s) == Some(stack[..|stack| - 1] + [!stack[|stack| - 1]]);
    }
  }

  /** An accepted expression selects the same list after normalising, whatever the
      assignment, except when it ends in Not and leaves more than one value behind: Not
      then acts on the top of the stack while the result is read at the bottom. */
  lemma NormalizeKeepsChoice(expr: Postfix, s: Assignment, t: seq<nat>, f: seq<nat>)
    requires expr != [] && expr != [Not] && t != f
    ensures
      var after := Eval(Stripped(expr), s);
      (if EndsInNot(expr) then Chosen(after, f, t) else Chosen(after, t, f)) == Chosen(Eval(expr, s), t, f)
      <==> !(EndsInNot(expr) && Remaining(expr, s) > 1)
  {
    if EndsInNot(expr) {
      EvalStripped(expr, s);
      if Run(expr, [], s).Some? { StaysNonEmpty(expr, [], s); }
    }
  }

  /** So on the postfix of a tree the choice is always kept. */
  lemma NormalizeKeepsTree(tree: Tree, s: Assignment, t: seq<nat>, f: seq<nat>)
    ensures Post(tree) != [] && Post(tree) != [Not]
    ensures
      var after := Eval(Stripped(Post(tree)), s);
      (if EndsInNot(Post(tree)) then Chosen(after, f, t) else Chosen(after, t, f))
      == Chosen(Eval(Post(tree), s), t, f)
  {
    RunTree(tree, [], s);
    if tree.Negate? { PostNonEmpty(tree.arg); }
    if tree.Pair? { PostNonEmpty(tree.left); }
    if t != f { NormalizeKeepsChoice(Post(tree), s, t, f); }
    else if EndsInNot(Post(tree)) { EvalStripped(Post(tree), s); }
  }

  lemma {:induction false} PostNonEmpty(tree: Tree)
    ensures Post(tree) != []
  {
  }

  // ---------- comparing ----------

  predicate SameBools(a: seq<nat>, b: seq<nat>) {
    |a| == |b| && forall i | 0 <= i < |a| :: a[i] in b
  }

  method CheckSameBools(a: Cond, b: Cond) returns (same: bool)
    requires a.nbools == |a.boolIds| && b.nbools == |b.boolIds| && a.nbools <= MAX_BOOLS
    ensures same <==> SameBools(a.boolIds, b.boolIds)
  {
    if a.nbools != b.nbools { return false; }
    for i := 0 to a.nbools
      invariant forall h | 0 <= h < i :: a.boolIds[h] in b.boolIds
    {
      var present := BoolPresent(a.boolIds[i], b.boolIds, a.nbools);
      assert b.boolIds[..a.nbools] == b.boolIds;
      if !present { return false; }
    }
    same := true;
  }

  /** The verdict of the comparison on two expressions. */
  predicate Judged(e: Postfix, f: Postfix) {
    if |Ids(e)| <= MAX_BOOLS && |Ids(f)| <= MAX_BOOLS
    then SameBools(Ids(e), Ids(f)) && Table(e, Ids(e)) == Table(f, Ids(f))
    else e == f
  }

  method SameElements(e: Postfix, f: Postfix) returns (same: bool)
    ensures same <==> e == f
  {
    var i := 0;
    while true
      invariant i <= |e| && i <= |f| && e[..i] == f[..i]
      decreases |e| - i
    {
      if i == |e| && i == |f| {
        assert e[..i] == e && f[..i] == f;
        return true;
      }
      if i == |e| || i == |f| || e[i] != f[i] { return false; }
      i := i + 1;
    }
  }

  method ExprEqual(a: Cond, b: Cond) returns (same: bool)
    requires Normalised(a) && Normalised(b)
    ensures same <==> Judged(a.expr, b.expr)
  {
    CountIsExact(a.expr);
    CountIsExact(b.expr);
    if a.nbools != b.nbools { return false; }
    if a.nbools <= MAX_BOOLS && b.nbools <= MAX_BOOLS {
      same := CheckSameBools(a, b);
      return same && a.preComp == b.preComp;
    }
    same := SameElements(a.expr, b.expr);
  }

  /** Equal values whatever the assignment. */
  /** Judging equal takes the same booleans, and beyond five of them the same elements. */
  lemma JudgedNeeds(e: Postfix, f: Postfix)
    requires Judged(e, f)
    ensures |Ids(e)| > 5 || |Ids(f)| > 5 ==> e == f
    ensures forall b :: Bool(b) in e <==> Bool(b) in f
  {
    IdsExact(e);
    IdsExact(f);
    if |Ids(e)| <= 5 && |Ids(f)| <= 5 {
      SameBoolsBack(Ids(e), Ids(f));
      forall b ensures b in Ids(e) <==> b in Ids(f) {
        if b in Ids(e) {
          var i :| 0 <= i < |Ids(e)| && Ids(e)[i] == b;
        }
      }
    }
  }

  /** Without repetitions, as many booleans that are all in the other list are all of it. */
  lemma SameBoolsBack(a: seq<nat>, b: seq<nat>)
    requires Distinct(a) && SameBools(a, b)
    ensures forall x | x in b :: x in a
  {
    ElementsAre(a);
    ElementsAre(b);
    assert Elements(a) <= Elements(b) by {
      forall x | x in Elements(a) ensures x in Elements(b) {
        var i :| 0 <= i < |a| && a[i] == x;
      }
    }
    SubsetAll(Elements(a), Elements(b));
  }

  function Elements(a: seq<nat>): set<nat> {
    if a == [] then {} else Elements(a[..|a| - 1]) + {a[|a| - 1]}
  }

  lemma {:induction false} ElementsAre(a: seq<nat>)
    ensures forall x :: x in Elements(a) <==> x in a
    ensures |Elements(a)| <= |a|
    ensures Distinct(a) ==> |Elements(a)| == |a|
  {
    if a != [] {
      var n := |a| - 1;
      ElementsAre(a[..n]);
      assert a == a[..n] + [a[n]];
      if Distinct(a) { assert a[n] !in a[..n]; }
    }
  }

  lemma SubsetAll(a: set<nat>, b: set<nat>)
    requires a <= b && |b| <= |a|
    ensures a == b
  {
    if x :| x in b && x !in a {
      assert |a + {x}| == |a| + 1;
      assert b == (a + {x}) + (b - a - {x});
    }
  }

  ghost predicate Equivalent(e: Postfix, f: Postfix) {
    forall s: Assignment :: Eval(e, s) == Eval(f, s)
  }

  ghost predicate Defined(e: Postfix) {
    forall s: Assignment :: Eval(e, s) != -1
  }

  lemma TableDecides(e: Postfix, f: Postfix, ids: seq<nat>, s: Assignment)
    requires ids == Ids(e) == Ids(f) && Defined(e) && Defined(f) && Table(e, ids) == Table(f, ids)
    ensures Eval(e, s) == Eval(f, s)
  {
    IdsExact(e);
    var k := NumberFor(ids, s);
    EvalAgrees(e, s, Under(ids, k));
    EvalAgrees(f, s, Under(ids, k));
    assert k in Table(e, ids) <==> k in Table(f, ids);
  }

  /** With the booleans recorded in the same order the comparison is exact. */
  lemma JudgedIsEquivalent(e: Postfix, f: Postfix)
    requires Ids(e) == Ids(f) && |Ids(e)| <= MAX_BOOLS && Defined(e) && Defined(f)
    ensures Judged(e, f) <==> Equivalent(e, f)
  {
    if Judged(e, f) {
      forall s: Assignment ensures Eval(e, s) == Eval(f, s) { TableDecides(e, f, Ids(e), s); }
    }
    if Equivalent(e, f) {
      assert forall k :: Eval(e, Under(Ids(e), k)) == Eval(f, Under(Ids(e), k));
    }
  }

  // ---------- why the order is needed ----------

  /** False, mentioning the given booleans in order. */
  function Falsity(ids: seq<nat>): Tree
    requires ids != []
  {
    var b := ids[|ids| - 1];
    var here := Pair(Xor, Leaf(b), Leaf(b));
    if |ids| == 1 then here else Pair(Or, Falsity(ids[..|ids| - 1]), here)
  }

  /** The boolean b, mentioning the given booleans in order first. */
  function Projection(ids: seq<nat>, b: nat): Tree
    requires ids != []
  {
    Pair(Or, Falsity(ids), Leaf(b))
  }

  lemma IdsSnoc(e: Postfix, x: Elem)
    ensures Ids(e + [x]) == if x.Bool? && x.b !in Ids(e) then Ids(e) + [x.b] else Ids(e)
  {
    assert (e + [x])[..|e|] == e;
  }

  lemma IdsMention(e: Postfix, b: nat)
    ensures Ids(e + [Bool(b), Bool(b), Binary(Xor)]) == if b in Ids(e) then Ids(e) else Ids(e) + [b]
  {
    IdsSnoc(e, Bool(b));
    IdsSnoc(e + [Bool(b)], Bool(b));
    IdsSnoc(e + [Bool(b)] + [Bool(b)], Binary(Xor));
    assert e + [Bool(b), Bool(b), Binary(Xor)] == e + [Bool(b)] + [Bool(b)] + [Binary(Xor)];
  }

  lemma {:induction false} FalsityIsFalse(ids: seq<nat>, s: Assignment)
    requires ids != [] && Distinct(ids)
    ensures Ids(Post(Falsity(ids))) == ids && !Value(Falsity(ids), s) && Height(Falsity(ids)) <= 3
  {
    var n := |ids| - 1;
    var b := ids[n];
    var mention := [Bool(b), Bool(b), Binary(Xor)];
    assert Post(Pair(Xor, Leaf(b), Leaf(b))) == mention;
    if n == 0 {
      IdsMention([], b);
      assert [] + mention == mention;
      assert ids == [b];
    } else {
      FalsityIsFalse(ids[..n], s);
      FalsityStep(Falsity(ids[..n]), b, s);
      assert ids == ids[..n] + [b];
    }
  }

  lemma FalsityStep(u: Tree, b: nat, s: Assignment)
    ensures
      var t := Pair(Or, u, Pair(Xor, Leaf(b), Leaf(b)));
      && Ids(Post(t)) == (if b in Ids(Post(u)) then Ids(Post(u)) else Ids(Post(u)) + [b])
      && Value(t, s) == Value(u, s)
      && (Height(u) <= 3 ==> Height(t) <= 3)
  {
    var here := Pair(Xor, Leaf(b), Leaf(b));
    assert Post(here) == [Bool(b), Bool(b), Binary(Xor)];
    assert Height(Leaf(b)) == 1 && Value(Leaf(b), s) == s(b);
    assert Height(here) == 2 && !Value(here, s);
    IdsMention(Post(u), b);
    IdsSnoc(Post(u) + Post(here), Binary(Or));
  }

  lemma ProjectionIsBool(ids: seq<nat>, b: nat, s: Assignment)
    requires Distinct(ids) && b in ids
    ensures Ids(Post(Projection(ids, b))) == ids
    ensures Eval(Post(Projection(ids, b)), s) == if s(b) then 1 else 0
  {
    FalsityIsFalse(ids, s);
    var e := Post(Falsity(ids));
    IdsSnoc(e, Bool(b));
    IdsSnoc(e + [Bool(b)], Binary(Or));
    assert Post(Projection(ids, b)) == e + [Bool(b)] + [Binary(Or)];
    EvalTree(Projection(ids, b), s);
  }

  /** The comparison is right for every two expressions with these recorded booleans. */
  ghost predicate ReliableFor(a: seq<nat>, b: seq<nat>) {
    forall e, f | Ids(e) == a && Ids(f) == b && Defined(e) && Defined(f) ::
      Judged(e, f) <==> Equivalent(e, f)
  }

  /** At the first difference of the orders, each side's own boolean gives the same table. */
  lemma Misjudged(a: seq<nat>, b: seq<nat>, i: nat)
    requires Distinct(a) && Distinct(b) && |a| <= MAX_BOOLS && SameBools(a, b)
    requires i < |a| && a[i] != b[i]
    ensures !ReliableFor(a, b)
  {
    var e, f := Post(Projection(a, a[i])), Post(Projection(b, b[i]));
    forall s: Assignment
      ensures Ids(e) == a && Ids(f) == b
      ensures Eval(e, s) == (if s(a[i]) then 1 else 0) && Eval(f, s) == (if s(b[i]) then 1 else 0)
    {
      ProjectionIsBool(a, a[i], s);
      ProjectionIsBool(b, b[i], s);
    }
    IndexUnique(a, i);
    IndexUnique(b, i);
    var only: Assignment := x => x == a[i];
    assert only(a[i]) && !only(b[i]);
    ProjectionIsBool(a, a[i], only);
    ProjectionIsBool(b, b[i], only);
    assert Ids(e) == a && Ids(f) == b && Eval(e, only) == 1 && Eval(f, only) == 0;
    forall k: nat ensures Eval(e, Under(a, k)) == Eval(f, Under(b, k)) {
      assert Under(a, k)(a[i]) == Bit(k, i) == Under(b, k)(b[i]);
    }
    assert Table(e, a) == Table(f, b);
    assert Judged(e, f) && !Equivalent(e, f);
    assert Defined(e) && Defined(f);
  }

  /** Comparing the booleans as sets is not enough: for two orders of the same booleans the
      comparison can be trusted exactly when the orders are equal. */
  lemma OrderDecides(a: seq<nat>, b: seq<nat>)
    requires Distinct(a) && Distinct(b) && |a| <= MAX_BOOLS && SameBools(a, b)
    ensures ReliableFor(a, b) <==> a == b
  {
    if a == b {
      forall e, f | Ids(e) == a && Ids(f) == b && Defined(e) && Defined(f)
        ensures Judged(e, f) <==> Equivalent(e, f)
      {
        JudgedIsEquivalent(e, f);
      }
    } else {
      var i: nat :| i < |a| && a[i] != b[i];
      Misjudged(a, b, i);
    }
  }

  /** x && !y. */
  function Without(x: nat, y: nat): Tree {
    Pair(And, Leaf(x), Negate(Leaf(y)))
  }

  lemma WithoutIds(x: nat, y: nat)
    requires x != y
    ensures Ids(Post(Without(x, y))) == [x, y]
  {
    IdsSnoc([], Bool(x));
    IdsSnoc([Bool(x)], Bool(y));
    IdsSnoc([Bool(x)] + [Bool(y)], Not);
    IdsSnoc([Bool(x)] + [Bool(y)] + [Not], Binary(And));
    assert Post(Negate(Leaf(y))) == Post(Leaf(y)) + [Not] == [Bool(y)] + [Not];
    assert Post(Leaf(x)) == [Bool(x)];
    assert Post(Without(x, y)) == [Bool(x)] + [Bool(y)] + [Not] + [Binary(And)];
    assert [] + [Bool(x)] == [Bool(x)];
  }

  lemma WithoutUnder(x: nat, y: nat, k: nat)
    requires x != y
    ensures Eval(Post(Without(x, y)), Under([x, y], k)) == if Bit(k, 0) && !Bit(k, 1) then 1 else 0
  {
    var s := Under([x, y], k);
    EvalTree(Without(x, y), s);
    assert Value(Negate(Leaf(y)), s) == !Value(Leaf(y), s) && Value(Leaf(y), s) == s(y);
    assert Value(Leaf(x), s) == s(x);
    assert Height(Leaf(x)) == 1 == Height(Leaf(y)) && Height(Negate(Leaf(y))) == 1;
    IndexUnique([x, y], 0);
    IndexUnique([x, y], 1);
  }

  /** A plain case: x && !y and y && !x are judged equal, and are not. */
  lemma OrderExample(x: nat, y: nat)
    requires x != y
    ensures Judged(Post(Without(x, y)), Post(Without(y, x)))
    ensures !Equivalent(Post(Without(x, y)), Post(Without(y, x)))
  {
    var e, f := Post(Without(x, y)), Post(Without(y, x));
    WithoutIds(x, y);
    WithoutIds(y, x);
    forall k: nat ensures Eval(e, Under([x, y], k)) == Eval(f, Under([y, x], k)) {
      WithoutUnder(x, y, k);
      WithoutUnder(y, x, k);
    }
    var only: Assignment := b => b == x;
    EvalTree(Without(x, y), only);
    EvalTree(Without(y, x), only);
    assert Eval(e, only) == 1 && Eval(f, only) == 0;
  }
}
