/** Conditional expressions: lists in reverse Polish notation, run on a bounded stack. */
module CondExpr {
  import opened Wrappers

  datatype BinaryOp = Or | And | Xor | Eq | Neq

  /** One list element; Other is an expression type that is none of these. */
  datatype Elem = Bool(b: nat) | Not | Binary(op: BinaryOp) | Other(code: nat)

  type Postfix = seq<Elem>

  const MAX_DEPTH: nat := 10

  /** The state of each boolean, by its value. */
  type Assignment = nat -> bool

  function Apply(op: BinaryOp, x: bool, y: bool): bool {
    match op
    case Or => x || y
    case And => x && y
    case Xor => x != y
    case Eq => x == y
    case Neq => x != y
  }

  // ---------- the stack machine ----------

  /** One element's effect on the stack; None is "undefined". */
  function Step(e: Elem, stack: seq<bool>, s: Assignment): Option<seq<bool>> {
    var n := |stack|;
    match e
    case Bool(b) => if n == MAX_DEPTH then None else Some(stack + [s(b)])
    case Not => if n < 1 then None else Some(stack[..n - 1] + [!stack[n - 1]])
    case Binary(op) => if n < 2 then None else Some(stack[..n - 2] + [Apply(op, stack[n - 2], stack[n - 1])])
    case Other(_) => None
  }

  function Run(expr: Postfix, stack: seq<bool>, s: Assignment): Option<seq<bool>> {
    if expr == [] then Some(stack)
    else
      var next := Step(expr[0], stack, s);
      if next.None? then None else Run(expr[1..], next.value, s)
  }

  /** The result: the bottom of the stack, or -1 when the run breaks off or the list is
      empty. What lies above the bottom is not looked at. */
  function Eval(expr: Postfix, s: Assignment): (v: int)
    ensures -1 <= v <= 1
  {
    var r := Run(expr, [], s);
    if r.None? || r.value == [] then -1 else if r.value[0] then 1 else 0
  }

  lemma {:induction false} RunConcat(e: Postfix, f: Postfix, stack: seq<bool>, s: Assignment)
    ensures Run(e + f, stack, s) ==
            var r := Run(e, stack, s); if r.None? then None else Run(f, r.value, s)
  {
    if e == [] {
      assert e + f == f;
    } else {
      assert (e + f)[1..] == e[1..] + f;
      var next := Step(e[0], stack, s);
      if next.Some? { RunConcat(e[1..], f, next.value, s); }
    }
  }

  /** The booleans an array of states assigns; value b is at index b - 1. */
  function View(state: seq<bool>): Assignment {
    b => if 1 <= b <= |state| then state[b - 1] else false
  }

  predicate InRange(expr: Postfix, n: nat) {
    forall i | 0 <= i < |expr| && expr[i].Bool? :: 1 <= expr[i].b <= n
  }

  lemma RunStep(expr: Postfix, i: nat, stack: seq<bool>, s: Assignment)
    requires i < |expr|
    ensures Run(expr[i..], stack, s) ==
            var next := Step(expr[i], stack, s); if next.None? then None else Run(expr[i + 1..], next.value, s)
  {
    assert expr[i..][1..] == expr[i + 1..];
  }

  /** One element on the array of the stack; sp is the index of its top. */
  method EvaluateElem(e: Elem, state: array<bool>, stack: array<bool>, sp: int) returns (ok: bool, sp': int)
    requires e.Bool? ==> 1 <= e.b <= state.Length
    requires state != stack && stack.Length == MAX_DEPTH && -1 <= sp < MAX_DEPTH
    modifies stack
    ensures ok <==> Step(e, old(stack[..sp + 1]), View(state[..])).Some?
    ensures -1 <= sp' < MAX_DEPTH
    ensures ok ==> stack[..sp' + 1] == Step(e, old(stack[..sp + 1]), View(state[..])).value
  {
    ok, sp' := false, sp;
    match e {
      case Bool(b) =>
        if sp == MAX_DEPTH - 1 { return; }
        sp' := sp + 1;
        stack[sp'] := state[b - 1];
      case Not =>
        if sp < 0 { return; }
        stack[sp] := !stack[sp];
      case Binary(op) =>
        if sp < 1 { return; }
        sp' := sp - 1;
        stack[sp'] := Apply(op, stack[sp'], stack[sp' + 1]);
      case Other(_) => return;
    }
    ok := true;
  }

  /** Evaluates on a fixed array with a stack pointer. */
  method EvaluateExpr(expr: Postfix, state: array<bool>) returns (r: int)
    requires InRange(expr, state.Length)
    ensures r == Eval(expr, View(state[..]))
  {
    ghost var s := View(state[..]);
    var stack := new bool[MAX_DEPTH];
    var sp: int := -1;
    assert expr[0..] == expr && stack[..0] == [];
    for i := 0 to |expr|
      invariant -1 <= sp < MAX_DEPTH
      invariant Run(expr, [], s) == Run(expr[i..], stack[..sp + 1], s)
      invariant fresh(stack) && state[..] == old(state[..])
    {
      RunStep(expr, i, stack[..sp + 1], s);
      var ok;
      ok, sp := EvaluateElem(expr[i], state, stack, sp);
      if !ok { return -1; }
    }
    assert expr[|expr|..] == [];
    r := if sp < 0 then -1 else if stack[0] then 1 else 0;
  }

  // ---------- expression trees ----------

  datatype Tree = Leaf(b: nat) | Negate(arg: Tree) | Pair(op: BinaryOp, left: Tree, right: Tree)

  function Post(t: Tree): Postfix {
    match t
    case Leaf(b) => [Bool(b)]
    case Negate(u) => Post(u) + [Not]
    case Pair(op, l, r) => Post(l) + Post(r) + [Binary(op)]
  }

  function Value(t: Tree, s: Assignment): bool {
    match t
    case Leaf(b) => s(b)
    case Negate(u) => !Value(u, s)
    case Pair(op, l, r) => Apply(op, Value(l, s), Value(r, s))
  }

  /** The stack space a tree needs. */
  function Height(t: Tree): (h: nat)
    ensures h >= 1
  {
    match t
    case Leaf(_) => 1
    case Negate(u) => Height(u)
    case Pair(_, l, r) => if Height(l) >= Height(r) + 1 then Height(l) else Height(r) + 1
  }

  lemma RunBinary(op: BinaryOp, stack: seq<bool>, x: bool, y: bool, s: Assignment)
    ensures Run([Binary(op)], stack + [x] + [y], s) == Some(stack + [Apply(op, x, y)])
  {
    var full := stack + [x] + [y];
    assert full[..|full| - 2] == stack && full[|full| - 2] == x && full[|full| - 1] == y;
    assert Step(Binary(op), full, s) == Some(stack + [Apply(op, x, y)]);
    assert [Binary(op)][1..] == [];
  }

  /** Running the postfix of a tree pushes the tree's value, if there is room for it. */
  lemma {:induction false} RunTree(t: Tree, stack: seq<bool>, s: Assignment)
    requires |stack| <= MAX_DEPTH
    ensures Run(Post(t), stack, s) ==
            if |stack| + Height(t) <= MAX_DEPTH then Some(stack + [Value(t, s)]) else None
  {
    match t
    case Leaf(b) =>
    case Negate(u) =>
      RunConcat(Post(u), [Not], stack, s);
      RunTree(u, stack, s);
    case Pair(op, l, r) =>
      RunConcat(Post(l) + Post(r), [Binary(op)], stack, s);
      RunConcat(Post(l), Post(r), stack, s);
      RunTree(l, stack, s);
      if |stack| + Height(l) <= MAX_DEPTH {
        var under := stack + [Value(l, s)];
        RunTree(r, under, s);
        if |under| + Height(r) <= MAX_DEPTH {
          RunBinary(op, stack, Value(l, s), Value(r, s), s);
        }
      }
  }

  /** Evaluation gives the tree's value exactly when the stack is deep enough. */
  lemma EvalTree(t: Tree, s: Assignment)
    ensures Eval(Post(t), s) == if Height(t) > 10 then -1 else if Value(t, s) then 1 else 0
  {
    RunTree(t, [], s);
  }

  // ---------- what the lists mean ----------

  /** A boolean is its state. */
  lemma EvalBool(b: nat, s: Assignment)
    ensures Eval([Bool(b)], s) == 1 <==> s(b)
    ensures Eval([Bool(b)], s) == 0 <==> !s(b)
  {
    EvalTree(Leaf(b), s);
  }

  lemma EvalNot(u: Tree, s: Assignment)
    requires Eval(Post(u), s) != -1
    ensures Eval(Post(u) + [Not], s) == 1 <==> Eval(Post(u), s) == 0
    ensures Eval(Post(u) + [Not], s) == 0 <==> Eval(Post(u), s) == 1
  {
    EvalTree(u, s);
    EvalTree(Negate(u), s);
  }

  /** Each operator between two expressions, if the stack is deep enough for the whole. */
  lemma EvalOperator(op: BinaryOp, l: Tree, r: Tree, s: Assignment)
    requires Eval(Post(l) + Post(r) + [Binary(op)], s) != -1
    ensures Eval(Post(l), s) != -1 && Eval(Post(r), s) != -1
    ensures var both, x, y := Eval(Post(l) + Post(r) + [Binary(op)], s), Eval(Post(l), s), Eval(Post(r), s);
            && (op == Or ==> (both == 1 <==> x == 1 || y == 1))
            && (op == And ==> (both == 1 <==> x == 1 && y == 1))
            && (op == Xor ==> (both == 1 <==> x != y))
            && (op == Eq ==> (both == 1 <==> x == y))
            && (op == Neq ==> (both == 1 <==> x != y))
  {
    EvalTree(l, s);
    EvalTree(r, s);
    EvalTree(Pair(op, l, r), s);
    assert Post(Pair(op, l, r)) == Post(l) + Post(r) + [Binary(op)];
  }

  /** Whether the stack is deep enough for a pair does not depend on the operator. */
  lemma OperatorsFitAlike(op: BinaryOp, op': BinaryOp, l: Tree, r: Tree, s: Assignment)
    ensures Eval(Post(l) + Post(r) + [Binary(op)], s) == -1 <==> Eval(Post(l) + Post(r) + [Binary(op')], s) == -1
  {
    EvalTree(Pair(op, l, r), s);
    EvalTree(Pair(op', l, r), s);
  }

  /** Of several values left behind, the first one counts. */
  lemma EvalBottom(l: Tree, r: Tree, s: Assignment)
    requires Height(l) <= 10 && Height(r) <= 9
    ensures Eval(Post(l) + Post(r), s) == Eval(Post(l), s) != -1
  {
    RunConcat(Post(l), Post(r), [], s);
    RunTree(l, [], s);
    var under := [] + [Value(l, s)];
    RunTree(r, under, s);
    assert Run(Post(l) + Post(r), [], s) == Some(under + [Value(r, s)]);
    EvalTree(l, s);
  }

  /** An operator without its operands, or an element of an unknown type, leaves the value
      undefined, whatever follows. */
  lemma EvalBreaks(op: BinaryOp, code: nat, t: Tree, e: Postfix, s: Assignment)
    ensures Eval([Not] + e, s) == Eval([Binary(op)] + e, s) == Eval([Other(code)] + e, s) == -1
    ensures Eval(Post(t) + [Binary(op)] + e, s) == -1
    ensures Eval([], s) == -1
  {
    forall x | x in [Not, Binary(op), Other(code)] ensures Eval([x] + e, s) == -1 {
      assert ([x] + e)[0] == x;
    }
    RunConcat(Post(t) + [Binary(op)], e, [], s);
    RunConcat(Post(t), [Binary(op)], [], s);
    RunTree(t, [], s);
    assert [Binary(op)][0] == Binary(op);
  }

  // ---------- which booleans matter ----------

  /** The booleans of a list in order of first appearance. */
  function Ids(expr: Postfix): seq<nat> {
    if expr == [] then []
    else
      var ids, e := Ids(expr[..|expr| - 1]), expr[|expr| - 1];
      if e.Bool? && e.b !in ids then ids + [e.b] else ids
  }

  lemma {:induction false} IdsExact(expr: Postfix)
    ensures forall b :: b in Ids(expr) <==> Bool(b) in expr
    ensures forall i, j | 0 <= i < j < |Ids(expr)| :: Ids(expr)[i] != Ids(expr)[j]
  {
    if expr != [] {
      var n := |expr| - 1;
      IdsExact(expr[..n]);
      assert expr == expr[..n] + [expr[n]];
    }
  }

  /** Assignments that agree on the booleans of a list run it alike; and whether the run
      breaks off does not depend on the assignment at all. */
  lemma {:induction false} RunAgrees(expr: Postfix, stack: seq<bool>, s: Assignment, s': Assignment)
    requires forall b | Bool(b) in expr :: s(b) == s'(b)
    ensures Run(expr, stack, s) == Run(expr, stack, s')
  {
    if expr != [] {
      var next := Step(expr[0], stack, s);
      assert Step(expr[0], stack, s') == next;
      if next.Some? { RunAgrees(expr[1..], next.value, s, s'); }
    }
  }

  lemma {:induction false} RunBreaksAlike(expr: Postfix, stack: seq<bool>, stack': seq<bool>, s: Assignment,
                                          s': Assignment)
    requires |stack| == |stack'|
    ensures Run(expr, stack, s).None? <==> Run(expr, stack', s').None?
    ensures Run(expr, stack, s).Some? ==> |Run(expr, stack, s).value| == |Run(expr, stack', s').value|
  {
    if expr != [] {
      var next, next' := Step(expr[0], stack, s), Step(expr[0], stack', s');
      if next.Some? { RunBreaksAlike(expr[1..], next.value, next'.value, s, s'); }
    }
  }

  lemma EvalAgrees(expr: Postfix, s: Assignment, s': Assignment)
    requires forall b | b in Ids(expr) :: s(b) == s'(b)
    ensures Eval(expr, s) == Eval(expr, s')
  {
    IdsExact(expr);
    RunAgrees(expr, [], s, s');
  }

  lemma UndefinedForAll(expr: Postfix, s: Assignment, s': Assignment)
    ensures Eval(expr, s) == -1 <==> Eval(expr, s') == -1
  {
    RunBreaksAlike(expr, [], [], s, s');
  }
}
