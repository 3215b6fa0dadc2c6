/** Translating a conditional's postfix list to CIL's prefix text. */
module CondToCil {
  import opened Wrappers
  import opened CondExpr

  const STACK_SIZE: nat := 16

  /** A stack of texts that doubles its space when full. */
  class Stack {
    var elems: array<string>
    var pos: int

    ghost predicate Valid() reads this {
      -1 <= pos < elems.Length && elems.Length > 0
    }

    ghost function Contents(): seq<string>
      requires Valid()
      reads this, elems
    {
      elems[..pos + 1]
    }

    constructor ()
      ensures Valid() && fresh(elems) && Contents() == []
    {
      elems := new string[STACK_SIZE];
      pos := -1;
    }

    method Grow()
      requires Valid()
      modifies this
      ensures Valid() && fresh(elems) && elems.Length == 2 * old(elems.Length)
      ensures Contents() == old(Contents())
    {
      var full := elems;
      var more := new string[2 * full.Length];
      for i := 0 to full.Length
        invariant elems == full && Valid() && pos == old(pos) && full[..] == old(elems[..])
        invariant more[..i] == full[..i]
      {
        more[i] := full[i];
      }
      assert more[..pos + 1] == more[..full.Length][..pos + 1] == full[..pos + 1];
      elems := more;
    }

    method Push(text: string)
      requires Valid()
      modifies this, elems
      ensures Valid() && (elems == old(elems) || fresh(elems))
      ensures Contents() == old(Contents()) + [text]
    {
      if pos + 1 == elems.Length { Grow(); }
      pos := pos + 1;
      elems[pos] := text;
      assert elems[..pos + 1] == elems[..pos] + [text];
    }

    method Pop() returns (top: Option<string>)
      requires Valid()
      modifies this
      ensures Valid() && elems == old(elems)
      ensures old(Contents()) == [] ==> top == None && Contents() == []
      ensures old(Contents()) != [] ==> top.Some? && old(Contents()) == Contents() + [top.value]
    {
      if pos == -1 { return None; }
      pos := pos - 1;
      top := Some(elems[pos + 1]);
    }

    method Peek() returns (top: Option<string>)
      requires Valid()
      ensures Contents() == [] ==> top == None
      ensures Contents() != [] ==> top == Some(Contents()[|Contents()| - 1])
    {
      top := if pos == -1 then None else Some(elems[pos]);
    }
  }

  // ---------- what is printed ----------

  function OpName(op: BinaryOp): string {
    match op
    case Or => "or"
    case And => "and"
    case Xor => "xor"
    case Eq => "eq"
    case Neq => "neq"
  }

  function Unary(x: string): string {
    "(" + "not" + " " + x + ")"
  }

  function Infix(op: BinaryOp, x: string, y: string): string {
    "(" + OpName(op) + " " + x + " " + y + ")"
  }

  /** A tree in prefix form. */
  function Text(t: Tree, names: seq<string>): string {
    match t
    case Leaf(b) => if 1 <= b <= |names| then "(" + names[b - 1] + ")" else "()"
    case Negate(u) => Unary(Text(u, names))
    case Pair(op, l, r) => Infix(op, Text(l, names), Text(r, names))
  }

  // ---------- reading postfix back into trees ----------

  function Build(e: Elem, trees: seq<Tree>): Option<seq<Tree>> {
    var n := |trees|;
    match e
    case Bool(b) => Some(trees + [Leaf(b)])
    case Not => if n < 1 then None else Some(trees[..n - 1] + [Negate(trees[n - 1])])
    case Binary(op) => if n < 2 then None else Some(trees[..n - 2] + [Pair(op, trees[n - 2], trees[n - 1])])
    case Other(_) => None
  }

  function BuildAll(expr: Postfix): Option<seq<Tree>> {
    if expr == [] then Some([])
    else
      var under := BuildAll(expr[..|expr| - 1]);
      if under.None? then None else Build(expr[|expr| - 1], under.value)
  }

  function PostAll(trees: seq<Tree>): Postfix {
    if trees == [] then [] else PostAll(trees[..|trees| - 1]) + Post(trees[|trees| - 1])
  }

  lemma PostAllSnoc(trees: seq<Tree>, t: Tree)
    ensures PostAll(trees + [t]) == PostAll(trees) + Post(t)
  {
    assert (trees + [t])[..|trees|] == trees;
  }

  /** What was built is what was read. */
  lemma {:induction false} BuildReads(expr: Postfix)
    requires BuildAll(expr).Some?
    ensures PostAll(BuildAll(expr).value) == expr
  {
    if expr == [] { return; }
    var n := |expr| - 1;
    var trees := BuildAll(expr[..n]).value;
    BuildReads(expr[..n]);
    assert expr == expr[..n] + [expr[n]];
    BuildOne(expr[n], trees);
  }

  lemma BuildOne(e: Elem, trees: seq<Tree>)
    requires Build(e, trees).Some?
    ensures PostAll(Build(e, trees).value) == PostAll(trees) + [e]
  {
    var n := |trees|;
    match e
    case Bool(b) => PostAllSnoc(trees, Leaf(b));
    case Not =>
      assert trees == trees[..n - 1] + [trees[n - 1]];
      PostAllSnoc(trees[..n - 1], trees[n - 1]);
      PostAllSnoc(trees[..n - 1], Negate(trees[n - 1]));
    case Binary(op) =>
      var l, r, under := trees[n - 2], trees[n - 1], trees[..n - 2];
      assert trees == under + [l] + [r];
      PostAllSnoc(under + [l], r);
      PostAllSnoc(under, l);
      PostAllSnoc(under, Pair(op, l, r));
  }

  lemma BuildSnoc(e: Postfix, x: Elem)
    ensures BuildAll(e + [x]) == if BuildAll(e).None? then None else Build(x, BuildAll(e).value)
  {
    assert (e + [x])[..|e|] == e;
  }

  /** The postfix of a tree puts that tree on top. */
  lemma {:induction false} BuildTree(e: Postfix, t: Tree)
    requires BuildAll(e).Some?
    ensures BuildAll(e + Post(t)) == Some(BuildAll(e).value + [t])
    decreases t
  {
    var trees := BuildAll(e).value;
    match t
    case Leaf(b) => BuildSnoc(e, Bool(b));
    case Negate(u) =>
      BuildTree(e, u);
      BuildSnoc(e + Post(u), Not);
      BuildNegate(trees, u);
      Regroup(e, Post(u), [], [Not]);
    case Pair(op, l, r) =>
      BuildTree(e, l);
      BuildTree(e + Post(l), r);
      BuildSnoc(e + Post(l) + Post(r), Binary(op));
      BuildPair(op, trees, l, r);
      Regroup(e, Post(l), Post(r), [Binary(op)]);
  }

  lemma Regroup(e: Postfix, f: Postfix, g: Postfix, h: Postfix)
    ensures e + (f + g + h) == e + f + g + h
    ensures e + (f + h) == e + f + h
  {
  }

  lemma BuildNegate(trees: seq<Tree>, u: Tree)
    ensures Build(Not, trees + [u]) == Some(trees + [Negate(u)])
  {
    assert (trees + [u])[..|trees|] == trees;
  }

  lemma BuildPair(op: BinaryOp, trees: seq<Tree>, l: Tree, r: Tree)
    ensures Build(Binary(op), trees + [l] + [r]) == Some(trees + [Pair(op, l, r)])
  {
    var all := trees + [l] + [r];
    assert all[..|all| - 2] == trees && all[|all| - 2] == l && all[|all| - 1] == r;
  }

  /** A list builds one tree exactly when it is that tree's postfix. */
  lemma BuildIsPost(expr: Postfix, t: Tree)
    ensures BuildAll(expr) == Some([t]) <==> Post(t) == expr
  {
    if BuildAll(expr) == Some([t]) {
      BuildReads(expr);
      PostAllSnoc([], t);
      assert [] + [t] == [t];
    }
    BuildTree([], t);
    assert [] + Post(t) == Post(t) && [] + [t] == [t];
  }

  // ---------- the translation ----------

  /** Formatting into a buffer of the given size: the length wanted, and what fits. */
  method Snprintf(size: nat, text: string) returns (wanted: int, buffer: string)
    requires size > 0
    ensures wanted == |text|
    ensures buffer == if |text| < size then text else text[..size - 1]
  {
    wanted, buffer := |text|, if |text| < size then text else text[..size - 1];
  }

  /** The buffer computed for an operator is exactly the text and its closing zero. */
  method FormatOperator(op: string, params: nat, x: string, y: string) returns (ok: bool, text: string, size: nat)
    requires (params == 1 && y == "") || params == 2
    ensures ok && text == if params == 1 then "(" + op + " " + x + ")" else "(" + op + " " + x + " " + y + ")"
    ensures size == |text| + 1
  {
    var size' := |x| + |y| + |op| + params * 1 + 2 + 1;
    size := size';
    var wanted;
    wanted, text := Snprintf(size,
                             if params == 1 then "(" + op + " " + x + ")" else "(" + op + " " + x + " " + y + ")");
    ok := wanted < size;
  }

  method FormatBool(name: string) returns (ok: bool, text: string, size: nat)
    ensures ok && text == "(" + name + ")" && size == |text| + 1
  {
    size := |name| + 2 + 1;
    var wanted;
    wanted, text := Snprintf(size, "(" + name + ")");
    ok := wanted < size;
  }

  ghost predicate Shows(texts: seq<string>, trees: seq<Tree>, names: seq<string>) {
    |texts| == |trees| && forall i | 0 <= i < |texts| :: texts[i] == Text(trees[i], names)
  }

  method TranslateNot(stack: Stack, ghost trees: seq<Tree>, names: seq<string>) returns (ok: bool)
    requires stack.Valid() && Shows(stack.Contents(), trees, names)
    modifies stack, stack.elems
    ensures stack.Valid() && (stack.elems == old(stack.elems) || fresh(stack.elems))
    ensures ok <==> Build(Not, trees).Some?
    ensures ok ==> Shows(stack.Contents(), Build(Not, trees).value, names)
  {
    var x := stack.Pop();
    if x.None? { return false; }
    var text, size;
    ok, text, size := FormatOperator("not", 1, x.value, "");
    assert text == Unary(x.value);
    stack.Push(text);
  }

  method TranslateBinary(op: BinaryOp, stack: Stack, ghost trees: seq<Tree>, names: seq<string>) returns (ok: bool)
    requires stack.Valid() && Shows(stack.Contents(), trees, names)
    modifies stack, stack.elems
    ensures stack.Valid() && (stack.elems == old(stack.elems) || fresh(stack.elems))
    ensures ok <==> Build(Binary(op), trees).Some?
    ensures ok ==> Shows(stack.Contents(), Build(Binary(op), trees).value, names)
  {
    var y := stack.Pop();
    var x := stack.Pop();
    if x.None? || y.None? { return false; }
    var text, size;
    ok, text, size := FormatOperator(OpName(op), 2, x.value, y.value);
    assert text == Infix(op, x.value, y.value);
    stack.Push(text);
  }

  /** One list element. */
  method TranslateElem(e: Elem, stack: Stack, ghost trees: seq<Tree>, names: seq<string>) returns (ok: bool)
    requires stack.Valid() && Shows(stack.Contents(), trees, names)
    requires e.Bool? ==> 1 <= e.b <= |names|
    modifies stack, stack.elems
    ensures stack.Valid() && (stack.elems == old(stack.elems) || fresh(stack.elems))
    ensures ok <==> Build(e, trees).Some?
    ensures ok ==> Shows(stack.Contents(), Build(e, trees).value, names)
  {
    match e
    case Bool(b) =>
      var text, size;
      ok, text, size := FormatBool(names[b - 1]);
      stack.Push(text);
    case Not => ok := TranslateNot(stack, trees, names);
    case Binary(op) => ok := TranslateBinary(op, stack, trees, names);
    case Other(_) => ok := false;
  }

  function Opening(tunable: bool, text: string): string {
    "(" + (if tunable then "tunableif" else "booleanif") + " " + text
  }

  lemma OpeningIs(tunable: bool, text: string)
    ensures Opening(tunable, text) == (if tunable then "(tunableif " else "(booleanif ") + text
  {
  }

  /** Succeeds exactly on the postfix of a tree, and prints that tree in prefix. */
  method ExprToCil(expr: Postfix, names: seq<string>, tunable: bool) returns (out: Option<string>)
    requires InRange(expr, |names|)
    ensures out.Some? <==> exists t :: Post(t) == expr
    ensures forall t | Post(t) == expr ::
              out == Some((if tunable then "(tunableif " else "(booleanif ") + Text(t, names))
  {
    var stack := new Stack();
    forall t ensures BuildAll(expr) == Some([t]) <==> Post(t) == expr { BuildIsPost(expr, t); }
    var ok := TranslateAll(expr, stack, names);
    if !ok { return None; }
    ghost var trees := BuildAll(expr).value;
    var x := stack.Pop();
    var above := stack.Peek();
    if x.None? || above.Some? {
      assert |trees| != 1;
      return None;
    }
    assert trees == [trees[0]];
    assert Post(trees[0]) == expr;
    OpeningIs(tunable, x.value);
    out := Some(Opening(tunable, x.value));
  }

  /** The list elements in turn, on an empty stack. */
  method TranslateAll(expr: Postfix, stack: Stack, names: seq<string>) returns (ok: bool)
    requires InRange(expr, |names|) && stack.Valid() && stack.Contents() == []
    modifies stack, stack.elems
    ensures stack.Valid() && (ok <==> BuildAll(expr).Some?)
    ensures ok ==> Shows(stack.Contents(), BuildAll(expr).value, names)
  {
    ghost var trees: seq<Tree> := [];
    for i := 0 to |expr|
      invariant stack.Valid() && (stack.elems == old(stack.elems) || fresh(stack.elems))
      invariant BuildAll(expr[..i]) == Some(trees) && Shows(stack.Contents(), trees, names)
    {
      BuildNext(expr, i, trees);
      ok := TranslateElem(expr[i], stack, trees, names);
      if !ok {
        BuildFails(expr, i + 1);
        return;
      }
      trees := Build(expr[i], trees).value;
    }
    assert expr[..|expr|] == expr;
    ok := true;
  }

  lemma BuildNext(expr: Postfix, i: nat, trees: seq<Tree>)
    requires i < |expr| && BuildAll(expr[..i]) == Some(trees)
    ensures BuildAll(expr[..i + 1]) == Build(expr[i], trees)
  {
    assert expr[..i + 1] == expr[..i] + [expr[i]];
    BuildSnoc(expr[..i], expr[i]);
  }

  lemma {:induction false} BuildFails(expr: Postfix, i: nat)
    requires i <= |expr| && BuildAll(expr[..i]).None?
    ensures BuildAll(expr).None?
    decreases |expr| - i
  {
    if i == |expr| {
      assert expr[..i] == expr;
    } else {
      assert expr[..i + 1][..i] == expr[..i];
      BuildFails(expr, i + 1);
    }
  }

  // ---------- the text determines the tree ----------

  predicate PlainChar(c: char) {
    c != '(' && c != ')' && c != ' '
  }

  predicate Plain(w: string) {
    forall i | 0 <= i < |w| :: PlainChar(w[i])
  }

  /** Every boolean has a name of its own, without brackets or blanks. */
  ghost predicate GoodNames(names: seq<string>) {
    && (forall i | 0 <= i < |names| :: Plain(names[i]))
    && forall i, j | 0 <= i < j < |names| :: names[i] != names[j]
  }

  predicate TreeInRange(t: Tree, n: nat) {
    match t
    case Leaf(b) => 1 <= b <= n
    case Negate(u) => TreeInRange(u, n)
    case Pair(_, l, r) => TreeInRange(l, n) && TreeInRange(r, n)
  }

  /** The text of a tree: a bracket, a plain word, and what follows the word. */
  function Word(t: Tree, names: seq<string>): string {
    match t
    case Leaf(b) => if 1 <= b <= |names| then names[b - 1] else ""
    case Negate(_) => "not"
    case Pair(op, _, _) => OpName(op)
  }

  function Tail(t: Tree, names: seq<string>): string {
    match t
    case Leaf(_) => ")"
    case Negate(u) => " " + Text(u, names) + ")"
    case Pair(_, l, r) => " " + Text(l, names) + " " + Text(r, names) + ")"
  }

  lemma TextParts(t: Tree, names: seq<string>)
    requires GoodNames(names)
    ensures Text(t, names) == "(" + Word(t, names) + Tail(t, names)
    ensures Plain(Word(t, names)) && Tail(t, names) != ""
    ensures Tail(t, names)[0] == if t.Leaf? then ')' else ' '
  {
    match t
    case Leaf(b) =>
    case Negate(u) => UnaryParts(Text(u, names));
    case Pair(op, l, r) => InfixParts(op, Text(l, names), Text(r, names));
  }

  lemma UnaryParts(x: string)
    ensures Unary(x) == "(" + "not" + (" " + x + ")") && Plain("not")
  {
  }

  lemma InfixParts(op: BinaryOp, x: string, y: string)
    ensures Infix(op, x, y) == "(" + OpName(op) + (" " + x + " " + y + ")") && Plain(OpName(op))
  {
    var w := OpName(op);
    assert "(" + w + " " + x + " " + y + ")" == "(" + w + (" " + x + " " + y + ")");
  }

  /** A plain word ends at the first character that is not plain. */
  lemma WordEnds(w: string, x: string, w': string, x': string)
    requires Plain(w) && Plain(w') && x != "" && x' != "" && !PlainChar(x[0]) && !PlainChar(x'[0])
    requires w + x == w' + x'
    ensures w == w' && x == x'
  {
    ShorterWord(w, x, w', x');
    ShorterWord(w', x', w, x);
    assert w == (w + x)[..|w|] && w' == (w' + x')[..|w'|];
    assert x == (w + x)[|w|..] && x' == (w' + x')[|w'|..];
  }

  lemma ShorterWord(w: string, x: string, w': string, x': string)
    requires Plain(w') && x != "" && !PlainChar(x[0])
    requires w + x == w' + x'
    ensures |w'| <= |w|
  {
    assert !PlainChar((w' + x')[|w|]);
  }

  lemma OpNamesDiffer(op: BinaryOp, op': BinaryOp)
    ensures OpName(op) == OpName(op') <==> op == op'
    ensures OpName(op) != "not"
  {
    assert OpName(Or)[0] == 'o' && OpName(And)[0] == 'a' && OpName(Xor)[0] == 'x';
    assert OpName(Eq)[0] == 'e' && OpName(Neq)[..2] == "ne" && "not"[..2] == "no";
  }

  lemma SplitHead(t: Tree, u: Tree, names: seq<string>, x: string, y: string)
    requires GoodNames(names) && Text(t, names) + x == Text(u, names) + y
    ensures Word(t, names) == Word(u, names) && Tail(t, names) + x == Tail(u, names) + y
    ensures t.Leaf? <==> u.Leaf?
  {
    TextParts(t, names);
    TextParts(u, names);
    var r, r' := Tail(t, names) + x, Tail(u, names) + y;
    assert r[0] == Tail(t, names)[0] && r'[0] == Tail(u, names)[0];
    Reassociate(Word(t, names), Tail(t, names), x);
    Reassociate(Word(u, names), Tail(u, names), y);
    Cancel("(", Word(t, names) + r, Word(u, names) + r');
    WordEnds(Word(t, names), r, Word(u, names), r');
  }

  lemma Reassociate(w: string, tail: string, x: string)
    ensures "(" + w + tail + x == "(" + (w + (tail + x))
  {
  }

  lemma Cancel(p: string, x: string, y: string)
    requires p + x == p + y
    ensures x == y
  {
    assert x == (p + x)[|p|..] && y == (p + y)[|p|..];
  }

  /** No two trees share a text, not even as the beginning of a longer one. */
  lemma {:induction false} TextDetermines(t: Tree, u: Tree, names: seq<string>, x: string, y: string)
    requires GoodNames(names) && TreeInRange(t, |names|) && TreeInRange(u, |names|)
    requires Text(t, names) + x == Text(u, names) + y
    ensures t == u && x == y
  {
    SplitHead(t, u, names, x, y);
    if t.Leaf? || u.Leaf? {
      Cancel(")", x, y);
    } else if t.Negate? {
      if u.Pair? { OpNamesDiffer(u.op, u.op); }
      NegateTail(t.arg, names, x);
      NegateTail(u.arg, names, y);
      Cancel(" ", Text(t.arg, names) + (")" + x), Text(u.arg, names) + (")" + y));
      TextDetermines(t.arg, u.arg, names, ")" + x, ")" + y);
      Cancel(")", x, y);
    } else {
      OpNamesDiffer(t.op, if u.Pair? then u.op else t.op);
      PairTail(t, names, x);
      PairTail(u, names, y);
      var s, s' := " " + (Text(t.right, names) + (")" + x)), " " + (Text(u.right, names) + (")" + y));
      Cancel(" ", Text(t.left, names) + s, Text(u.left, names) + s');
      TextDetermines(t.left, u.left, names, s, s');
      Cancel(" ", Text(t.right, names) + (")" + x), Text(u.right, names) + (")" + y));
      TextDetermines(t.right, u.right, names, ")" + x, ")" + y);
      Cancel(")", x, y);
    }
  }

  lemma NegateTail(arg: Tree, names: seq<string>, x: string)
    ensures Tail(Negate(arg), names) + x == " " + (Text(arg, names) + (")" + x))
  {
  }

  lemma PairTail(t: Tree, names: seq<string>, x: string)
    requires t.Pair?
    ensures Tail(t, names) + x == " " + (Text(t.left, names) + (" " + (Text(t.right, names) + (")" + x))))
  {
  }

  /** A list that is translated is evaluated to the printed tree's value, provided the
      tree fits the evaluator's stack; the translator's own stack has no bound. */
  lemma TranslatedIsEvaluated(expr: Postfix, t: Tree, s: Assignment)
    requires BuildAll(expr) == Some([t])
    ensures Eval(expr, s) == if Height(t) > 10 then -1 else if Value(t, s) then 1 else 0
  {
    BuildIsPost(expr, t);
    EvalTree(t, s);
  }
}
