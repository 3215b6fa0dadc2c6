/** What the translated expressions mean: a reader of the prefix texts. */
module CilMeaning {
  import opened Wrappers
  import opened CondExpr
  import opened CondToCil

  /** The text begins with the given one. */
  predicate Starts(text: string, start: string) {
    |start| <= |text| && text[..|start|] == start
  }

  /** A value, and what follows the expression. */
  datatype Reading = Reading(value: bool, rest: string)

  /** Reads one expression: a name in brackets, or an operator and its operands. The
      operators mean what their words say. */
  ghost function Read(text: string, names: seq<string>, s: Assignment): (r: Option<Reading>)
    ensures r.Some? ==> |r.value.rest| < |text|
    decreases |text|, 0
  {
    if Starts(text, "(not ") then
      var x := Read(text[5..], names, s);
      if x.None? then None else Close(!x.value.value, x.value.rest, |text|)
    else if Starts(text, "(or ") then
      var xy := ReadTwo(text, 4, names, s);
      if xy.None? then None else Close(xy.value.0 || xy.value.1, xy.value.2, |text|)
    else if Starts(text, "(and ") then
      var xy := ReadTwo(text, 5, names, s);
      if xy.None? then None else Close(xy.value.0 && xy.value.1, xy.value.2, |text|)
    else if Starts(text, "(xor ") then
      var xy := ReadTwo(text, 5, names, s);
      if xy.None? then None else Close(xy.value.0 != xy.value.1, xy.value.2, |text|)
    else if Starts(text, "(eq ") then
      var xy := ReadTwo(text, 4, names, s);
      if xy.None? then None else Close(xy.value.0 == xy.value.1, xy.value.2, |text|)
    else if Starts(text, "(neq ") then
      var xy := ReadTwo(text, 5, names, s);
      if xy.None? then None else Close(xy.value.0 != xy.value.1, xy.value.2, |text|)
    else if exists i :: 0 <= i < |names| && Starts(text, "(" + names[i] + ")") then
      var i :| 0 <= i < |names| && Starts(text, "(" + names[i] + ")");
      Some(Reading(s(i + 1), text[|names[i]| + 2..]))
    else None
  }

  /** The closing bracket of an operator. */
  ghost function Close(value: bool, rest: string, length: nat): (r: Option<Reading>)
    requires |rest| < length
    ensures r.Some? ==> |r.value.rest| < length
  {
    if Starts(rest, ")") then Some(Reading(value, rest[1..])) else None
  }

  /** The two operands behind an operator of so many characters. */
  ghost function ReadTwo(text: string, at: nat, names: seq<string>, s: Assignment): (r: Option<(bool, bool, string)>)
    requires 0 < at <= |text|
    ensures r.Some? ==> |r.value.2| < |text|
    decreases |text| - at, 1
  {
    var x := Read(text[at..], names, s);
    if x.None? || !Starts(x.value.rest, " ") then None
    else
      var y := Read(x.value.rest[1..], names, s);
      if y.None? then None else Some((x.value.value, y.value.value, y.value.rest))
  }

  // ---------- reading what is printed ----------

  /** A word is recognised with the character that ends it. */
  lemma StartsWord(w: string, tail: string, v: string, c: char)
    requires Plain(w) && Plain(v) && tail != "" && !PlainChar(tail[0]) && !PlainChar(c)
    ensures Starts("(" + w + tail, "(" + v + [c]) <==> w == v && tail[0] == c
  {
    var text, start := "(" + w + tail, "(" + v + [c];
    if Starts(text, start) {
      var rest := text[|start|..];
      assert text == start + rest;
      assert "(" + (w + tail) == text == "(" + (v + ([c] + rest));
      Cancel("(", w + tail, v + ([c] + rest));
      WordEnds(w, tail, v, [c] + rest);
    }
    if w == v && tail[0] == c {
      assert text[..|start|] == start;
    }
  }

  /** Which operator a text begins with. */
  predicate Operator(text: string, op: BinaryOp) {
    match op
    case Or => Starts(text, "(or ")
    case And => Starts(text, "(and ")
    case Xor => Starts(text, "(xor ")
    case Eq => Starts(text, "(eq ")
    case Neq => Starts(text, "(neq ")
  }

  lemma Words()
    ensures "(" + "not" + [' '] == "(not " && "(" + "or" + [' '] == "(or " && "(" + "and" + [' '] == "(and "
    ensures "(" + "xor" + [' '] == "(xor " && "(" + "eq" + [' '] == "(eq " && "(" + "neq" + [' '] == "(neq "
  {
  }

  lemma Dispatch(w: string, tail: string)
    requires Plain(w) && tail != "" && !PlainChar(tail[0])
    ensures var text := "(" + w + tail;
            && (Starts(text, "(not ") <==> w == "not" && tail[0] == ' ')
            && forall op :: Operator(text, op) <==> w == OpName(op) && tail[0] == ' '
  {
    Words();
    StartsWord(w, tail, "not", ' ');
    StartsWord(w, tail, "or", ' ');
    StartsWord(w, tail, "and", ' ');
    StartsWord(w, tail, "xor", ' ');
    StartsWord(w, tail, "eq", ' ');
    StartsWord(w, tail, "neq", ' ');
  }

  function Meaning(op: BinaryOp, x: bool, y: bool): bool {
    match op
    case Or => x || y
    case And => x && y
    case Xor => x != y
    case Eq => x == y
    case Neq => x != y
  }

  lemma ReadOperator(op: BinaryOp, text: string, names: seq<string>, s: Assignment)
    requires !Starts(text, "(not ") && forall o :: Operator(text, o) <==> o == op
    ensures |OpName(op)| + 2 <= |text|
    ensures var xy := ReadTwo(text, |OpName(op)| + 2, names, s);
            Read(text, names, s) ==
            if xy.None? then None else Close(Meaning(op, xy.value.0, xy.value.1), xy.value.2, |text|)
  {
    assert Operator(text, op);
    assert Operator(text, Or) <==> op == Or;
    assert Operator(text, And) <==> op == And;
    assert Operator(text, Xor) <==> op == Xor;
    assert Operator(text, Eq) <==> op == Eq;
    assert Operator(text, Neq) <==> op == Neq;
  }

  /** A printed tree reads as its value, and what follows it is left. */
  lemma {:induction false} ReadText(t: Tree, rest: string, names: seq<string>, s: Assignment)
    requires GoodNames(names) && TreeInRange(t, |names|)
    ensures Read(Text(t, names) + rest, names, s) == Some(Reading(Value(t, s), rest))
    decreases t
  {
    match t {
      case Leaf(b) => ReadLeaf(b, rest, names, s);
      case Negate(u) =>
        ReadText(u, ")" + rest, names, s);
        ReadNegate(u, rest, names, s);
      case Pair(op, l, r) =>
        ReadText(l, " " + (Text(r, names) + (")" + rest)), names, s);
        ReadText(r, ")" + rest, names, s);
        ReadPair(op, l, r, rest, names, s);
    }
  }

  lemma ReadLeaf(b: nat, rest: string, names: seq<string>, s: Assignment)
    requires GoodNames(names) && 1 <= b <= |names|
    ensures Read(Text(Leaf(b), names) + rest, names, s) == Some(Reading(s(b), rest))
  {
    var w := names[b - 1];
    var text := Text(Leaf(b), names) + rest;
    assert text == "(" + w + (")" + rest);
    Dispatch(w, ")" + rest);
    forall i | 0 <= i < |names| ensures Starts(text, "(" + names[i] + ")") <==> i == b - 1 {
      StartsWord(w, ")" + rest, names[i], ')');
    }
    ReadName(text, b - 1, names, s);
    assert text[|w| + 2..] == rest;
  }

  lemma ReadName(text: string, i: nat, names: seq<string>, s: Assignment)
    requires !Starts(text, "(not ") && forall o :: !Operator(text, o)
    requires i < |names| && forall j | 0 <= j < |names| :: Starts(text, "(" + names[j] + ")") <==> j == i
    ensures |names[i]| + 2 <= |text|
    ensures Read(text, names, s) == Some(Reading(s(i + 1), text[|names[i]| + 2..]))
  {
    assert !Operator(text, Or) && !Operator(text, And) && !Operator(text, Xor);
    assert !Operator(text, Eq) && !Operator(text, Neq);
    assert Starts(text, "(" + names[i] + ")");
  }

  lemma ReadNegate(u: Tree, rest: string, names: seq<string>, s: Assignment)
    requires Read(Text(u, names) + (")" + rest), names, s) == Some(Reading(Value(u, s), ")" + rest))
    ensures Read(Text(Negate(u), names) + rest, names, s) == Some(Reading(!Value(u, s), rest))
  {
    NegateText(Text(u, names), rest);
    assert Text(Negate(u), names) == Unary(Text(u, names));
    ReadNot(Text(Negate(u), names) + rest, names, s);
  }

  lemma NegateText(x: string, rest: string)
    ensures Unary(x) + rest == "(not " + (x + (")" + rest))
    ensures Starts(Unary(x) + rest, "(not ") && (Unary(x) + rest)[5..] == x + (")" + rest)
  {
  }

  lemma ReadNot(text: string, names: seq<string>, s: Assignment)
    requires Starts(text, "(not ")
    ensures var x := Read(text[5..], names, s);
            Read(text, names, s) == if x.None? then None else Close(!x.value.value, x.value.rest, |text|)
  {
  }

  lemma ReadPair(op: BinaryOp, l: Tree, r: Tree, rest: string, names: seq<string>, s: Assignment)
    requires var behind := " " + (Text(r, names) + (")" + rest));
             Read(Text(l, names) + behind, names, s) == Some(Reading(Value(l, s), behind))
    requires Read(Text(r, names) + (")" + rest), names, s) == Some(Reading(Value(r, s), ")" + rest))
    ensures Read(Text(Pair(op, l, r), names) + rest, names, s) == Some(Reading(Value(Pair(op, l, r), s), rest))
  {
    var text := Text(Pair(op, l, r), names) + rest;
    PairDispatch(op, Text(l, names), Text(r, names), rest);
    ReadOperator(op, text, names, s);
    TwoRead(text, |OpName(op)| + 2, l, r, rest, names, s);
  }

  lemma PairDispatch(op: BinaryOp, x: string, y: string, rest: string)
    ensures var text := Infix(op, x, y) + rest;
            && !Starts(text, "(not ") && (forall o :: Operator(text, o) <==> o == op)
            && |OpName(op)| + 2 <= |text| && text[|OpName(op)| + 2..] == x + (" " + (y + (")" + rest)))
  {
    var tail := " " + (x + (" " + (y + (")" + rest))));
    PairText(OpName(op), x, y, rest);
    Dispatch(OpName(op), tail);
    forall o ensures OpName(o) == OpName(op) <==> o == op { OpNamesDiffer(o, op); }
    OpNamesDiffer(op, op);
  }

  lemma TwoRead(text: string, at: nat, l: Tree, r: Tree, rest: string, names: seq<string>, s: Assignment)
    requires var behind := " " + (Text(r, names) + (")" + rest));
             && 0 < at <= |text| && text[at..] == Text(l, names) + behind
             && Read(Text(l, names) + behind, names, s) == Some(Reading(Value(l, s), behind))
    requires Read(Text(r, names) + (")" + rest), names, s) == Some(Reading(Value(r, s), ")" + rest))
    ensures ReadTwo(text, at, names, s) == Some((Value(l, s), Value(r, s), ")" + rest))
  {
    var behind := " " + (Text(r, names) + (")" + rest));
    assert behind[1..] == Text(r, names) + (")" + rest);
  }

  lemma PairText(w: string, x: string, y: string, rest: string)
    ensures "(" + w + " " + x + " " + y + ")" + rest == "(" + w + (" " + (x + (" " + (y + (")" + rest)))))
  {
  }

  /** The text printed for a list means what the evaluator computes, wherever that is
      defined. */
  lemma TranslationMeans(expr: Postfix, t: Tree, names: seq<string>, s: Assignment)
    requires GoodNames(names) && InRange(expr, |names|) && Post(t) == expr && Eval(expr, s) != -1
    ensures Read(Text(t, names), names, s) == Some(Reading(Eval(expr, s) == 1, ""))
  {
    PostInRange(t, |names|);
    ReadText(t, "", names, s);
    assert Text(t, names) + "" == Text(t, names);
    EvalTree(t, s);
  }

  lemma {:induction false} PostInRange(t: Tree, n: nat)
    requires InRange(Post(t), n)
    ensures TreeInRange(t, n)
  {
    match t {
      case Leaf(b) => assert Post(t)[0] == Bool(b);
      case Negate(u) =>
        assert forall i | 0 <= i < |Post(u)| :: Post(t)[i] == Post(u)[i];
        PostInRange(u, n);
      case Pair(_, l, r) =>
        assert forall i | 0 <= i < |Post(l)| :: Post(t)[i] == Post(l)[i];
        assert forall i | 0 <= i < |Post(r)| :: Post(t)[|Post(l)| + i] == Post(r)[i];
        PostInRange(l, n);
        PostInRange(r, n);
    }
  }
}
