/** Extensible bitmaps: a sorted list of 64-bit words. */
module Ebitmap {
  import opened Wrappers

  const MAPSIZE: nat := 64

  /** One past the largest 32-bit number. */
  const LIMIT: nat := 0x1_0000_0000

  /** A word is the set of its set positions, 0 to 63. */
  datatype Node = Node(startbit: nat, word: set<nat>)

  datatype SetError = EINVAL

  // ---------- what a list of nodes holds ----------

  function NodeBits(n: Node): set<nat> {
    set k | k in n.word :: n.startbit + k
  }

  function Bits(nodes: seq<Node>): set<nat> {
    if nodes == [] then {} else Bits(nodes[..|nodes| - 1]) + NodeBits(nodes[|nodes| - 1])
  }

  lemma {:induction false} BitsConcat(a: seq<Node>, b: seq<Node>)
    ensures Bits(a + b) == Bits(a) + Bits(b)
  {
    if b == [] {
      assert a + b == a;
    } else {
      assert (a + b)[..|a + b| - 1] == a + b[..|b| - 1];
      BitsConcat(a, b[..|b| - 1]);
    }
  }

  lemma BitsOne(n: Node)
    ensures Bits([n]) == NodeBits(n)
  {
    assert [n][..0] == [];
  }

  /** Taking the list apart at node i. */
  lemma BitsSplit(nodes: seq<Node>, i: nat)
    requires i < |nodes|
    ensures Bits(nodes) == Bits(nodes[..i]) + NodeBits(nodes[i]) + Bits(nodes[i + 1..])
    ensures Bits(nodes[i..]) == NodeBits(nodes[i]) + Bits(nodes[i + 1..])
  {
    assert nodes == nodes[..i] + nodes[i..];
    assert nodes[i..] == [nodes[i]] + nodes[i + 1..];
    BitsConcat(nodes[..i], nodes[i..]);
    BitsConcat([nodes[i]], nodes[i + 1..]);
    BitsOne(nodes[i]);
  }

  // ---------- canonical form ----------

  predicate GoodNode(n: Node) {
    && n.startbit % MAPSIZE == 0
    && n.startbit + MAPSIZE < LIMIT
    && n.word != {}
    && forall k | k in n.word :: k < MAPSIZE
  }

  ghost predicate Canonical(nodes: seq<Node>) {
    && (forall i | 0 <= i < |nodes| :: GoodNode(nodes[i]))
    && (forall i, j | 0 <= i < j < |nodes| :: nodes[i].startbit < nodes[j].startbit)
  }

  lemma Spaced(m: Node, n: Node)
    requires GoodNode(m) && GoodNode(n) && m.startbit < n.startbit
    ensures m.startbit + MAPSIZE <= n.startbit
  {
  }

  ghost predicate Between(nodes: seq<Node>, lo: nat, hi: nat) {
    forall i | 0 <= i < |nodes| :: lo <= nodes[i].startbit && nodes[i].startbit + MAPSIZE <= hi
  }

  lemma {:induction false} BitsBetween(nodes: seq<Node>, lo: nat, hi: nat)
    requires Canonical(nodes) && Between(nodes, lo, hi)
    ensures Within(Bits(nodes), lo, hi)
  {
    if nodes != [] { BitsBetween(nodes[..|nodes| - 1], lo, hi); }
  }

  lemma Slices(nodes: seq<Node>, i: nat)
    requires Canonical(nodes) && i <= |nodes|
    ensures Canonical(nodes[..i]) && Canonical(nodes[i..])
    ensures i < |nodes| ==> Between(nodes[..i], 0, nodes[i].startbit)
    ensures i < |nodes| ==> Between(nodes[i + 1..], nodes[i].startbit + MAPSIZE, LIMIT)
    ensures i < |nodes| ==> Between(nodes[i..], nodes[i].startbit, LIMIT)
  {
    if i < |nodes| {
      forall j | 0 <= j < |nodes|
        ensures j < i ==> nodes[j].startbit + MAPSIZE <= nodes[i].startbit
        ensures j > i ==> nodes[i].startbit + MAPSIZE <= nodes[j].startbit
      {
        if j < i { Spaced(nodes[j], nodes[i]); }
        if j > i { Spaced(nodes[i], nodes[j]); }
      }
    }
  }

  predicate Within(bits: set<nat>, lo: nat, hi: nat) {
    forall b | b in bits :: lo <= b < hi
  }

  /** The bits before, in and after the word of node i. */
  lemma Zones(nodes: seq<Node>, i: nat)
    requires Canonical(nodes) && i < |nodes|
    ensures Within(Bits(nodes[..i]), 0, nodes[i].startbit)
    ensures Within(NodeBits(nodes[i]), nodes[i].startbit, nodes[i].startbit + MAPSIZE)
    ensures Within(Bits(nodes[i + 1..]), nodes[i].startbit + MAPSIZE, LIMIT)
  {
    Slices(nodes, i);
    Slices(nodes, i + 1);
    BitsBetween(nodes[..i], 0, nodes[i].startbit);
    BitsBetween(nodes[i + 1..], nodes[i].startbit + MAPSIZE, LIMIT);
  }

  function Highbit(nodes: seq<Node>): nat {
    if nodes == [] then 0 else nodes[|nodes| - 1].startbit + MAPSIZE
  }

  lemma BelowHighbit(nodes: seq<Node>)
    requires Canonical(nodes)
    ensures Within(Bits(nodes), 0, Highbit(nodes))
    ensures Highbit(nodes) <= LIMIT - MAPSIZE && Highbit(nodes) % MAPSIZE == 0
  {
    HighbitFits(nodes);
    BitsBelowHighbit(nodes);
  }

  lemma HighbitFits(nodes: seq<Node>)
    requires Canonical(nodes)
    ensures Highbit(nodes) <= LIMIT - MAPSIZE && Highbit(nodes) % MAPSIZE == 0
  {
  }

  lemma BitsBelowHighbit(nodes: seq<Node>)
    requires Canonical(nodes)
    ensures Within(Bits(nodes), 0, Highbit(nodes))
  {
    if nodes != [] {
      Zones(nodes, |nodes| - 1);
      BitsSplit(nodes, |nodes| - 1);
      assert nodes[|nodes|..] == [];
    }
  }

  /** Within a word, positions and bits correspond. */
  lemma NodeBitsExact(n: Node, b: nat)
    ensures b in NodeBits(n) <==> b >= n.startbit && b - n.startbit in n.word
  {
    if b >= n.startbit && b - n.startbit in n.word {
      assert b == n.startbit + (b - n.startbit);
    }
  }

  // ---------- one representation per set ----------

  lemma FirstWord(a: seq<Node>, b: seq<Node>)
    requires Canonical(a) && Canonical(b) && a != [] && Bits(a) == Bits(b)
    ensures b != [] && b[0].startbit <= a[0].startbit
  {
    var k :| k in a[0].word;
    var bit := a[0].startbit + k;
    assert bit in NodeBits(a[0]);
    BitsSplit(a, 0);
    assert bit in Bits(b);
    if b != [] {
      Slices(b, 0);
      assert b[0..] == b;
      BitsBetween(b, b[0].startbit, LIMIT);
      assert b[0].startbit <= bit < a[0].startbit + MAPSIZE;
      if a[0].startbit < b[0].startbit { Spaced(a[0], b[0]); }
    }
  }

  /** Canonical lists that hold the same bits are the same list. */
  lemma {:induction false} CanonicalUnique(a: seq<Node>, b: seq<Node>)
    requires Canonical(a) && Canonical(b) && Bits(a) == Bits(b)
    ensures a == b
  {
    if a != [] { FirstWord(a, b); }
    if b != [] { FirstWord(b, a); }
    if a != [] {
      FirstParts(a);
      FirstParts(b);
      SameWord(a[0], b[0]);
      Slices(a, 1);
      Slices(b, 1);
      CanonicalUnique(a[1..], b[1..]);
      assert a == [a[0]] + a[1..] && b == [b[0]] + b[1..];
    }
  }

  function LowPart(bits: set<nat>, s: nat): set<nat> {
    set x | x in bits && x < s
  }

  function HighPart(bits: set<nat>, s: nat): set<nat> {
    set x | x in bits && x >= s
  }

  lemma FirstParts(a: seq<Node>)
    requires Canonical(a) && a != []
    ensures NodeBits(a[0]) == LowPart(Bits(a), a[0].startbit + MAPSIZE)
    ensures Bits(a[1..]) == HighPart(Bits(a), a[0].startbit + MAPSIZE)
  {
    BitsSplit(a, 0);
    Zones(a, 0);
    assert a[..0] == [];
    Parts(NodeBits(a[0]), Bits(a[1..]), a[0].startbit, a[0].startbit + MAPSIZE);
    assert Bits(a) == NodeBits(a[0]) + Bits(a[1..]);
  }

  lemma Parts(low: set<nat>, high: set<nat>, start: nat, s: nat)
    requires Within(low, start, s) && Within(high, s, LIMIT)
    ensures low == LowPart(low + high, s) && high == HighPart(low + high, s)
  {
  }

  lemma SameWord(m: Node, n: Node)
    requires m.startbit == n.startbit && NodeBits(m) == NodeBits(n)
    ensures m == n
  {
    forall k | k in m.word ensures k in n.word {
      NodeBitsExact(n, n.startbit + k);
      assert m.startbit + k in NodeBits(m);
    }
    forall k | k in n.word ensures k in m.word {
      NodeBitsExact(m, m.startbit + k);
      assert n.startbit + k in NodeBits(n);
    }
  }

  // ---------- editing a list ----------

  lemma ReplaceBits(nodes: seq<Node>, i: nat, n: Node)
    requires i < |nodes|
    ensures Bits(nodes[i := n]) == Bits(nodes[..i]) + NodeBits(n) + Bits(nodes[i + 1..])
  {
    var after := nodes[i := n];
    BitsSplit(after, i);
    assert after[..i] == nodes[..i] && after[i + 1..] == nodes[i + 1..];
  }

  lemma WordSet(n: Node, k: nat)
    ensures NodeBits(n.(word := n.word + {k})) == NodeBits(n) + {n.startbit + k}
    ensures NodeBits(n.(word := n.word - {k})) == NodeBits(n) - {n.startbit + k}
  {
    var more, less := n.(word := n.word + {k}), n.(word := n.word - {k});
    forall b
      ensures b in NodeBits(more) <==> b in NodeBits(n) + {n.startbit + k}
      ensures b in NodeBits(less) <==> b in NodeBits(n) - {n.startbit + k}
    {
      NodeBitsExact(n, b);
      NodeBitsExact(more, b);
      NodeBitsExact(less, b);
    }
  }

  /** Setting a position of a word that is there. */
  lemma SetInWord(nodes: seq<Node>, i: nat, k: nat)
    requires Canonical(nodes) && i < |nodes| && k < MAPSIZE
    ensures
      var after := nodes[i := nodes[i].(word := nodes[i].word + {k})];
      Canonical(after) && Highbit(after) == Highbit(nodes) && Bits(after) == Bits(nodes) + {nodes[i].startbit + k}
  {
    SetInWordBits(nodes, i, k);
  }

  lemma SetInWordBits(nodes: seq<Node>, i: nat, k: nat)
    requires i < |nodes|
    ensures Bits(nodes[i := nodes[i].(word := nodes[i].word + {k})]) == Bits(nodes) + {nodes[i].startbit + k}
  {
    var n := nodes[i].(word := nodes[i].word + {k});
    WordSet(nodes[i], k);
    BitsSplit(nodes, i);
    ReplaceBits(nodes, i, n);
    Middle(Bits(nodes[..i]), NodeBits(nodes[i]), Bits(nodes[i + 1..]), NodeBits(n), nodes[i].startbit + k,
           Bits(nodes), Bits(nodes[i := n]));
  }

  lemma Middle(a: set<nat>, m: set<nat>, c: set<nat>, m': set<nat>, x: nat, before: set<nat>, after: set<nat>)
    requires before == a + m + c && after == a + m' + c && m' == m + {x}
    ensures after == before + {x}
  {
  }

  lemma RemoveFromMiddle(a: set<nat>, m: set<nat>, c: set<nat>, lo: nat, hi: nat, x: nat)
    requires Within(a, 0, lo) && Within(c, hi, LIMIT) && lo <= x < hi
    ensures a + (m - {x}) + c == a + m + c - {x}
  {
  }

  /** Clearing a position of a word that keeps others. */
  lemma ClearInWord(nodes: seq<Node>, i: nat, k: nat)
    requires Canonical(nodes) && i < |nodes| && k < MAPSIZE && nodes[i].word - {k} != {}
    ensures
      var after := nodes[i := nodes[i].(word := nodes[i].word - {k})];
      Canonical(after) && Highbit(after) == Highbit(nodes) && Bits(after) == Bits(nodes) - {nodes[i].startbit + k}
  {
    ClearInWordBits(nodes, i, k);
  }

  lemma ClearInWordBits(nodes: seq<Node>, i: nat, k: nat)
    requires Canonical(nodes) && i < |nodes| && k < MAPSIZE
    ensures Bits(nodes[i := nodes[i].(word := nodes[i].word - {k})]) == Bits(nodes) - {nodes[i].startbit + k}
  {
    var s := nodes[i].startbit;
    ReplaceBits(nodes, i, nodes[i].(word := nodes[i].word - {k}));
    WordSet(nodes[i], k);
    BitsSplit(nodes, i);
    Zones(nodes, i);
    RemoveFromMiddle(Bits(nodes[..i]), NodeBits(nodes[i]), Bits(nodes[i + 1..]), s, s + MAPSIZE, s + k);
  }

  lemma MiddleGone(a: set<nat>, m: set<nat>, c: set<nat>, lo: nat, hi: nat, x: nat)
    requires Within(a, 0, lo) && Within(c, hi, LIMIT) && lo <= x < hi && m - {x} == {}
    ensures a + c == a + m + c - {x}
  {
  }

  lemma EmptyWord(n: Node, k: nat)
    requires n.word - {k} == {}
    ensures NodeBits(n) - {n.startbit + k} == {}
  {
    WordSet(n, k);
  }

  /** Dropping a word that would become empty. */
  lemma DropWord(nodes: seq<Node>, i: nat, k: nat)
    requires Canonical(nodes) && i < |nodes| && k < MAPSIZE && nodes[i].word - {k} == {}
    ensures
      var after := nodes[..i] + nodes[i + 1..];
      Canonical(after) && Bits(after) == Bits(nodes) - {nodes[i].startbit + k}
  {
    DropWordBits(nodes, i, k);
  }

  lemma DropWordBits(nodes: seq<Node>, i: nat, k: nat)
    requires Canonical(nodes) && i < |nodes| && k < MAPSIZE && nodes[i].word - {k} == {}
    ensures Bits(nodes[..i] + nodes[i + 1..]) == Bits(nodes) - {nodes[i].startbit + k}
  {
    var s := nodes[i].startbit;
    EmptyWord(nodes[i], k);
    BitsSplit(nodes, i);
    Zones(nodes, i);
    BitsConcat(nodes[..i], nodes[i + 1..]);
    MiddleGone(Bits(nodes[..i]), NodeBits(nodes[i]), Bits(nodes[i + 1..]), s, s + MAPSIZE, s + k);
  }

  /** Where a bit is not covered by any word: i words lie before it, the rest after. */
  ghost predicate Gap(nodes: seq<Node>, i: nat, bit: nat) {
    && i <= |nodes|
    && (forall j | 0 <= j < i :: nodes[j].startbit + MAPSIZE <= bit)
    && (i < |nodes| ==> bit < nodes[i].startbit)
  }

  lemma GapMeansAbsent(nodes: seq<Node>, i: nat, bit: nat)
    requires Canonical(nodes) && Gap(nodes, i, bit)
    ensures bit !in Bits(nodes)
  {
    Slices(nodes, i);
    assert nodes == nodes[..i] + nodes[i..];
    BitsConcat(nodes[..i], nodes[i..]);
    BitsBetween(nodes[..i], 0, bit);
    if i < |nodes| { BitsBetween(nodes[i..], nodes[i].startbit, LIMIT); }
  }

  function Word(bit: nat): Node {
    Node(bit - bit % MAPSIZE, {bit % MAPSIZE})
  }

  lemma InsertWord(nodes: seq<Node>, i: nat, bit: nat)
    requires Canonical(nodes) && Gap(nodes, i, bit) && bit - bit % MAPSIZE + MAPSIZE < LIMIT
    ensures
      var after := nodes[..i] + [Word(bit)] + nodes[i..];
      Canonical(after) && Bits(after) == Bits(nodes) + {bit}
  {
    InsertFits(nodes, i, bit);
    InsertWordBits(nodes, i, bit);
  }

  lemma BitsAround(a: seq<Node>, w: Node, c: seq<Node>)
    ensures Bits(a + [w] + c) == Bits(a) + NodeBits(w) + Bits(c)
  {
    BitsConcat(a + [w], c);
    BitsConcat(a, [w]);
    BitsOne(w);
  }

  lemma InsertWordBits(nodes: seq<Node>, i: nat, bit: nat)
    requires i <= |nodes|
    ensures Bits(nodes[..i] + [Word(bit)] + nodes[i..]) == Bits(nodes) + {bit}
  {
    BitsAround(nodes[..i], Word(bit), nodes[i..]);
    WordHolds(bit);
    BitsConcat(nodes[..i], nodes[i..]);
    assert nodes[..i] + nodes[i..] == nodes;
    PutBetween(Bits(nodes[..i]), Bits(nodes[i..]), bit, Bits(nodes));
  }

  lemma WordHolds(bit: nat)
    ensures NodeBits(Word(bit)) == {bit}
  {
  }

  lemma PutBetween(a: set<nat>, c: set<nat>, x: nat, before: set<nat>)
    requires before == a + c
    ensures a + {x} + c == before + {x}
  {
  }

  lemma InsertHighbit(nodes: seq<Node>, i: nat, bit: nat)
    requires i <= |nodes|
    ensures Highbit(nodes[..i] + [Word(bit)] + nodes[i..]) ==
            if i == |nodes| then bit - bit % MAPSIZE + MAPSIZE else Highbit(nodes)
  {
  }

  lemma InsertFits(nodes: seq<Node>, i: nat, bit: nat)
    requires Canonical(nodes) && Gap(nodes, i, bit) && bit - bit % MAPSIZE + MAPSIZE < LIMIT
    ensures Canonical(nodes[..i] + [Word(bit)] + nodes[i..])
  {
    var w := Word(bit);
    forall j | 0 <= j < |nodes|
      ensures GoodNode(nodes[j]) && (j < i ==> nodes[j].startbit < w.startbit) &&
        (j >= i ==> w.startbit < nodes[j].startbit)
    {
      if j < i {
        BlockBelow(nodes[j].startbit, bit);
      } else {
        assert nodes[i].startbit <= nodes[j].startbit;
      }
    }
  }

  lemma BlockBelow(s: nat, bit: nat)
    requires s % MAPSIZE == 0 && s + MAPSIZE <= bit
    ensures s < bit - bit % MAPSIZE
  {
  }

  /** The word that covers a bit decides about it. */
  lemma CoveredBit(nodes: seq<Node>, i: nat, bit: nat)
    requires Canonical(nodes) && i < |nodes| && nodes[i].startbit <= bit < nodes[i].startbit + MAPSIZE
    ensures bit in Bits(nodes) <==> bit - nodes[i].startbit in nodes[i].word
  {
    BitsSplit(nodes, i);
    Zones(nodes, i);
    NodeBitsExact(nodes[i], bit);
  }

  // ---------- walking two lists at once ----------

  /** A word that comes before every word of the other list shares no bit with it. */
  lemma AheadIsApart(a: seq<Node>, i: nat, b: seq<Node>, j: nat)
    requires Canonical(a) && Canonical(b) && i < |a| && j <= |b|
    requires j < |b| ==> a[i].startbit < b[j].startbit
    ensures NodeBits(a[i]) * Bits(b[j..]) == {}
  {
    Zones(a, i);
    if j < |b| {
      Spaced(a[i], b[j]);
      Slices(b, j);
      BitsBetween(b[j..], b[j].startbit, LIMIT);
    }
  }

  /** A word and the words after the one that covers the same block share no bit. */
  lemma LaterIsApart(a: seq<Node>, i: nat, b: seq<Node>, j: nat)
    requires Canonical(a) && Canonical(b) && i < |a| && j < |b| && a[i].startbit == b[j].startbit
    ensures NodeBits(a[i]) * Bits(b[j + 1..]) == {}
  {
    Zones(a, i);
    Zones(b, j);
  }

  lemma WordBits(n: Node, k: nat)
    ensures k in n.word <==> n.startbit + k in NodeBits(n)
  {
  }

  lemma SameBlockSubset(m: Node, n: Node)
    requires m.startbit == n.startbit
    ensures NodeBits(m) <= NodeBits(n) <==> m.word <= n.word
  {
    if NodeBits(m) <= NodeBits(n) {
      forall k | k in m.word ensures k in n.word {
        WordBits(m, k);
        WordBits(n, k);
      }
    }
  }

  lemma SameBlockOverlap(m: Node, n: Node)
    requires m.startbit == n.startbit
    ensures NodeBits(m) * NodeBits(n) != {} <==> m.word * n.word != {}
  {
    if m.word * n.word != {} {
      var k :| k in m.word * n.word;
      WordBits(m, k);
      WordBits(n, k);
      assert m.startbit + k in NodeBits(m) * NodeBits(n);
    }
    if NodeBits(m) * NodeBits(n) != {} {
      var b :| b in NodeBits(m) * NodeBits(n);
      NodeBitsExact(m, b);
      NodeBitsExact(n, b);
      assert b - m.startbit in m.word * n.word;
    }
  }

  lemma SameBlockUnion(m: Node, n: Node)
    requires m.startbit == n.startbit
    ensures NodeBits(m.(word := m.word + n.word)) == NodeBits(m) + NodeBits(n)
  {
    var both := m.(word := m.word + n.word);
    forall b ensures b in NodeBits(both) <==> b in NodeBits(m) + NodeBits(n) {
      NodeBitsExact(both, b);
      NodeBitsExact(m, b);
      NodeBitsExact(n, b);
    }
  }

  class Ebitmap {
    var nodes: seq<Node>
    var highbit: nat

    ghost predicate Valid()
      reads this
    {
      Canonical(nodes) && highbit == Highbit(nodes)
    }

    ghost function Contents(): set<nat>
      reads this
    {
      Bits(nodes)
    }

    constructor ()
      ensures Valid() && Contents() == {}
    {
      nodes, highbit := [], 0;
    }

    method GetBit(bit: nat) returns (value: bool)
      requires Valid()
      ensures value <==> bit in Contents()
    {
      BelowHighbit(nodes);
      if highbit < bit { return false; }
      var i := 0;
      while i < |nodes| && nodes[i].startbit <= bit
        invariant i <= |nodes| && forall j | 0 <= j < i :: nodes[j].startbit + MAPSIZE <= bit
      {
        if nodes[i].startbit + MAPSIZE > bit {
          CoveredBit(nodes, i, bit);
          return bit - nodes[i].startbit in nodes[i].word;
        }
        i := i + 1;
      }
      GapMeansAbsent(nodes, i, bit);
      value := false;
    }

    /** Clears a position of word i, and drops the word if that was its last. */
    method ClearAt(i: nat, k: nat)
      requires Valid() && i < |nodes| && k < MAPSIZE
      modifies this
      ensures Valid() && Contents() == old(Contents()) - {old(nodes[i]).startbit + k}
    {
      var n := nodes[i].(word := nodes[i].word - {k});
      if n.word == {} {
        DropWord(nodes, i, k);
        if i + 1 == |nodes| { highbit := if i > 0 then nodes[i - 1].startbit + MAPSIZE else 0; }
        nodes := nodes[..i] + nodes[i + 1..];
      } else {
        ClearInWord(nodes, i, k);
        nodes := nodes[i := n];
      }
    }

    method SetAt(i: nat, k: nat)
      requires Valid() && i < |nodes| && k < MAPSIZE
      modifies this
      ensures Valid() && Contents() == old(Contents()) + {old(nodes[i]).startbit + k}
    {
      SetInWord(nodes, i, k);
      nodes := nodes[i := nodes[i].(word := nodes[i].word + {k})];
    }

    /** A word of its own for a bit no word covers; at the end it sets the high bit. */
    method NewWord(i: nat, bit: nat)
      requires Valid() && Gap(nodes, i, bit) && bit - bit % MAPSIZE + MAPSIZE < LIMIT
      modifies this
      ensures Valid() && Contents() == old(Contents()) + {bit}
    {
      var startbit := bit - bit % MAPSIZE;
      InsertWord(nodes, i, bit);
      InsertHighbit(nodes, i, bit);
      assert Node(startbit, {bit - startbit}) == Word(bit);
      if i == |nodes| { highbit := startbit + MAPSIZE; }
      nodes := nodes[..i] + [Node(startbit, {bit - startbit})] + nodes[i..];
    }

    /** Fails exactly on the last 64 positions, past which the high bit would wrap to 0. */
    method SetBit(bit: nat, value: bool) returns (error: Option<SetError>)
      requires Valid() && bit < LIMIT
      modifies this
      ensures Valid()
      ensures error.Some? <==> bit >= LIMIT - MAPSIZE
      ensures Contents() ==
        if error.Some? then old(Contents()) else if value then old(Contents()) + {bit} else old(Contents()) - {bit}
    {
      var startbit := bit - bit % MAPSIZE;
      var high := (startbit + MAPSIZE) % LIMIT;
      BlockOf(bit);
      if high == 0 { return Some(EINVAL); }
      error := None;
      var i := 0;
      while i < |nodes| && nodes[i].startbit <= bit
        invariant i <= |nodes| && forall j | 0 <= j < i :: nodes[j].startbit + MAPSIZE <= bit
      {
        if nodes[i].startbit + MAPSIZE > bit {
          if value { SetAt(i, bit - nodes[i].startbit); } else { ClearAt(i, bit - nodes[i].startbit); }
          return;
        }
        i := i + 1;
      }
      GapMeansAbsent(nodes, i, bit);
      if value { NewWord(i, bit); }
    }
  }

  lemma BlockOf(bit: nat)
    requires bit < LIMIT
    ensures (bit - bit % MAPSIZE + MAPSIZE) % LIMIT == 0 <==> bit >= LIMIT - MAPSIZE
    ensures bit < LIMIT - MAPSIZE ==> bit - bit % MAPSIZE + MAPSIZE < LIMIT
  {
  }

  // ---------- set operations ----------

  ghost predicate Merging(a: seq<Node>, i: nat, b: seq<Node>, j: nat, out: seq<Node>) {
    && i <= |a| && j <= |b| && Canonical(out)
    && Bits(a) + Bits(b) == Bits(out) + Bits(a[i..]) + Bits(b[j..])
    && (i < |a| ==> forall k | 0 <= k < |out| :: out[k].startbit < a[i].startbit)
    && (j < |b| ==> forall k | 0 <= k < |out| :: out[k].startbit < b[j].startbit)
  }

  lemma MergeOne(a: seq<Node>, i: nat, b: seq<Node>, j: nat, out: seq<Node>)
    requires Canonical(a) && Canonical(b) && Merging(a, i, b, j, out)
    requires i < |a| && (j < |b| ==> a[i].startbit < b[j].startbit)
    ensures Merging(a, i + 1, b, j, out + [a[i]])
  {
    BitsSplit(a, i);
    BitsConcat(out, [a[i]]);
    BitsOne(a[i]);
    Canonical1(out, a[i]);
  }

  lemma Canonical1(out: seq<Node>, n: Node)
    requires Canonical(out) && GoodNode(n) && forall k | 0 <= k < |out| :: out[k].startbit < n.startbit
    ensures Canonical(out + [n])
  {
  }

  lemma MergingSwaps(a: seq<Node>, i: nat, b: seq<Node>, j: nat, out: seq<Node>)
    requires Merging(a, i, b, j, out)
    ensures Merging(b, j, a, i, out)
  {
    assert Bits(b) + Bits(a) == Bits(a) + Bits(b);
  }

  lemma MergeBoth(a: seq<Node>, i: nat, b: seq<Node>, j: nat, out: seq<Node>)
    requires Canonical(a) && Canonical(b) && Merging(a, i, b, j, out)
    requires i < |a| && j < |b| && a[i].startbit == b[j].startbit
    ensures Merging(a, i + 1, b, j + 1, out + [a[i].(word := a[i].word + b[j].word)])
  {
    var n := a[i].(word := a[i].word + b[j].word);
    BitsSplit(a, i);
    BitsSplit(b, j);
    BitsConcat(out, [n]);
    BitsOne(n);
    SameBlockUnion(a[i], b[j]);
    Canonical1(out, n);
  }

  method Or(e1: Ebitmap, e2: Ebitmap) returns (dst: Ebitmap)
    requires e1.Valid() && e2.Valid()
    ensures fresh(dst) && dst.Valid() && dst.Contents() == e1.Contents() + e2.Contents()
  {
    var a, b := e1.nodes, e2.nodes;
    var i, j, out := 0, 0, [];
    assert a[0..] == a && b[0..] == b && Bits([]) == {};
    while i < |a| || j < |b|
      invariant Merging(a, i, b, j, out)
      decreases |a| - i + |b| - j
    {
      i, j, out := OrNext(a, i, b, j, out);
    }
    assert a[|a|..] == [] && b[|b|..] == [];
    dst := new Ebitmap();
    dst.nodes := out;
    dst.highbit := if e1.highbit > e2.highbit then e1.highbit else e2.highbit;
    HighestOfBoth(a, b, out);
  }

  /** Takes over the next word, or the two next words if they stand for the same positions. */
  method OrNext(a: seq<Node>, i: nat, b: seq<Node>, j: nat, out: seq<Node>)
    returns (i': nat, j': nat, out': seq<Node>)
    requires Canonical(a) && Canonical(b) && Merging(a, i, b, j, out) && (i < |a| || j < |b|)
    ensures Merging(a, i', b, j', out') && i <= i' && j <= j' && i + j < i' + j'
  {
    i', j' := i, j;
    if i < |a| && j < |b| && a[i].startbit == b[j].startbit {
      MergeBoth(a, i, b, j, out);
      out' := out + [Node(a[i].startbit, a[i].word + b[j].word)];
      i', j' := i + 1, j + 1;
    } else if j == |b| || (i < |a| && a[i].startbit < b[j].startbit) {
      MergeOne(a, i, b, j, out);
      out' := out + [a[i]];
      i' := i + 1;
    } else {
      MergingSwaps(a, i, b, j, out);
      MergeOne(b, j, a, i, out);
      MergingSwaps(b, j + 1, a, i, out + [b[j]]);
      out' := out + [b[j]];
      j' := j + 1;
    }
  }

  /** The high bit is one word past the highest bit. */
  lemma HighestOfBoth(a: seq<Node>, b: seq<Node>, out: seq<Node>)
    requires Canonical(a) && Canonical(b) && Canonical(out) && Bits(out) == Bits(a) + Bits(b)
    ensures Highbit(out) == if Highbit(a) > Highbit(b) then Highbit(a) else Highbit(b)
  {
    HighbitCovers(a, out);
    HighbitCovers(b, out);
    HighbitReached(out, a, b);
  }

  lemma HighbitCovers(a: seq<Node>, out: seq<Node>)
    requires Canonical(a) && Canonical(out) && Bits(a) <= Bits(out)
    ensures Highbit(a) <= Highbit(out)
  {
    if a != [] {
      var n := a[|a| - 1];
      var k :| k in n.word;
      BitsSplit(a, |a| - 1);
      assert n.startbit + k in NodeBits(n);
      BelowHighbit(out);
      assert n.startbit + k in Bits(out);
      if out[|out| - 1].startbit < n.startbit { Spaced(out[|out| - 1], n); }
    }
  }

  lemma HighbitReached(out: seq<Node>, a: seq<Node>, b: seq<Node>)
    requires Canonical(a) && Canonical(b) && Canonical(out) && Bits(out) <= Bits(a) + Bits(b)
    ensures Highbit(out) <= Highbit(a) || Highbit(out) <= Highbit(b)
  {
    if out != [] {
      var n := out[|out| - 1];
      var k :| k in n.word;
      BitsSplit(out, |out| - 1);
      var top := n.startbit + k;
      assert top in NodeBits(n);
      BelowHighbit(a);
      BelowHighbit(b);
      if top in Bits(a) {
        BlockUp(n.startbit, top, Highbit(a));
      } else {
        assert top in Bits(b);
        BlockUp(n.startbit, top, Highbit(b));
      }
    }
  }

  lemma BlockUp(s: nat, bit: nat, h: nat)
    requires s % MAPSIZE == 0 && h % MAPSIZE == 0 && s <= bit < h
    ensures s + MAPSIZE <= h
  {
  }

  method And(e1: Ebitmap, e2: Ebitmap) returns (dst: Ebitmap, error: Option<SetError>)
    requires e1.Valid() && e2.Valid()
    ensures fresh(dst) && dst.Valid() && error.None?
    ensures dst.Contents() == e1.Contents() * e2.Contents()
  {
    BelowHighbit(e1.nodes);
    BelowHighbit(e2.nodes);
    var length := if e1.highbit < e2.highbit then e1.highbit else e2.highbit;
    dst := new Ebitmap();
    error := None;
    for i := 0 to length
      invariant fresh(dst) && dst.Valid() && error.None?
      invariant dst.Contents() == LowPart(e1.Contents() * e2.Contents(), i)
    {
      var x := e1.GetBit(i);
      var y := e2.GetBit(i);
      LowPartNext(e1.Contents() * e2.Contents(), i);
      if x && y {
        error := dst.SetBit(i, true);
        if error.Some? { return; }
      }
    }
    LowPartAll(e1.Contents() * e2.Contents(), length);
  }

  lemma LowPartNext(bits: set<nat>, i: nat)
    ensures LowPart(bits, i + 1) == if i in bits then LowPart(bits, i) + {i} else LowPart(bits, i)
    ensures i !in LowPart(bits, i)
  {
  }

  lemma LowPartAll(bits: set<nat>, i: nat)
    requires Within(bits, 0, i)
    ensures LowPart(bits, i) == bits
  {
  }

  method Xor(e1: Ebitmap, e2: Ebitmap) returns (dst: Ebitmap, error: Option<SetError>)
    requires e1.Valid() && e2.Valid()
    ensures fresh(dst) && dst.Valid() && error.None?
    ensures dst.Contents() == (e1.Contents() - e2.Contents()) + (e2.Contents() - e1.Contents())
  {
    BelowHighbit(e1.nodes);
    BelowHighbit(e2.nodes);
    var length := if e1.highbit > e2.highbit then e1.highbit else e2.highbit;
    ghost var odd := (e1.Contents() - e2.Contents()) + (e2.Contents() - e1.Contents());
    dst := new Ebitmap();
    error := None;
    for i := 0 to length
      invariant fresh(dst) && dst.Valid() && error.None?
      invariant dst.Contents() == LowPart(odd, i)
    {
      var x := e1.GetBit(i);
      var y := e2.GetBit(i);
      LowPartNext(odd, i);
      error := dst.SetBit(i, x != y);
      if error.Some? { return; }
    }
    LowPartAll(odd, length);
  }

  /** The complement below maxbit. Fails exactly when maxbit reaches into the last word. */
  method Not(e1: Ebitmap, maxbit: nat) returns (dst: Ebitmap, error: Option<SetError>)
    requires e1.Valid() && maxbit < LIMIT
    ensures fresh(dst) && dst.Valid()
    ensures error.Some? <==> maxbit > LIMIT - MAPSIZE
    ensures error.None? ==> forall b | 0 <= b :: b in dst.Contents() <==> b < maxbit && b !in e1.Contents()
  {
    dst := new Ebitmap();
    error := None;
    for i := 0 to maxbit
      invariant fresh(dst) && dst.Valid() && error.None? && i <= LIMIT - MAPSIZE
      invariant forall b | 0 <= b :: b in dst.Contents() <==> b < i && b !in e1.Contents()
    {
      var x := e1.GetBit(i);
      error := dst.SetBit(i, !x);
      if error.Some? { return; }
    }
  }

  method AndNot(e1: Ebitmap, e2: Ebitmap, maxbit: nat) returns (dst: Ebitmap, error: Option<SetError>)
    requires e1.Valid() && e2.Valid() && maxbit < LIMIT
    ensures fresh(dst) && dst.Valid()
    ensures error.Some? <==> maxbit > LIMIT - MAPSIZE
    ensures error.None? ==> dst.Contents() == LowPart(e1.Contents() - e2.Contents(), maxbit)
  {
    dst := new Ebitmap();
    var e3;
    e3, error := Not(e2, maxbit);
    if error.Some? { return; }
    dst, error := And(e1, e3);
  }

  // ---------- comparisons ----------

  /** Equal representations, hence equal sets. */
  method Cmp(e1: Ebitmap, e2: Ebitmap) returns (same: bool)
    requires e1.Valid() && e2.Valid()
    ensures same <==> e1.Contents() == e2.Contents()
  {
    if e1.Contents() == e2.Contents() { CanonicalUnique(e1.nodes, e2.nodes); }
    if e1.highbit != e2.highbit { return false; }
    var a, b := e1.nodes, e2.nodes;
    var i := 0;
    while i < |a| && i < |b| && a[i].startbit == b[i].startbit && a[i].word == b[i].word
      invariant i <= |a| && i <= |b| && a[..i] == b[..i]
    {
      i := i + 1;
    }
    if i < |a| || i < |b| { return false; }
    assert a[..i] == a && b[..i] == b;
    same := true;
  }

  lemma ContainsSkip(a: seq<Node>, i: nat, b: seq<Node>, j: nat)
    requires Canonical(a) && Canonical(b) && i < |a| && j < |b| && a[i].startbit < b[j].startbit
    ensures Bits(b[j..]) <= Bits(a[i..]) <==> Bits(b[j..]) <= Bits(a[i + 1..])
  {
    BitsSplit(a, i);
    AheadIsApart(a, i, b, j);
    SkipPart(NodeBits(a[i]), Bits(a[i + 1..]), Bits(b[j..]));
  }

  lemma SkipPart(m: set<nat>, r: set<nat>, x: set<nat>)
    requires m * x == {}
    ensures x <= m + r <==> x <= r
    ensures (m + r) * x == r * x
  {
    assert (m + r) * x == m * x + r * x;
    if x <= m + r {
      forall b | b in x ensures b in r { assert b in m + r && b !in m * x; }
    }
  }

  lemma PairParts(n: set<nat>, y: set<nat>, m: set<nat>, x: set<nat>)
    requires n * x == {} && m * y == {}
    ensures n + y <= m + x <==> n <= m && y <= x
  {
    if n + y <= m + x {
      forall b | b in n ensures b in m { assert b in m + x && b !in n * x; }
      forall b | b in y ensures b in x { assert b in m + x && b !in m * y; }
    }
  }

  lemma ContainsWord(a: seq<Node>, i: nat, b: seq<Node>, j: nat)
    requires Canonical(a) && Canonical(b) && i < |a| && j < |b| && a[i].startbit == b[j].startbit
    ensures Bits(b[j..]) <= Bits(a[i..]) <==> b[j].word <= a[i].word && Bits(b[j + 1..]) <= Bits(a[i + 1..])
  {
    BitsSplit(a, i);
    BitsSplit(b, j);
    LaterIsApart(a, i, b, j);
    LaterIsApart(b, j, a, i);
    SameBlockSubset(b[j], a[i]);
    PairParts(NodeBits(b[j]), Bits(b[j + 1..]), NodeBits(a[i]), Bits(a[i + 1..]));
  }

  /** A word of b that no word of a covers. */
  lemma ContainsMisses(a: seq<Node>, i: nat, b: seq<Node>, j: nat)
    requires Canonical(a) && Canonical(b) && i <= |a| && j < |b| && (i < |a| ==> b[j].startbit < a[i].startbit)
    ensures !(Bits(b[j..]) <= Bits(a[i..]))
  {
    BitsSplit(b, j);
    AheadIsApart(b, j, a, i);
    var k :| k in b[j].word;
    WordBits(b[j], k);
    assert b[j].startbit + k !in NodeBits(b[j]) * Bits(a[i..]);
    assert b[j].startbit + k in Bits(b[j..]);
  }

  method Contains(e1: Ebitmap, e2: Ebitmap) returns (superset: bool)
    requires e1.Valid() && e2.Valid()
    ensures superset <==> e2.Contents() <= e1.Contents()
  {
    var a, b := e1.nodes, e2.nodes;
    if e1.highbit < e2.highbit {
      if e2.Contents() <= e1.Contents() { HighbitCovers(b, a); }
      return false;
    }
    var i, j := 0, 0;
    assert a[0..] == a && b[0..] == b;
    while i < |a| && j < |b| && a[i].startbit <= b[j].startbit
      invariant i <= |a| && j <= |b|
      invariant Bits(b) <= Bits(a) <==> Bits(b[j..]) <= Bits(a[i..])
      decreases |a| - i
    {
      if a[i].startbit < b[j].startbit {
        ContainsSkip(a, i, b, j);
        i := i + 1;
        continue;
      }
      ContainsWord(a, i, b, j);
      if !(b[j].word <= a[i].word) { return false; }
      i, j := i + 1, j + 1;
    }
    if j < |b| {
      ContainsMisses(a, i, b, j);
      return false;
    }
    assert b[j..] == [];
    superset := true;
  }

  method MatchAny(e1: Ebitmap, e2: Ebitmap) returns (overlap: bool)
    requires e1.Valid() && e2.Valid()
    ensures overlap <==> e1.Contents() * e2.Contents() != {}
  {
    var a, b := e1.nodes, e2.nodes;
    var i, j := 0, 0;
    assert a[0..] == a && b[0..] == b;
    while i < |a| && j < |b|
      invariant i <= |a| && j <= |b|
      invariant Bits(a) * Bits(b) != {} <==> Bits(a[i..]) * Bits(b[j..]) != {}
      decreases |a| - i + |b| - j
    {
      if a[i].startbit < b[j].startbit {
        MatchSkip(a, i, b, j);
        i := i + 1;
      } else if b[j].startbit < a[i].startbit {
        MatchSkip(b, j, a, i);
        SwapMatch(Bits(b[j..]), Bits(a[i..]), Bits(b[j + 1..]));
        j := j + 1;
      } else {
        MatchWord(a, i, b, j);
        if a[i].word * b[j].word != {} { return true; }
        i, j := i + 1, j + 1;
      }
    }
    assert i == |a| ==> a[i..] == [];
    assert j == |b| ==> b[j..] == [];
    overlap := false;
  }

  lemma SwapMatch(x: set<nat>, y: set<nat>, z: set<nat>)
    ensures x * y == y * x && z * y == y * z
  {
  }

  lemma MatchSkip(a: seq<Node>, i: nat, b: seq<Node>, j: nat)
    requires Canonical(a) && Canonical(b) && i < |a| && j < |b| && a[i].startbit < b[j].startbit
    ensures Bits(a[i..]) * Bits(b[j..]) == Bits(a[i + 1..]) * Bits(b[j..])
  {
    BitsSplit(a, i);
    AheadIsApart(a, i, b, j);
    SkipPart(NodeBits(a[i]), Bits(a[i + 1..]), Bits(b[j..]));
  }

  lemma MatchWord(a: seq<Node>, i: nat, b: seq<Node>, j: nat)
    requires Canonical(a) && Canonical(b) && i < |a| && j < |b| && a[i].startbit == b[j].startbit
    ensures Bits(a[i..]) * Bits(b[j..]) != {} <==>
      a[i].word * b[j].word != {} || Bits(a[i + 1..]) * Bits(b[j + 1..]) != {}
  {
    BitsSplit(a, i);
    BitsSplit(b, j);
    LaterIsApart(a, i, b, j);
    LaterIsApart(b, j, a, i);
    SameBlockOverlap(a[i], b[j]);
    var m, n, x, y := NodeBits(a[i]), NodeBits(b[j]), Bits(a[i + 1..]), Bits(b[j + 1..]);
    assert (m + x) * (n + y) == m * n + m * y + x * n + x * y;
    assert x * n == n * x;
  }

  // ---------- counting and visiting ----------

  method Cardinality(e1: Ebitmap) returns (count: nat)
    requires e1.Valid()
    ensures count == |e1.Contents()|
  {
    var start := if e1.nodes == [] then 0 else e1.nodes[0].startbit;
    ghost var bits := e1.Contents();
    BelowHighbit(e1.nodes);
    if e1.nodes != [] {
      Slices(e1.nodes, 0);
      assert e1.nodes[0..] == e1.nodes;
      BitsBetween(e1.nodes, start, LIMIT);
      assert e1.nodes[0].startbit <= e1.nodes[|e1.nodes| - 1].startbit;
    }
    assert LowPart(bits, start) == {};
    count := 0;
    for i := start to e1.highbit
      invariant count == |LowPart(bits, i)|
    {
      var x := e1.GetBit(i);
      LowPartNext(bits, i);
      if x { count := count + 1; }
    }
    LowPartAll(bits, e1.highbit);
  }

  /** The number of positions in which two bitmaps differ. */
  method HammingDistance(e1: Ebitmap, e2: Ebitmap) returns (distance: nat)
    requires e1.Valid() && e2.Valid()
    ensures distance == |(e1.Contents() - e2.Contents()) + (e2.Contents() - e1.Contents())|
  {
    var same := Cmp(e1, e2);
    if same {
      assert (e1.Contents() - e2.Contents()) + (e2.Contents() - e1.Contents()) == {};
      return 0;
    }
    var tmp, error := Xor(e1, e2);
    distance := Cardinality(tmp);
  }

  /** The positions s, s + 1, ..., s + k - 1. */
  function Run(s: nat, k: nat): seq<nat> {
    seq(k, i requires 0 <= i < k => s + i)
  }

  /** Iteration passes through set and clear positions alike, word by word. */
  function Visited(nodes: seq<Node>): seq<nat> {
    if nodes == [] then [] else Visited(nodes[..|nodes| - 1]) + Run(nodes[|nodes| - 1].startbit, MAPSIZE)
  }

  method ForEachBit(e: Ebitmap) returns (visited: seq<nat>)
    requires e.Valid()
    ensures visited == Visited(e.nodes)
  {
    BelowHighbit(e.nodes);
    visited := [];
    if e.nodes == [] { return; }
    var n, bit := 0, e.nodes[0].startbit;
    assert e.nodes[..0] == [];
    while bit < e.highbit
      invariant n < |e.nodes|
      invariant e.nodes[n].startbit <= bit <= e.nodes[n].startbit + MAPSIZE
      invariant bit == e.nodes[n].startbit + MAPSIZE ==> n == |e.nodes| - 1
      invariant visited == Visited(e.nodes[..n]) + Run(e.nodes[n].startbit, bit - e.nodes[n].startbit)
      decreases |e.nodes| - n, e.highbit - bit
    {
      HighestNode(e.nodes, n);
      visited := visited + [bit];
      if bit == e.nodes[n].startbit + MAPSIZE - 1 && n + 1 < |e.nodes| {
        VisitNext(e.nodes, n);
        assert visited == Visited(e.nodes[..n]) + Run(e.nodes[n].startbit, MAPSIZE);
        n := n + 1;
        bit := e.nodes[n].startbit;
      } else {
        bit := bit + 1;
      }
    }
    HighestNode(e.nodes, n);
    assert n == |e.nodes| - 1 && bit == e.highbit;
  }

  lemma HighestNode(nodes: seq<Node>, n: nat)
    requires Canonical(nodes) && n < |nodes|
    ensures nodes[n].startbit + MAPSIZE <= Highbit(nodes)
    ensures nodes[n].startbit + MAPSIZE == Highbit(nodes) <==> n == |nodes| - 1
  {
  }

  lemma VisitNext(nodes: seq<Node>, n: nat)
    requires n < |nodes|
    ensures Visited(nodes[..n + 1]) == Visited(nodes[..n]) + Run(nodes[n].startbit, MAPSIZE)
  {
    assert nodes[..n + 1][..n] == nodes[..n];
  }
}
