/** How a category set is compressed for printing: runs become c1.c4, pairs c1,c2. */
module MlsRuns {
  import opened Wrappers
  import opened Ebitmap

  /** A printed item: one category, or the ends of a range. */
  datatype Item = Item(first: nat, last: Option<nat>)

  function Interval(a: nat, b: nat): (s: set<nat>)
    ensures forall x :: x in s <==> a <= x <= b
    decreases b
  {
    if b < a then {} else if b == 0 then {0} else Interval(a, b - 1) + {b}
  }

  function ItemSet(it: Item): set<nat> {
    if it.last.None? then {it.first} else Interval(it.first, it.last.value)
  }

  /** The categories a list of items stands for. */
  function Denoted(items: seq<Item>): set<nat> {
    if items == [] then {} else Denoted(items[..|items| - 1]) + ItemSet(items[|items| - 1])
  }

  /** Ending a run of r categories whose last is e. */
  function Close(items: seq<Item>, r: nat, e: nat): seq<Item> {
    if r > 2 && items != [] then items[..|items| - 1] + [items[|items| - 1].(last := Some(e))]
    else if r == 2 then items + [Item(e, None)]
    else items
  }

  datatype Scan = Scan(items: seq<Item>, run: nat)

  /** The next visited position: it opens a run, prolongs one, or ends one. A run is taken
      to end just before the position visited next. */
  function Visit(st: Scan, i: nat, on: bool): Scan {
    if on then (if st.run > 0 then st.(run := st.run + 1) else Scan(st.items + [Item(i, None)], 1))
    else Scan(if st.run > 1 && i > 0 then Close(st.items, st.run, i - 1) else st.items, 0)
  }

  function ScanTo(v: seq<nat>, s: set<nat>, k: nat): Scan
    requires k <= |v|
  {
    if k == 0 then Scan([], 0) else Visit(ScanTo(v, s, k - 1), v[k - 1], v[k - 1] in s)
  }

  function AllItems(v: seq<nat>, s: set<nat>): seq<Item> {
    var st := ScanTo(v, s, |v|);
    if v == [] then [] else Close(st.items, st.run, v[|v| - 1])
  }

  /** The items printed for a bitmap. */
  function Items(nodes: seq<Node>): seq<Item> {
    AllItems(Visited(nodes), Bits(nodes))
  }

  // ---------- what the visited positions are ----------

  /** Position k is not the next one after position k - 1. */
  predicate Jump(v: seq<nat>, k: nat) {
    0 < k < |v| && v[k] != v[k - 1] + 1
  }

  predicate Skips(v: seq<nat>, s: set<nat>, n: nat, k: nat) {
    k < |v| && 0 < v[k] <= n && v[k] - 1 !in s
  }

  /** Visiting in order, missing nothing, and jumping only over positions not in the set. */
  ghost predicate Visits(v: seq<nat>, s: set<nat>, n: nat) {
    && (forall i, j | 0 <= i < j < |v| :: v[i] < v[j])
    && (forall b | b in s :: b in v && b < n)
    && (forall k | Jump(v, k) :: Skips(v, s, n, k))
  }

  lemma RunAt(s: nat, k: nat, i: nat)
    requires i < k
    ensures |Run(s, k)| == k && Run(s, k)[i] == s + i
  {
  }

  lemma VisitedSnoc(nodes: seq<Node>, n: Node)
    ensures Visited(nodes + [n]) == Visited(nodes) + Run(n.startbit, MAPSIZE)
  {
    assert (nodes + [n])[..|nodes|] == nodes;
  }

  /** The last position visited is the last of the last word. */
  lemma VisitedEnd(nodes: seq<Node>)
    ensures nodes != [] ==>
      Visited(nodes) != [] && Visited(nodes)[|Visited(nodes)| - 1] == nodes[|nodes| - 1].startbit + MAPSIZE - 1
  {
    if nodes != [] {
      RunAt(nodes[|nodes| - 1].startbit, MAPSIZE, MAPSIZE - 1);
    }
  }

  lemma VisitsRun(v: seq<nat>, s: set<nat>, n: nat, w: Node)
    requires Visits(v, s, n) && GoodNode(w) && Within(NodeBits(w), 0, n)
    requires v != [] ==> v[|v| - 1] < w.startbit && v[|v| - 1] % MAPSIZE == MAPSIZE - 1
    requires forall b | b in s :: b < w.startbit
    requires v != [] ==> forall b | b in s :: b <= v[|v| - 1]
    ensures Visits(v + Run(w.startbit, MAPSIZE), s + NodeBits(w), n)
  {
    var r := Run(w.startbit, MAPSIZE);
    var v' := v + r;
    forall i | 0 <= i < MAPSIZE ensures r[i] == w.startbit + i { RunAt(w.startbit, MAPSIZE, i); }
    var some :| some in w.word;
    WordBits(w, some);
    assert w.startbit < n;
    forall b | b in NodeBits(w) ensures b in v' && b < n {
      NodeBitsExact(w, b);
      assert v'[|v| + (b - w.startbit)] == b;
    }
    forall k: nat | Jump(v', k) ensures Skips(v', s + NodeBits(w), n, k) {
      if k < |v| {
        assert Jump(v, k) && Skips(v, s, n, k);
        NodeBitsExact(w, v'[k] - 1);
      } else {
        assert k == |v| && v'[k] == w.startbit;
        NodeBitsExact(w, v'[k] - 1);
      }
    }
  }

  /** Iterating over a canonical bitmap visits in that sense. */
  lemma {:induction false} VisitedVisits(nodes: seq<Node>, n: nat)
    requires Canonical(nodes) && Within(Bits(nodes), 0, n)
    ensures Visits(Visited(nodes), Bits(nodes), n)
  {
    if nodes != [] {
      var m := |nodes| - 1;
      var init, w := nodes[..m], nodes[m];
      assert Bits(nodes) == Bits(init) + NodeBits(w);
      VisitedVisits(init, n);
      VisitedEnd(init);
      BelowHighbit(init);
      if m > 0 { Spaced(nodes[m - 1], w); }
      VisitsRun(Visited(init), Bits(init), n, w);
    }
  }

  // ---------- when the printed items are right ----------

  /** How many consecutive visited positions before k are in the set. */
  function RunBefore(v: seq<nat>, s: set<nat>, k: nat): (r: nat)
    requires k <= |v|
    ensures r <= k
  {
    if k == 0 || v[k - 1] !in s then 0 else RunBefore(v, s, k - 1) + 1
  }

  predicate EndsAt(v: seq<nat>, s: set<nat>, y: nat) {
    y == |v| || (y < |v| && v[y] !in s)
  }

  /** A run that is printed wrongly: two categories and then a jump, or three or more with
      a jump among them or right after them. */
  ghost predicate BadEnd(v: seq<nat>, s: set<nat>, y: nat) {
    y <= |v| && EndsAt(v, s, y) &&
    var r := RunBefore(v, s, y);
    (r == 2 && Jump(v, y)) || (r > 2 && exists g: nat :: y - r < g <= y && Jump(v, g))
  }

  /** The members of the set among the first m visited positions. */
  function Seen(v: seq<nat>, s: set<nat>, m: nat): set<nat>
    requires m <= |v|
  {
    if m == 0 then {}
    else if v[m - 1] in s then Seen(v, s, m - 1) + {v[m - 1]} else Seen(v, s, m - 1)
  }

  lemma {:induction false} SeenExact(v: seq<nat>, s: set<nat>, m: nat, x: nat)
    requires m <= |v|
    ensures x in Seen(v, s, m) <==> x in s && exists j :: 0 <= j < m && v[j] == x
  {
    if m > 0 { SeenExact(v, s, m - 1, x); }
  }

  /** The state of the scan, in terms of what has been visited. */
  lemma {:induction false} ScanState(v: seq<nat>, s: set<nat>, k: nat)
    requires k <= |v|
    ensures var st := ScanTo(v, s, k);
      && st.run == RunBefore(v, s, k)
      && (st.run > 0 ==> st.items != [] && st.items[|st.items| - 1] == Item(v[k - st.run], None))
      && (forall j | k - st.run <= j < k :: v[j] in s)
  {
    if k > 0 { ScanState(v, s, k - 1); }
  }

  ghost predicate Sound(v: seq<nat>, s: set<nat>, k: nat)
    requires k <= |v|
  {
    var st := ScanTo(v, s, k);
    st.run <= k && Denoted(st.items) == Seen(v, s, if st.run > 0 then k - st.run + 1 else k)
  }

  ghost predicate Spoiled(items: seq<Item>, s: set<nat>) {
    exists x :: x in Denoted(items) && x !in s
  }

  lemma DenotedSnoc(items: seq<Item>, it: Item)
    ensures Denoted(items + [it]) == Denoted(items) + ItemSet(it)
  {
    assert (items + [it])[..|items|] == items;
  }

  lemma CloseDenotes(items: seq<Item>, r: nat, e: nat)
    requires r > 0 && items != [] && items[|items| - 1].last.None? && items[|items| - 1].first <= e
    ensures Denoted(Close(items, r, e)) ==
            Denoted(items) + (if r > 2 then Interval(items[|items| - 1].first, e) else if r == 2 then {e} else {})
  {
    var n := |items| - 1;
    if r > 2 {
      DenotedSnoc(items[..n], items[n].(last := Some(e)));
      assert items[n].first in Interval(items[n].first, e);
      Absorb(Denoted(items[..n]), items[n].first, Interval(items[n].first, e));
    } else if r == 2 {
      DenotedSnoc(items, Item(e, None));
    }
  }

  lemma Absorb(a: set<nat>, x: nat, b: set<nat>)
    requires x in b
    ensures a + {x} + b == a + b
  {
  }

  function EndOf(v: seq<nat>, y: nat): nat
    requires 0 < y <= |v| && (y < |v| ==> v[y] > 0)
  {
    if y < |v| then v[y] - 1 else v[y - 1]
  }

  lemma {:induction false} NoJumpsConsecutive(v: seq<nat>, x: nat, y: nat)
    requires x <= y < |v| && forall g: nat | x < g <= y :: !Jump(v, g)
    ensures v[y] == v[x] + (y - x)
  {
    if x < y {
      assert !Jump(v, y);
      NoJumpsConsecutive(v, x, y - 1);
    }
  }

  lemma {:induction false} SeenGrows(v: seq<nat>, s: set<nat>, x: nat, m: nat)
    requires x < m <= |v| && (forall j | x <= j < m :: v[j] in s)
    requires forall g: nat | x < g < m :: !Jump(v, g)
    ensures Seen(v, s, m) == Seen(v, s, x) + Interval(v[x], v[m - 1])
  {
    if m - 1 > x {
      SeenGrows(v, s, x, m - 1);
      assert !Jump(v, m - 1);
      assert Interval(v[x], v[m - 1]) == Interval(v[x], v[m - 2]) + {v[m - 1]} by {
        NoJumpsConsecutive(v, x, m - 2);
      }
      SetAssoc(Seen(v, s, x), Interval(v[x], v[m - 2]), {v[m - 1]});
    } else {
      assert Interval(v[x], v[x]) == {v[x]};
    }
  }

  lemma SetAssoc(a: set<nat>, b: set<nat>, c: set<nat>)
    ensures a + b + c == a + (b + c)
  {
  }

  /** Ending a sound run gives the set seen so far, or something that is not in it. */
  lemma EndRun(v: seq<nat>, s: set<nat>, n: nat, y: nat)
    requires Visits(v, s, n) && 0 < y <= |v| && EndsAt(v, s, y) && Sound(v, s, y) && RunBefore(v, s, y) > 0
    requires y < |v| ==> v[y] > 0
    ensures var st := ScanTo(v, s, y);
      if BadEnd(v, s, y) then Spoiled(Close(st.items, st.run, EndOf(v, y)), s)
      else Denoted(Close(st.items, st.run, EndOf(v, y))) == Seen(v, s, y)
  {
    var st, e := ScanTo(v, s, y), EndOf(v, y);
    ScanState(v, s, y);
    FirstBeforeEnd(v, s, n, y);
    CloseDenotes(st.items, st.run, e);
    if BadEnd(v, s, y) { BadEndSpoils(v, s, n, y, st.items); } else { SoundEnd(v, s, y); }
  }

  lemma FirstBeforeEnd(v: seq<nat>, s: set<nat>, n: nat, y: nat)
    requires Visits(v, s, n) && 0 < y <= |v| && RunBefore(v, s, y) > 0
    requires y < |v| ==> v[y] > 0
    ensures v[y - RunBefore(v, s, y)] <= v[y - 1] <= EndOf(v, y)
  {
  }

  /** A jump inside a printed range, or at its end, brings in a position that is absent. */
  lemma BadEndSpoils(v: seq<nat>, s: set<nat>, n: nat, y: nat, items: seq<Item>)
    requires Visits(v, s, n) && 0 < y <= |v| && RunBefore(v, s, y) > 0 && BadEnd(v, s, y)
    requires y < |v| ==> v[y] > 0
    requires items != [] && items[|items| - 1] == Item(v[y - RunBefore(v, s, y)], None)
    ensures Spoiled(Close(items, RunBefore(v, s, y), EndOf(v, y)), s)
  {
    var r, e := RunBefore(v, s, y), EndOf(v, y);
    FirstBeforeEnd(v, s, n, y);
    CloseDenotes(items, r, e);
    var g := BadJump(v, s, n, y);
    assert v[g] - 1 in Denoted(Close(items, r, e));
  }

  /** The jump, and the absent position it brings in. */
  lemma BadJump(v: seq<nat>, s: set<nat>, n: nat, y: nat) returns (g: nat)
    requires Visits(v, s, n) && 0 < y <= |v| && RunBefore(v, s, y) > 0 && BadEnd(v, s, y)
    ensures g < |v| && 0 < v[g] && v[g] - 1 !in s
    ensures v[y - RunBefore(v, s, y)] <= v[g] - 1 <= EndOf(v, y)
    ensures RunBefore(v, s, y) == 2 ==> v[g] - 1 == EndOf(v, y)
  {
    var r := RunBefore(v, s, y);
    g := y;
    if r > 2 { g :| y - r < g <= y && Jump(v, g); }
    assert Skips(v, s, n, g);
    assert v[y - r] <= v[g - 1] <= v[g] - 1;
  }

  lemma SoundEnd(v: seq<nat>, s: set<nat>, y: nat)
    requires 0 < y <= |v| && EndsAt(v, s, y) && RunBefore(v, s, y) > 0 && !BadEnd(v, s, y)
    requires y < |v| ==> v[y] > 0
    requires forall i, j | 0 <= i < j < |v| :: v[i] < v[j]
    ensures var r, e := RunBefore(v, s, y), EndOf(v, y);
      Seen(v, s, y) == Seen(v, s, y - r + 1) + (if r > 2 then Interval(v[y - r], e) else if r == 2 then {e} else {})
  {
    var r, e := RunBefore(v, s, y), EndOf(v, y);
    ScanState(v, s, y);
    if r == 2 {
      assert !Jump(v, y);
    } else if r > 2 {
      assert forall g: nat | y - r < g <= y :: !Jump(v, g);
      SeenGrows(v, s, y - r, y);
      assert !Jump(v, y) && e == v[y - 1];
      assert Seen(v, s, y - r + 1) == Seen(v, s, y - r) + {v[y - r]};
      Absorb(Seen(v, s, y - r), v[y - r], Interval(v[y - r], e));
    }
  }

  lemma StaysSpoiled(items: seq<Item>, r: nat, e: nat, s: set<nat>)
    requires Spoiled(items, s)
    requires r > 0 ==> items != [] && items[|items| - 1].last.None? && items[|items| - 1].first <= e
    ensures Spoiled(Close(items, r, e), s)
  {
    var x :| x in Denoted(items) && x !in s;
    if r > 0 {
      CloseDenotes(items, r, e);
      assert x in Denoted(Close(items, r, e));
    }
  }

  ghost predicate BadBefore(v: seq<nat>, s: set<nat>, k: nat) {
    exists y: nat :: y < k && BadEnd(v, s, y)
  }

  /** Up to any point the scan is sound, or an earlier bad run has spoiled it for good. */
  lemma {:induction false} ScanSound(v: seq<nat>, s: set<nat>, n: nat, k: nat)
    requires Visits(v, s, n) && k <= |v|
    ensures if BadBefore(v, s, k) then Spoiled(ScanTo(v, s, k).items, s) else Sound(v, s, k)
  {
    if k > 0 {
      ScanSound(v, s, n, k - 1);
      ScanStep(v, s, n, k - 1);
    }
  }

  lemma BadBeforeNext(v: seq<nat>, s: set<nat>, k: nat)
    ensures BadBefore(v, s, k + 1) <==> BadBefore(v, s, k) || BadEnd(v, s, k)
  {
  }

  lemma ScanStep(v: seq<nat>, s: set<nat>, n: nat, k: nat)
    requires Visits(v, s, n) && k < |v|
    requires if BadBefore(v, s, k) then Spoiled(ScanTo(v, s, k).items, s) else Sound(v, s, k)
    ensures if BadBefore(v, s, k + 1) then Spoiled(ScanTo(v, s, k + 1).items, s) else Sound(v, s, k + 1)
  {
    BadBeforeNext(v, s, k);
    if v[k] in s {
      StepOn(v, s, k);
    } else if BadBefore(v, s, k) {
      StepOffSpoiled(v, s, n, k);
    } else {
      StepOff(v, s, n, k);
    }
  }

  lemma StepOn(v: seq<nat>, s: set<nat>, k: nat)
    requires k < |v| && v[k] in s
    ensures !BadEnd(v, s, k)
    ensures Spoiled(ScanTo(v, s, k).items, s) ==> Spoiled(ScanTo(v, s, k + 1).items, s)
    ensures Sound(v, s, k) ==> Sound(v, s, k + 1)
  {
    var st := ScanTo(v, s, k);
    if st.run == 0 {
      DenotedSnoc(st.items, Item(v[k], None));
      if Spoiled(st.items, s) {
        var x :| x in Denoted(st.items) && x !in s;
        assert x in Denoted(ScanTo(v, s, k + 1).items);
      }
    }
  }

  lemma StepOffSpoiled(v: seq<nat>, s: set<nat>, n: nat, k: nat)
    requires Visits(v, s, n) && k < |v| && v[k] !in s && Spoiled(ScanTo(v, s, k).items, s)
    ensures Spoiled(ScanTo(v, s, k + 1).items, s)
  {
    var st := ScanTo(v, s, k);
    ScanState(v, s, k);
    if st.run > 1 {
      assert v[k - st.run] < v[k];
      FirstBeforeEnd(v, s, n, k);
      StaysSpoiled(st.items, st.run, v[k] - 1, s);
    }
  }

  lemma StepOff(v: seq<nat>, s: set<nat>, n: nat, k: nat)
    requires Visits(v, s, n) && k < |v| && v[k] !in s && Sound(v, s, k)
    ensures if BadEnd(v, s, k) then Spoiled(ScanTo(v, s, k + 1).items, s) else Sound(v, s, k + 1)
  {
    ScanState(v, s, k);
    if RunBefore(v, s, k) > 0 { StepOffRun(v, s, n, k); } else { StepOffIdle(v, s, k); }
  }

  /** Outside a run nothing is printed. */
  lemma StepOffIdle(v: seq<nat>, s: set<nat>, k: nat)
    requires k < |v| && v[k] !in s && Sound(v, s, k) && RunBefore(v, s, k) == 0
    ensures !BadEnd(v, s, k) && Sound(v, s, k + 1)
  {
    ScanState(v, s, k);
  }

  lemma StepOffRun(v: seq<nat>, s: set<nat>, n: nat, k: nat)
    requires Visits(v, s, n) && k < |v| && v[k] !in s && Sound(v, s, k) && RunBefore(v, s, k) > 0
    ensures if BadEnd(v, s, k) then Spoiled(ScanTo(v, s, k + 1).items, s) else Sound(v, s, k + 1)
  {
    var st := ScanTo(v, s, k);
    ScanState(v, s, k);
    assert v[k - st.run] < v[k];
    EndRun(v, s, n, k);
  }

  /** The items for the run that ends before position y: one category, two, or a range. */
  function RunItems(v: seq<nat>, s: set<nat>, y: nat): seq<Item>
    requires y <= |v| && Ascending(v)
  {
    var r := RunBefore(v, s, y);
    if r == 0 then []
    else if r == 1 then [Item(v[y - 1], None)]
    else if r == 2 then [Item(v[y - 2], None), Item(EndOf(v, y), None)]
    else [Item(v[y - r], Some(EndOf(v, y)))]
  }

  predicate Ascending(v: seq<nat>) {
    forall i, j | 0 <= i < j < |v| :: v[i] < v[j]
  }

  /** The items for the runs that have ended before position k was reached. */
  function RunsTo(v: seq<nat>, s: set<nat>, k: nat): seq<Item>
    requires k <= |v| && Ascending(v)
  {
    if k == 0 then []
    else if v[k - 1] in s then RunsTo(v, s, k - 1)
    else RunsTo(v, s, k - 1) + RunItems(v, s, k - 1)
  }

  /** The scan prints run by run. */
  lemma {:induction false} ScanIsRuns(v: seq<nat>, s: set<nat>, k: nat)
    requires k <= |v| && Ascending(v)
    ensures var r := RunBefore(v, s, k);
            ScanTo(v, s, k).items == RunsTo(v, s, k) + if r > 0 then [Item(v[k - r], None)] else []
  {
    if k > 0 {
      ScanIsRuns(v, s, k - 1);
      ScanState(v, s, k - 1);
      if v[k - 1] !in s { CloseIsRun(v, s, k - 1, RunsTo(v, s, k - 1)); }
    }
  }

  lemma CloseIsRun(v: seq<nat>, s: set<nat>, y: nat, items: seq<Item>)
    requires y <= |v| && Ascending(v)
    ensures var r := RunBefore(v, s, y);
            r > 0 ==> Close(items + [Item(v[y - r], None)], r, EndOf(v, y)) == items + RunItems(v, s, y)
  {
    var r := RunBefore(v, s, y);
    if r > 0 {
      var first := Item(v[y - r], None);
      assert (items + [first])[..|items|] == items;
    }
  }

  /** What is printed: for each run in turn a single category, two of them, or a range. */
  lemma ItemsAreRuns(v: seq<nat>, s: set<nat>)
    requires Ascending(v)
    ensures AllItems(v, s) == RunsTo(v, s, |v|) + RunItems(v, s, |v|)
  {
    ScanIsRuns(v, s, |v|);
    ScanState(v, s, |v|);
    CloseIsRun(v, s, |v|, RunsTo(v, s, |v|));
  }

  /** The printed items stand for the set exactly when no run is printed wrongly. */
  lemma ItemsFaithful(v: seq<nat>, s: set<nat>, n: nat)
    requires Visits(v, s, n)
    ensures Denoted(AllItems(v, s)) == s <==> !BadBefore(v, s, |v| + 1)
  {
    ScanSound(v, s, n, |v|);
    ScanState(v, s, |v|);
    var st := ScanTo(v, s, |v|);
    assert BadBefore(v, s, |v| + 1) <==> BadBefore(v, s, |v|) || BadEnd(v, s, |v|);
    AllSeen(v, s, n);
    if v != [] {
      if BadBefore(v, s, |v|) {
        StaysSpoiled(st.items, st.run, v[|v| - 1], s);
      } else if st.run > 0 {
        EndRun(v, s, n, |v|);
      }
    }
  }

  lemma AllSeen(v: seq<nat>, s: set<nat>, n: nat)
    requires Visits(v, s, n)
    ensures Seen(v, s, |v|) == s
  {
    forall x ensures x in Seen(v, s, |v|) <==> x in s {
      SeenExact(v, s, |v|, x);
    }
  }

  ghost predicate Faithful(nodes: seq<Node>) {
    Denoted(Items(nodes)) == Bits(nodes)
  }

  /** For a bitmap: a run of two then an absent word, or of three or more across one. */
  lemma FaithfulExactly(nodes: seq<Node>, n: nat)
    requires Canonical(nodes) && Within(Bits(nodes), 0, n)
    ensures Faithful(nodes) <==> !BadBefore(Visited(nodes), Bits(nodes), |Visited(nodes)| + 1)
  {
    VisitedVisits(nodes, n);
    ItemsFaithful(Visited(nodes), Bits(nodes), n);
  }

  /** No word is absent between two that are present. */
  ghost predicate Gapless(nodes: seq<Node>) {
    forall i | 0 < i < |nodes| :: nodes[i].startbit == nodes[i - 1].startbit + MAPSIZE
  }

  lemma {:induction false} GaplessNeverJumps(nodes: seq<Node>, k: nat)
    requires Gapless(nodes)
    ensures !Jump(Visited(nodes), k)
  {
    if nodes != [] {
      var m := |nodes| - 1;
      var v := Visited(nodes[..m]);
      GaplessNeverJumps(nodes[..m], k);
      VisitedEnd(nodes[..m]);
      if |v| <= k < |v| + MAPSIZE {
        RunAt(nodes[m].startbit, MAPSIZE, k - |v|);
        if k > |v| { RunAt(nodes[m].startbit, MAPSIZE, k - 1 - |v|); }
      }
    }
  }

  /** Without a gap every set is printed faithfully. */
  lemma GaplessFaithful(nodes: seq<Node>, n: nat)
    requires Canonical(nodes) && Gapless(nodes) && Within(Bits(nodes), 0, n)
    ensures Faithful(nodes)
  {
    FaithfulExactly(nodes, n);
    forall k: nat ensures !Jump(Visited(nodes), k) { GaplessNeverJumps(nodes, k); }
  }
}
