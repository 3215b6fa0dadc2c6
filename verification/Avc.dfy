/** The userspace access vector cache: a fixed pool of nodes, hash chains, second-chance
    reclaim, and revocation by policy load and by switching to enforcing mode. */
module Avc {
  import opened Wrappers

  const SLOTS: nat := 512
  const MAX_NODES: nat := 410

  type Av = set<nat>

  /** What the server decides; permissive is its per-domain flag. */
  datatype Avd = Avd(allowed: Av, decided: Av, auditallow: Av, auditdeny: Av, seqno: nat, permissive: bool)

  /** Security identifiers are pointers; 0 is the null one. */
  datatype Key = Key(ssid: nat, tsid: nat, tclass: nat)

  datatype Entry = Entry(key: Key, avd: Avd, createSid: nat, used: bool)

  const NO_KEY: Key := Key(0, 0, 0)
  const NO_AVD: Avd := Avd({}, {}, {}, {}, 0, false)
  const CLEARED: Entry := Entry(NO_KEY, NO_AVD, 0, false)

  /** An answer of the security server. */
  datatype Answer = Answer(key: Key, avd: Avd)

  // ---------- chains ----------

  type Chain = seq<nat>

  predicate Distinct(c: Chain) {
    forall i, j | 0 <= i < j < |c| :: c[i] != c[j]
  }

  function Removed(c: Chain, i: nat): Chain
    requires i < |c|
  {
    c[..i] + c[i + 1..]
  }

  lemma RemovedExact(c: Chain, i: nat)
    requires i < |c| && Distinct(c)
    ensures Distinct(Removed(c, i)) && |Removed(c, i)| == |c| - 1
    ensures forall id :: id in Removed(c, i) <==> id in c && id != c[i]
  {
    forall id | id in c && id != c[i] ensures id in Removed(c, i) {
      var j :| 0 <= j < |c| && c[j] == id;
      assert Removed(c, i)[if j < i then j else j - 1] == id;
    }
  }

  lemma RemovedHead(c: Chain, j: nat)
    requires j < |c|
    ensures Removed(c[j..], 0) == c[j + 1..]
  {
  }

  function Total(slots: seq<Chain>): nat {
    if slots == [] then 0 else Total(slots[..|slots| - 1]) + |slots[|slots| - 1]|
  }

  lemma {:induction false} TotalUpdate(slots: seq<Chain>, h: nat, c: Chain)
    requires h < |slots|
    ensures Total(slots[h := c]) == Total(slots) - |slots[h]| + |c|
  {
    var n := |slots| - 1;
    if h == n {
      assert slots[h := c][..n] == slots[..n];
    } else {
      TotalUpdate(slots[..n], h, c);
      assert slots[h := c][..n] == slots[..n][h := c];
    }
  }

  lemma {:induction false} TotalEmpty(slots: seq<Chain>)
    requires forall h | 0 <= h < |slots| :: slots[h] == []
    ensures Total(slots) == 0
  {
    if slots != [] { TotalEmpty(slots[..|slots| - 1]); }
  }

  predicate InPool(ids: Chain, n: nat) {
    forall i | 0 <= i < |ids| :: ids[i] < n
  }

  // ---------- the order in which reclaim looks at nodes ----------

  /** The slots as visited, round from the given one. */
  function Turned(slots: seq<Chain>, start: nat): seq<Chain>
    requires start < |slots|
  {
    slots[start..] + slots[..start]
  }

  /** The slot visited after k steps. */
  function SlotAt(start: nat, k: nat): nat {
    if start + k < SLOTS then start + k else start + k - SLOTS
  }

  function Flat(chains: seq<Chain>): Chain {
    if chains == [] then [] else Flat(chains[..|chains| - 1]) + chains[|chains| - 1]
  }

  /** The nodes in the order in which a turn round the slots meets them. */
  function Order(slots: seq<Chain>, start: nat): Chain
    requires start < |slots|
  {
    Flat(Turned(slots, start))
  }

  lemma {:induction false} FlatExact(chains: seq<Chain>, id: nat)
    ensures id in Flat(chains) <==> exists j :: 0 <= j < |chains| && id in chains[j]
  {
    if chains != [] {
      var n := |chains| - 1;
      FlatExact(chains[..n], id);
      assert forall j | 0 <= j < n :: chains[..n][j] == chains[j];
    }
  }

  /** A whole turn meets every chained node, and no others. */
  lemma OrderExact(slots: seq<Chain>, start: nat, id: nat)
    requires start < |slots|
    ensures id in Order(slots, start) <==> exists h :: 0 <= h < |slots| && id in slots[h]
  {
    var turned := Turned(slots, start);
    FlatExact(turned, id);
    forall h | 0 <= h < |slots| && id in slots[h] ensures id in Order(slots, start) {
      assert turned[if start <= h then h - start else h + |slots| - start] == slots[h];
    }
  }

  lemma {:induction false} FlatPrefix(chains: seq<Chain>, k: nat)
    requires k <= |chains|
    ensures |Flat(chains[..k])| <= |Flat(chains)|
    ensures Flat(chains)[..|Flat(chains[..k])|] == Flat(chains[..k])
  {
    var n := |chains| - 1;
    if k == |chains| {
      assert chains[..k] == chains;
    } else {
      FlatPrefix(chains[..n], k);
      assert chains[..n][..k] == chains[..k];
    }
  }

  /** The first node not used recently. */
  function FirstUnused(e: seq<Entry>, ids: Chain): (p: nat)
    requires InPool(ids, |e|)
    ensures p <= |ids| && (p < |ids| ==> !e[ids[p]].used)
    ensures forall i | 0 <= i < p :: e[ids[i]].used
  {
    if ids == [] then 0
    else
      var n := |ids| - 1;
      var p := FirstUnused(e, ids[..n]);
      if p < n || !e[ids[n]].used then p else n + 1
  }

  /** The pool after the used marks of some nodes have been taken away. */
  function Unmarked(e: seq<Entry>, ids: Chain): seq<Entry> {
    seq(|e|, i requires 0 <= i < |e| => if i in ids then e[i].(used := false) else e[i])
  }

  lemma UnmarkedTwice(e: seq<Entry>, a: Chain, b: Chain)
    ensures Unmarked(Unmarked(e, a), b) == Unmarked(e, a + b)
  {
  }

  /** Which node second-chance reclaim takes: the first unused one, or the first of all. */
  function Victim(e: seq<Entry>, order: Chain): nat
    requires InPool(order, |e|) && order != []
  {
    var p := FirstUnused(e, order);
    if p < |order| then order[p] else order[0]
  }

  /** The marks reclaim takes away: those it passed, or all of them. */
  function AfterScan(e: seq<Entry>, order: Chain): seq<Entry>
    requires InPool(order, |e|)
  {
    Unmarked(e, order[..FirstUnused(e, order)])
  }

  // ---------- the pool ----------

  /** The node pool as a value. `origin` is the answer each node was filled from. */
  datatype Pool = Pool(entries: seq<Entry>, origin: seq<Avd>, slots: seq<Chain>, freelist: Chain, hash: Key -> nat)

  ghost predicate Shape(p: Pool) {
    && |p.slots| == SLOTS && |p.origin| == |p.entries|
    && (forall k :: p.hash(k) < SLOTS)
    && (forall h | 0 <= h < SLOTS :: InPool(p.slots[h], |p.entries|) && Distinct(p.slots[h]))
    && InPool(p.freelist, |p.entries|) && Distinct(p.freelist)
  }

  ghost predicate Chained(p: Pool, id: nat)
    requires Shape(p) && id < |p.entries|
  {
    id in p.slots[p.hash(p.entries[id].key)]
  }

  /** Every chained node is in the slot of its key. */
  ghost predicate Placed(p: Pool)
    requires Shape(p)
  {
    forall h, id | 0 <= h < SLOTS && id in p.slots[h] :: id < |p.entries| && p.hash(p.entries[id].key) == h
  }

  predicate Somewhere(p: Pool, spare: Option<nat>, id: nat)
    requires id < |p.entries| && p.hash(p.entries[id].key) < |p.slots|
  {
    spare == Some(id) || id in p.freelist || id in p.slots[p.hash(p.entries[id].key)]
  }

  /** Each node of the pool is in exactly one place; a spare node is in none. */
  ghost predicate Partition(p: Pool, spare: Option<nat>)
    requires Shape(p)
  {
    && (forall h, id | 0 <= h < SLOTS && id in p.slots[h] :: id !in p.freelist && spare != Some(id))
    && (spare.Some? ==> spare.value < |p.entries| && spare.value !in p.freelist)
    && (forall id | 0 <= id < |p.entries| :: Somewhere(p, spare, id))
    && Total(p.slots) + |p.freelist| + (if spare.Some? then 1 else 0) == |p.entries|
  }

  /** Nodes on the free list hold no key, so that an old reference to one finds nothing. */
  ghost predicate FreeAreClear(p: Pool)
    requires Shape(p)
  {
    forall id | id in p.freelist :: id < |p.entries| && p.entries[id] == CLEARED
  }

  /** The circumstances a cached decision is judged by. */
  datatype Now = Now(latestNotif: nat, enforcing: bool, answers: set<Answer>)

  /** What a cached node promises. */
  ghost predicate Coherent(e: Entry, o: Avd, now: Now) {
    && Answer(e.key, o) in now.answers
    && e.key.ssid != 0
    && e.avd == o.(allowed := e.avd.allowed)
    && o.allowed <= e.avd.allowed
    && o.seqno >= now.latestNotif
    && (now.enforcing && !o.permissive ==> e.avd.allowed == o.allowed)
  }

  ghost predicate AllCoherent(p: Pool, now: Now)
    requires Shape(p)
  {
    forall h, id | 0 <= h < SLOTS && id in p.slots[h] :: id < |p.entries| && Coherent(p.entries[id], p.origin[id], now)
  }

  ghost predicate Good(p: Pool, spare: Option<nat>, now: Now) {
    Shape(p) && Placed(p) && Partition(p, spare) && FreeAreClear(p) && AllCoherent(p, now)
  }

  /** Only used marks of chained nodes differ. */
  ghost predicate SameButMarks(p: Pool, p': Pool) {
    && p' == p.(entries := p'.entries)
    && |p'.entries| == |p.entries|
    && forall id | 0 <= id < |p.entries| :: SameEntry(p, p', id)
  }

  predicate SameEntry(p: Pool, p': Pool, id: nat)
    requires id < |p.entries| && id < |p'.entries|
  {
    p'.entries[id] == p.entries[id] || (p.entries[id].used && p'.entries[id] == p.entries[id].(used := false))
    || (p.entries[id].key.ssid != 0 && p'.entries[id] == p.entries[id].(used := true))
  }

  lemma MarksDoNotMatter(p: Pool, p': Pool, spare: Option<nat>, now: Now)
    requires Good(p, spare, now) && SameButMarks(p, p')
    ensures Good(p', spare, now)
  {
    assert Shape(p');
    forall h, id | 0 <= h < SLOTS && id in p'.slots[h]
      ensures id < |p'.entries| && p'.hash(p'.entries[id].key) == h && Coherent(p'.entries[id], p'.origin[id], now)
    {
      assert SameEntry(p, p', id);
    }
    forall id | 0 <= id < |p'.entries| ensures Somewhere(p', spare, id) {
      assert SameEntry(p, p', id) && Somewhere(p, spare, id);
    }
    forall id | id in p'.freelist ensures id < |p'.entries| && p'.entries[id] == CLEARED {
      assert SameEntry(p, p', id);
    }
  }

  /** Unlinking a chained node makes it the spare one. */
  lemma UnlinkKeeps(p: Pool, h: nat, i: nat, now: Now)
    requires Good(p, None, now) && h < SLOTS && i < |p.slots[h]|
    ensures Good(p.(slots := p.slots[h := Removed(p.slots[h], i)]), Some(p.slots[h][i]), now)
    ensures Total(p.slots[h := Removed(p.slots[h], i)]) == Total(p.slots) - 1
  {
    var id := p.slots[h][i];
    var p' := p.(slots := p.slots[h := Removed(p.slots[h], i)]);
    RemovedExact(p.slots[h], i);
    TotalUpdate(p.slots, h, Removed(p.slots[h], i));
    assert id in p.slots[h];
    forall g, x | 0 <= g < SLOTS && x in p'.slots[g] ensures x in p.slots[g] && x != id {
      if g == h {
        assert x in Removed(p.slots[h], i);
        assert x != id;
      } else {
        assert p'.slots[g] == p.slots[g];
        assert x in p.slots[g];
        assert p.hash(p.entries[x].key) == g;
        assert p.hash(p.entries[id].key) == h;
      }
    }
    assert InPool(p'.slots[h], |p.entries|) by {
      forall j | 0 <= j < |p'.slots[h]| ensures p'.slots[h][j] < |p.entries| {
        assert p'.slots[h][j] in p'.slots[h];
      }
    }
    forall x | 0 <= x < |p'.entries| ensures Somewhere(p', Some(id), x) {
      assert Somewhere(p, None, x);
    }
  }

  /** Taking a node off the free list makes it the spare one. */
  lemma PopKeeps(p: Pool, now: Now)
    requires Good(p, None, now) && p.freelist != []
    ensures Good(p.(freelist := p.freelist[1..]), Some(p.freelist[0]), now)
  {
    var p' := p.(freelist := p.freelist[1..]);
    HeadTaken(p.freelist);
    assert InPool(p'.freelist, |p.entries|);
    PopPartition(p);
  }

  lemma PopPartition(p: Pool)
    requires Shape(p) && Partition(p, None) && p.freelist != [] && Shape(p.(freelist := p.freelist[1..]))
    ensures Partition(p.(freelist := p.freelist[1..]), Some(p.freelist[0]))
  {
    var p' := p.(freelist := p.freelist[1..]);
    var id := p.freelist[0];
    HeadTaken(p.freelist);
    assert id in p.freelist;
    forall x | 0 <= x < |p'.entries| ensures Somewhere(p', Some(id), x) {
      assert Somewhere(p, None, x);
    }
  }

  lemma HeadTaken(c: Chain)
    requires c != [] && Distinct(c)
    ensures Distinct(c[1..]) && forall x :: x in c[1..] <==> x in c && x != c[0]
  {
    assert Removed(c, 0) == c[1..];
    RemovedExact(c, 0);
  }

  function Filled(p: Pool, id: nat, e: Entry, o: Avd): Pool
    requires Shape(p) && id < |p.entries|
  {
    p.(entries := p.entries[id := e], origin := p.origin[id := o],
       slots := p.slots[p.hash(e.key) := [id] + p.slots[p.hash(e.key)]])
  }

  /** The spare node is filled and put at the head of its key's chain. */
  lemma FillKeeps(p: Pool, id: nat, e: Entry, o: Avd, now: Now)
    requires Good(p, Some(id), now) && Coherent(e, o, now)
    ensures Good(Filled(p, id, e, o), None, now)
    ensures Total(Filled(p, id, e, o).slots) == Total(p.slots) + 1
  {
    var p' := Filled(p, id, e, o);
    FilledSlots(p, id, e, o);
    assert id !in p.slots[p.hash(e.key)];
    assert Shape(p');
    FillPartition(p, id, e, o);
  }

  lemma FilledSlots(p: Pool, id: nat, e: Entry, o: Avd)
    requires Shape(p) && Partition(p, Some(id))
    ensures var p' := Filled(p, id, e, o);
            && Total(p'.slots) == Total(p.slots) + 1
            && forall g, x | 0 <= g < SLOTS && x in p'.slots[g] ::
              (x == id && g == p.hash(e.key)) || (x != id && x in p.slots[g])
  {
    TotalUpdate(p.slots, p.hash(e.key), [id] + p.slots[p.hash(e.key)]);
  }

  lemma FillPartition(p: Pool, id: nat, e: Entry, o: Avd)
    requires Shape(p) && Partition(p, Some(id)) && Shape(Filled(p, id, e, o))
    ensures Partition(Filled(p, id, e, o), None)
  {
    var p' := Filled(p, id, e, o);
    FilledSlots(p, id, e, o);
    forall x | 0 <= x < |p'.entries| ensures Somewhere(p', None, x) {
      assert Somewhere(p, Some(id), x);
    }
  }

  lemma FilledIsCached(p: Pool, id: nat, e: Entry, o: Avd)
    requires Shape(p) && id < |p.entries| && Shape(Filled(p, id, e, o))
    ensures CachedIn(Filled(p, id, e, o), id, e.key)
  {
  }

  /** A flushed pool. */
  lemma FlushedIsGood(p: Pool, now: Now)
    requires Shape(p) && Distinct(p.freelist) && |p.freelist| == |p.entries|
    requires forall id | 0 <= id < |p.entries| :: id in p.freelist && p.entries[id] == CLEARED
    requires forall h | 0 <= h < SLOTS :: p.slots[h] == []
    ensures Good(p, None, now) && Total(p.slots) == 0
  {
    TotalEmpty(p.slots);
  }

  // ---------- scanning ----------

  lemma FirstUnusedIs(e: seq<Entry>, ids: Chain, p: nat)
    requires InPool(ids, |e|) && p <= |ids| && (p < |ids| ==> !e[ids[p]].used)
    requires forall i | 0 <= i < p :: e[ids[i]].used
    ensures FirstUnused(e, ids) == p
  {
  }

  /** Going on with one more chain whose nodes have not been passed before. */
  lemma ScanOneMore(e: seq<Entry>, passed: Chain, c: Chain)
    requires InPool(passed, |e|) && InPool(c, |e|) && FirstUnused(e, passed) == |passed|
    requires forall id | id in c :: id !in passed
    ensures FirstUnused(e, passed + c) == |passed| + FirstUnused(Unmarked(e, passed), c)
    ensures
      var p := FirstUnused(Unmarked(e, passed), c);
      Unmarked(Unmarked(e, passed), c[..p]) == AfterScan(e, passed + c)
  {
    var e' := Unmarked(e, passed);
    var p := FirstUnused(e', c);
    forall i | 0 <= i < |c| ensures e'[c[i]] == e[c[i]] { assert c[i] in c; }
    FirstUnusedIs(e, passed + c, |passed| + p);
    assert (passed + c)[..|passed| + p] == passed + c[..p];
    UnmarkedTwice(e, passed, c[..p]);
  }

  /** A scan that stops within a prefix stops there in the whole. */
  lemma ScanPrefix(e: seq<Entry>, order: Chain, k: nat)
    requires InPool(order, |e|) && k <= |order| && FirstUnused(e, order[..k]) < k
    ensures FirstUnused(e, order) == FirstUnused(e, order[..k])
    ensures AfterScan(e, order) == AfterScan(e, order[..k])
  {
    var p := FirstUnused(e, order[..k]);
    FirstUnusedIs(e, order, p);
    assert order[..k][..p] == order[..p];
  }

  lemma InOneSlot(p: Pool, h: nat, g: nat, id: nat)
    requires Shape(p) && Placed(p) && h < SLOTS && g < SLOTS && id in p.slots[h] && id in p.slots[g]
    ensures h == g
  {
    assert p.hash(p.entries[id].key) == h;
    assert p.hash(p.entries[id].key) == g;
  }

  /** A slot not yet visited holds no node already passed. */
  lemma NotPassed(p: Pool, start: nat, k: nat, id: nat)
    requires Shape(p) && Placed(p) && start < SLOTS && k < SLOTS && id in Turned(p.slots, start)[k]
    ensures id !in Flat(Turned(p.slots, start)[..k])
  {
    var turned := Turned(p.slots, start);
    var seen: seq<Chain> := turned[..k];
    FlatExact(seen, id);
    if id in Flat(seen) {
      var j: nat :| j < |seen| && id in seen[j];
      assert seen[j] == turned[j];
      InOneSlot(p, SlotAt(start, j), SlotAt(start, k), id);
    }
  }

  /** The first k slots have been passed without finding an unused node. */
  ghost predicate Passed(e: seq<Entry>, e': seq<Entry>, passed: Chain) {
    && InPool(passed, |e|)
    && FirstUnused(e, passed) == |passed|
    && e' == Unmarked(e, passed)
  }

  /** What scanning one more chain shows, when the scan stops there and when it goes on. */
  lemma ScanNext(e: seq<Entry>, e': seq<Entry>, passed: Chain, c: Chain, order: Chain, at: nat)
    requires Passed(e, e', passed) && InPool(c, |e|) && InPool(order, |e|)
    requires forall id | id in c :: id !in passed
    requires |passed + c| <= |order| && order[..|passed + c|] == passed + c
    requires at == FirstUnused(e', c)
    ensures at == |c| ==> Passed(e, Unmarked(e', c[..at]), passed + c)
    ensures at < |c| ==> FirstUnused(e, order) < |order| && c[at] == order[FirstUnused(e, order)]
    ensures at < |c| ==> Unmarked(e', c[..at]) == AfterScan(e, order)
  {
    ScanOneMore(e, passed, c);
    if at < |c| {
      ScanPrefix(e, order, |passed + c|);
      assert order[|passed| + at] == order[..|passed + c|][|passed| + at] == c[at];
    } else {
      assert (passed + c)[..|passed| + at] == passed + c;
    }
  }

  lemma OrderInPool(p: Pool, start: nat)
    requires Shape(p) && start < SLOTS
    ensures InPool(Order(p.slots, start), |p.entries|)
  {
    var order := Order(p.slots, start);
    forall i | 0 <= i < |order| ensures order[i] < |p.entries| {
      OrderExact(p.slots, start, order[i]);
      var h :| 0 <= h < |p.slots| && order[i] in p.slots[h];
      var j :| 0 <= j < |p.slots[h]| && p.slots[h][j] == order[i];
    }
  }

  /** A turn stopped at a node, the first unused one; or it found none. */
  ghost predicate StopsAt(e: seq<Entry>, e': seq<Entry>, order: Chain, id: nat) {
    && InPool(order, |e|) && FirstUnused(e, order) < |order|
    && id == order[FirstUnused(e, order)] && e' == AfterScan(e, order)
  }

  ghost predicate FindsNone(e: seq<Entry>, e': seq<Entry>, order: Chain) {
    InPool(order, |e|) && FirstUnused(e, order) == |order| && e' == AfterScan(e, order)
  }

  /** The same for the k-th slot of a turn. */
  lemma ScanSlot(e: seq<Entry>, p: Pool, start: nat, k: nat, at: nat)
    requires Shape(p) && Placed(p) && |e| == |p.entries| && start < SLOTS && k < SLOTS
    requires Passed(e, p.entries, Flat(Turned(p.slots, start)[..k]))
    requires InPool(Turned(p.slots, start)[k], |e|) && at == FirstUnused(p.entries, Turned(p.slots, start)[k])
    ensures InPool(Order(p.slots, start), |e|)
    ensures
      var c, order := Turned(p.slots, start)[k], Order(p.slots, start);
      && (at == |c| ==> Passed(e, Unmarked(p.entries, c[..at]), Flat(Turned(p.slots, start)[..k + 1])))
      && (at < |c| ==> FirstUnused(e, order) < |order| && c[at] == order[FirstUnused(e, order)])
      && (at < |c| ==> Unmarked(p.entries, c[..at]) == AfterScan(e, order))
  {
    var turned := Turned(p.slots, start);
    var passed, c := Flat(turned[..k]), turned[k];
    OrderInPool(p, start);
    forall id | id in c ensures id !in passed { NotPassed(p, start, k, id); }
    assert turned[..k + 1][..k] == turned[..k];
    assert Flat(turned[..k + 1]) == passed + c;
    FlatPrefix(turned, k + 1);
    ScanNext(e, p.entries, passed, c, Order(p.slots, start), at);
  }

  lemma UnmarkingKeepsPlaces(p: Pool, ids: Chain)
    requires Shape(p) && Placed(p)
    ensures Shape(p.(entries := Unmarked(p.entries, ids))) && Placed(p.(entries := Unmarked(p.entries, ids)))
  {
  }

  /** What reclaim did: the node it took and the marks it removed. */
  ghost predicate Reclaimed(e: seq<Entry>, e': seq<Entry>, order: Chain, node: Option<nat>) {
    && InPool(order, |e|)
    && (order == [] <==> node.None?)
    && (order != [] ==> node == Some(Victim(e, order)))
    && e' == AfterScan(e, order)
  }

  /** A node that was used is only taken if all chained nodes were; the nodes passed over, in
      scan order, lose their marks. */
  lemma VictimUsed(e: seq<Entry>, e': seq<Entry>, slots: seq<Chain>, start: nat, id: nat)
    requires start < |slots| && Reclaimed(e, e', Order(slots, start), Some(id))
    ensures exists h :: 0 <= h < |slots| && id in slots[h]
    ensures id < |e| && (e[id].used ==> forall h, x | 0 <= h < |slots| && x in slots[h] :: x < |e| && e[x].used)
  {
    var order := Order(slots, start);
    VictimInOrder(e, order);
    assert id == Victim(e, order) && id in order;
    OrderExact(slots, start, id);
    if e[id].used {
      forall h, x | 0 <= h < |slots| && x in slots[h] ensures x < |e| && e[x].used {
        OrderExact(slots, start, x);
        assert x in order;
      }
    }
  }

  lemma VictimInOrder(e: seq<Entry>, order: Chain)
    requires InPool(order, |e|) && order != []
    ensures var id := Victim(e, order);
            && id in order && id < |e|
            && (e[id].used ==> forall x | x in order :: x < |e| && e[x].used)
  {
    var p := FirstUnused(e, order);
    if p == |order| {
      forall x | x in order ensures x < |e| && e[x].used {
        var i :| 0 <= i < |order| && order[i] == x;
      }
    }
  }

  lemma {:induction false} TotalConcat(a: seq<Chain>, b: seq<Chain>)
    ensures Total(a + b) == Total(a) + Total(b)
  {
    if b == [] {
      assert a + b == a;
    } else {
      assert (a + b)[..|a + b| - 1] == a + b[..|b| - 1];
      TotalConcat(a, b[..|b| - 1]);
    }
  }

  lemma {:induction false} FlatLength(chains: seq<Chain>)
    ensures |Flat(chains)| == Total(chains)
  {
    if chains != [] { FlatLength(chains[..|chains| - 1]); }
  }

  lemma OrderLength(slots: seq<Chain>, start: nat)
    requires start < |slots|
    ensures |Order(slots, start)| == Total(slots)
  {
    FlatLength(Turned(slots, start));
    TotalConcat(slots[start..], slots[..start]);
    TotalConcat(slots[..start], slots[start..]);
    assert slots[..start] + slots[start..] == slots;
  }

  /** Either turn's find is the second-chance victim. */
  lemma Chosen(e: seq<Entry>, e1: seq<Entry>, e2: seq<Entry>, order: Chain, id: nat)
    requires e1 == e || FindsNone(e, e1, order)
    requires StopsAt(e1, e2, order, id)
    ensures Reclaimed(e, e2, order, Some(id))
  {
    if FindsNone(e, e1, order) {
      assert order[..|order|] == order;
      UnmarkedHead(e, order);
      assert order[..0] == [] && e2 == e1;
    }
  }

  lemma NoneTwice(e: seq<Entry>, e1: seq<Entry>, e2: seq<Entry>, order: Chain)
    requires FindsNone(e, e1, order) && FindsNone(e1, e2, order)
    ensures Reclaimed(e, e2, order, None)
  {
    assert order[..|order|] == order;
    if order != [] { UnmarkedHead(e, order); }
  }

  lemma UnmarkedHead(e: seq<Entry>, order: Chain)
    requires order != [] && InPool(order, |e|)
    ensures FirstUnused(Unmarked(e, order), order) == 0
  {
    assert order[0] in order;
    FirstUnusedIs(Unmarked(e, order), order, 0);
  }

  lemma ScanKeeps(p: Pool, p': Pool, order: Chain, spare: Option<nat>, now: Now)
    requires Good(p, spare, now) && InPool(order, |p.entries|)
    requires p' == p.(entries := AfterScan(p.entries, order))
    ensures Good(p', spare, now)
  {
    assert SameButMarks(p, p');
    MarksDoNotMatter(p, p', spare, now);
  }

  // ---------- the cache ----------

  datatype Outcome = Granted | Denied | ServerFailed | Stale | NoMemory

  class Cache {
    /** The node pool; a node is known by its index. */
    const entries: array<Entry>
    var slots: seq<Chain>
    var freelist: Chain
    var lruHint: nat
    var activeNodes: nat
    /** The latest revocation notice. */
    var latestNotif: nat
    var enforcing: bool
    /** The enforcing mode was fixed when the cache was opened. */
    const setenforce: bool
    var running: bool
    const hash: Key -> nat
    /** Every answer the server gave, and the one each node was filled from. */
    ghost var answers: set<Answer>
    ghost var origin: seq<Avd>

    ghost function View(): Pool
      reads this, entries
    {
      Pool(entries[..], origin, slots, freelist, hash)
    }

    ghost function Time(): Now
      reads this
    {
      Now(latestNotif, enforcing, answers)
    }

    /** Holds between any two steps of a run. */
    ghost predicate Valid()
      reads this, entries
    {
      && Good(View(), None, Time())
      && lruHint < SLOTS
      && activeNodes == Total(slots)
      && (!running ==> Total(slots) == 0)
    }

    /** A cache of n free nodes, fewer than asked for if memory was short. */
    constructor (n: nat, enforcing: bool, setenforce: bool, hash: Key -> nat)
      requires n <= MAX_NODES && forall k :: hash(k) < SLOTS
      ensures Valid() && running && entries.Length == n && fresh(entries)
      ensures this.enforcing == enforcing && this.setenforce == setenforce && latestNotif == 0
      ensures Total(slots) == 0 && |freelist| == n && answers == {}
    {
      this.enforcing, this.setenforce, this.hash := enforcing, setenforce, hash;
      this.entries := new Entry[n](_ => CLEARED);
      slots := seq(SLOTS, _ => []);
      lruHint, activeNodes, latestNotif := 0, 0, 0;
      freelist := seq(n, i requires 0 <= i < n => n - 1 - i);
      running := true;
      answers, origin := {}, seq(n, _ => NO_AVD);
      new;
      forall id | 0 <= id < n ensures id in freelist { assert freelist[n - 1 - id] == id; }
      FlushedIsGood(View(), Time());
    }

    /** Unmarks the used nodes of a chain up to the first unused one. */
    method ScanChain(c: Chain) returns (i: nat)
      requires InPool(c, entries.Length) && Distinct(c)
      modifies entries
      ensures i == FirstUnused(old(entries[..]), c)
      ensures entries[..] == Unmarked(old(entries[..]), c[..i])
    {
      i := 0;
      while i < |c|
        invariant i <= |c|
        invariant entries[..] == Unmarked(old(entries[..]), c[..i])
        invariant forall j | 0 <= j < i :: old(entries[..])[c[j]].used
      {
        if !entries[c[i]].used {
          FirstUnusedIs(old(entries[..]), c, i);
          return;
        }
        entries[c[i]] := entries[c[i]].(used := false);
        i := i + 1;
      }
      FirstUnusedIs(old(entries[..]), c, i);
    }

    /** The k-th slot of a turn that began with the pool e. */
    method ScanSlotAt(h: nat, ghost e: seq<Entry>, ghost k: nat) returns (at: nat)
      requires Scanning(e, k) && k < SLOTS && h == SlotAt(lruHint, k)
      modifies entries
      ensures Shape(View()) && Placed(View()) && h < |slots| == SLOTS && at <= |slots[h]|
      ensures at == |slots[h]| ==> Scanning(e, k + 1)
      ensures at < |slots[h]| ==> StopsAt(e, entries[..], Order(slots, lruHint), slots[h][at])
    {
      ghost var v := View();
      assert slots[h] == Turned(slots, lruHint)[k];
      at := ScanChain(slots[h]);
      ScanSlot(e, v, lruHint, k, at);
      UnmarkingKeepsPlaces(v, slots[h][..at]);
      assert View() == v.(entries := Unmarked(v.entries, slots[h][..at]));
    }

    /** k slots of a turn that began with the pool e have been passed. */
    ghost predicate Scanning(e: seq<Entry>, k: nat)
      reads this, entries
    {
      && Shape(View()) && Placed(View()) && lruHint < SLOTS && k <= SLOTS
      && |e| == entries.Length && Passed(e, entries[..], Flat(Turned(slots, lruHint)[..k]))
    }

    lemma StartScanning()
      requires Shape(View()) && Placed(View()) && lruHint < SLOTS
      ensures Scanning(entries[..], 0)
    {
      assert Turned(slots, lruHint)[..0] == [];
    }

    lemma EndScanning(e: seq<Entry>)
      requires Scanning(e, SLOTS)
      ensures FindsNone(e, entries[..], Order(slots, lruHint))
    {
      OrderInPool(View(), lruHint);
      var turned, order := Turned(slots, lruHint), Order(slots, lruHint);
      assert turned[..SLOTS] == turned && order[..|order|] == order;
    }

    /** A turn has reached slot h, the k-th. */
    ghost predicate InTurn(e: seq<Entry>, k: nat, h: nat)
      reads this, entries
    {
      k < SLOTS && h == SlotAt(lruHint, k) && Scanning(e, k)
    }

    /** What a turn that began with the pool e has come to. */
    ghost predicate TurnEnds(e: seq<Entry>, h: nat, at: Option<nat>)
      reads this, entries
    {
      && Shape(View()) && Placed(View()) && lruHint < SLOTS && |slots| == SLOTS
      && (at.Some? ==> h < SLOTS && at.value < |slots[h]|)
      && if at.Some? then StopsAt(e, entries[..], Order(slots, lruHint), slots[h][at.value])
         else FindsNone(e, entries[..], Order(slots, lruHint))
    }

    /** One slot of a turn: it stops there, or goes on, or is back where it began. */
    method ScanStep(h: nat, ghost e: seq<Entry>, ghost k: nat) returns (at: Option<nat>, next: nat)
      requires InTurn(e, k, h)
      modifies entries
      ensures at.Some? || next == lruHint ==> TurnEnds(e, h, at)
      ensures at.None? && next != lruHint ==> InTurn(e, k + 1, next)
    {
      SlotsTurn(lruHint, k);
      var i := ScanSlotAt(h, e, k);
      if i < |slots[h]| { return Some(i), h; }
      at, next := None, NextSlot(h);
      if next == lruHint { EndScanning(e); }
    }

    /** One turn round the slots. */
    method ScanPass() returns (h: nat, i: Option<nat>)
      requires Shape(View()) && Placed(View()) && lruHint < SLOTS
      modifies entries
      ensures TurnEnds(old(entries[..]), h, i)
    {
      ghost var e, k := entries[..], 0;
      h := lruHint;
      StartScanning();
      while true
        invariant InTurn(e, k, h)
        decreases SLOTS - k
      {
        var next;
        i, next := ScanStep(h, e, k);
        if i.Some? || next == lruHint { return; }
        k, h := k + 1, next;
      }
    }

    /** Takes a node out of its chain; the next reclaim starts at its slot. */
    method Unlink(h: nat, i: nat) returns (id: nat)
      requires Good(View(), None, Time()) && h < SLOTS && i < |slots[h]|
      modifies this`slots, this`lruHint
      ensures id == old(slots)[h][i] && lruHint == h
      ensures Good(View(), Some(id), Time()) && Total(slots) == Total(old(slots)) - 1
      ensures Unlinked(old(slots), slots, id, h)
    {
      UnlinkKeeps(View(), h, i, Time());
      id, lruHint := slots[h][i], h;
      slots := slots[h := Removed(slots[h], i)];
    }

    /** Second-chance reclaim: two turns at most. Fails only on an empty cache. */
    method ReclaimNode() returns (node: Option<nat>)
      requires Good(View(), None, Time()) && lruHint < SLOTS
      modifies this`slots, this`lruHint, entries
      ensures lruHint < SLOTS && Good(View(), node, Time())
      ensures node.None? <==> Total(old(slots)) == 0
      ensures Total(slots) == Total(old(slots)) - if node.Some? then 1 else 0
      ensures Reclaimed(old(entries[..]), entries[..], Order(old(slots), old(lruHint)), node)
      ensures node.None? ==> slots == old(slots) && lruHint == old(lruHint)
      ensures node.Some? ==> Unlinked(old(slots), slots, node.value, lruHint)
    {
      ghost var v, e, order := View(), entries[..], Order(slots, lruHint);
      OrderLength(slots, lruHint);
      for tries := 0 to 2
        invariant View() == v.(entries := entries[..]) && Good(View(), None, Time()) && lruHint == old(lruHint)
        invariant tries == 0 ==> entries[..] == e
        invariant tries == 1 ==> FindsNone(e, entries[..], order)
        invariant tries == 2 ==> Reclaimed(e, entries[..], order, None)
      {
        ghost var w := View();
        var h, i := ScanPass();
        ScanKeeps(w, View(), order, None, Time());
        if i.Some? {
          Chosen(e, w.entries, entries[..], order, slots[h][i.value]);
          var id := Unlink(h, i.value);
          return Some(id);
        }
        if tries == 1 { NoneTwice(e, w.entries, entries[..], order); }
      }
      node := None;
    }

    /** A node from the free list, or else a reclaimed one. */
    method TakeNode() returns (node: Option<nat>)
      requires Good(View(), None, Time()) && lruHint < SLOTS && activeNodes == Total(slots)
      modifies this`slots, this`freelist, this`lruHint, this`activeNodes, entries
      ensures lruHint < SLOTS && Good(View(), node, Time())
      ensures node.None? <==> entries.Length == 0
      ensures activeNodes == Total(slots) + if node.Some? then 1 else 0
      ensures Taken(old(View()), old(lruHint), View(), lruHint, node)
    {
      if freelist != [] {
        PopKeeps(View(), Time());
        node := Some(freelist[0]);
        freelist := freelist[1..];
        activeNodes := activeNodes + 1;
      } else {
        node := ReclaimNode();
      }
    }

    /** Puts a node for the key at the head of its chain; its decision is still to come. The
        base is the pool with the node taken. */
    method ClaimNode(key: Key) returns (node: Option<nat>, ghost base: Pool)
      requires Good(View(), None, Time()) && lruHint < SLOTS && activeNodes == Total(slots)
      modifies this`slots, this`freelist, this`lruHint, this`activeNodes, entries
      ensures lruHint < SLOTS && Good(base, node, Time()) && base.hash == hash
      ensures Taken(old(View()), old(lruHint), base, lruHint, node)
      ensures node.None? <==> entries.Length == 0
      ensures node.None? ==> View() == base && activeNodes == Total(slots)
      ensures node.Some? ==> activeNodes == Total(base.slots) + 1
      ensures node.Some? ==> View() == Filled(base, node.value, Entry(key, NO_AVD, 0, true), base.origin[node.value])
      ensures node.Some? ==> slots == base.slots[hash(key) := [node.value] + base.slots[hash(key)]]
    {
      node := TakeNode();
      base := View();
      if node.Some? { HeadChain(node.value, key); }
    }

    method HeadChain(id: nat, key: Key)
      requires Shape(View()) && id < entries.Length
      modifies this`slots, entries
      ensures View() == Filled(old(View()), id, Entry(key, NO_AVD, 0, true), old(origin)[id])
    {
      assert origin[id := origin[id]] == origin;
      entries[id] := CLEARED.(key := key, used := true);
      slots := slots[hash(key) := [id] + slots[hash(key)]];
    }

    /** Caches an answer, unless a later notice has overtaken it. */
    method Insert(key: Key, avd: Avd) returns (outcome: Outcome, node: Option<nat>)
      requires Valid() && running && key.ssid != 0 && Answer(key, avd) in answers
      modifies this`slots, this`freelist, this`lruHint, this`activeNodes, this`origin, entries
      ensures Valid()
      ensures outcome == (if avd.seqno < latestNotif then Stale else if entries.Length == 0 then NoMemory else Granted)
      ensures outcome == Granted <==> node.Some?
      ensures node.Some? ==> CachedIn(View(), node.value, key) && entries[node.value].avd == avd
      ensures node.Some? ==> origin[node.value] == avd
      ensures Consulted(old(View()), old(lruHint), View(), lruHint, latestNotif, key, Some(avd), node)
    {
      if avd.seqno < latestNotif { return Stale, None; }
      outcome, node := Enter(key, avd);
    }

    /** Caches an answer that is not stale. */
    method Enter(key: Key, avd: Avd) returns (outcome: Outcome, node: Option<nat>)
      requires Valid() && running && key.ssid != 0 && Answer(key, avd) in answers && avd.seqno >= latestNotif
      modifies this`slots, this`freelist, this`lruHint, this`activeNodes, this`origin, entries
      ensures Valid()
      ensures outcome == (if entries.Length == 0 then NoMemory else Granted) && (outcome == Granted <==> node.Some?)
      ensures node.Some? ==> CachedIn(View(), node.value, key) && entries[node.value].avd == avd
      ensures node.Some? ==> origin[node.value] == avd
      ensures Consulted(old(View()), old(lruHint), View(), lruHint, latestNotif, key, Some(avd), node)
    {
      ghost var base;
      node, base := ClaimNode(key);
      if node.None? {
        assert Entered(base, View(), key, avd, node);
        return NoMemory, None;
      }
      SetDecision(node.value, key, avd, base);
      assert Entered(base, View(), key, avd, node);
      outcome := Granted;
    }

    /** Copies the decision into the claimed node. */
    method SetDecision(id: nat, key: Key, avd: Avd, ghost base: Pool)
      requires Good(base, Some(id), Time()) && base.hash == hash && activeNodes == Total(base.slots) + 1
      requires View() == Filled(base, id, Entry(key, NO_AVD, 0, true), base.origin[id])
      requires lruHint < SLOTS && running
      requires key.ssid != 0 && Answer(key, avd) in answers && avd.seqno >= latestNotif
      modifies this`origin, entries
      ensures Valid() && CachedIn(View(), id, key) && entries[id].avd == avd
      ensures View() == Filled(base, id, Entry(key, avd, 0, true), avd)
    {
      var e := Entry(key, avd, 0, true);
      FillKeeps(base, id, e, avd, Time());
      FilledIsCached(base, id, e, avd);
      assert |View().entries| == entries.Length && |View().origin| == |origin|;
      entries[id] := entries[id].(avd := avd);
      origin := origin[id := avd];
      assert View() == Filled(base, id, e, avd);
    }

    /** The newest node of a key; finding it marks it used. */
    method SearchNode(key: Key) returns (node: Option<nat>)
      requires Valid() && key.ssid != 0
      modifies entries
      ensures Valid() && node == Newest(old(View()), key)
      ensures node.Some? ==> node.value < entries.Length && entries[node.value].used
      ensures View() == Touched(old(View()), node) && SameButMarks(old(View()), View())
      ensures node.Some? ==> Cached(node.value, key)
    {
      var chain := slots[hash(key)];
      var i := 0;
      assert chain[0..] == chain;
      while i < |chain| && entries[chain[i]].key != key
        invariant i <= |chain| && InPool(chain[i..], entries.Length)
        invariant FirstOf(entries[..], chain, key) == FirstOf(entries[..], chain[i..], key)
      {
        assert chain[i..][1..] == chain[i + 1..];
        i := i + 1;
      }
      if i == |chain| { return None; }
      node := Some(chain[i]);
      ghost var v := View();
      assert CachedIn(v, chain[i], key);
      MarkUsed(chain[i]);
      MarksKeepCached(v, View(), chain[i], key);
    }

    method MarkUsed(id: nat)
      requires Valid() && id < entries.Length && entries[id].key.ssid != 0
      modifies entries
      ensures Valid() && View() == Touched(old(View()), Some(id)) && SameButMarks(old(View()), View())
      ensures entries[id].used
    {
      ghost var v := View();
      entries[id] := entries[id].(used := true);
      assert View() == Touched(v, Some(id));
      assert SameButMarks(v, View());
      MarksDoNotMatter(v, View(), None, Time());
    }

    /** The caller's reference, exactly if it still refers to a decision on this request. */
    method TryReference(aeref: Option<nat>, key: Key, requested: Av) returns (node: Option<nat>)
      requires Valid() && key.ssid != 0 && (aeref.Some? ==> aeref.value < entries.Length)
      modifies entries
      ensures Valid() && node == if Answers(old(View()), aeref, key, requested) then aeref else None
      ensures node.Some? ==> node.value < entries.Length && entries[node.value].used
      ensures View() == Touched(old(View()), node) && SameButMarks(old(View()), View())
      ensures node.Some? ==> Cached(node.value, key)
    {
      if aeref.None? { return None; }
      var e := entries[aeref.value];
      if !(e.key == key && requested <= e.avd.decided) { return None; }
      ghost var v := View();
      assert Somewhere(v, None, aeref.value) && CachedIn(v, aeref.value, key);
      MarkUsed(aeref.value);
      MarksKeepCached(v, View(), aeref.value, key);
      node := aeref;
    }

    /** A chained node that holds the key. */
    ghost predicate Cached(id: nat, key: Key)
      requires Shape(View())
      reads this, entries
    {
      CachedIn(View(), id, key)
    }

    /** The newest node of the key, exactly if its decision covers the request. */
    method Lookup(key: Key, requested: Av) returns (node: Option<nat>)
      requires Valid() && key.ssid != 0
      modifies entries
      ensures Valid()
      ensures node ==
        if Answers(old(View()), Newest(old(View()), key), key, requested) then Newest(old(View()), key) else None
      ensures View() == Touched(old(View()), Newest(old(View()), key)) && SameButMarks(old(View()), View())
      ensures node.Some? ==> Cached(node.value, key)
    {
      ghost var v := View();
      node := SearchNode(key);
      if node.Some? {
        MarksKeepCached(v, View(), node.value, key);
        if !(requested <= entries[node.value].avd.decided) { node := None; }
      }
    }

    /** The node that answers without the server, if there is one. */
    method FindNode(key: Key, requested: Av, aeref: Option<nat>) returns (node: Option<nat>)
      requires Valid() && key.ssid != 0 && (aeref.Some? ==> aeref.value < entries.Length)
      modifies entries
      ensures Valid() && node == Hit(old(View()), aeref, key, requested)
      ensures View() == Touched(old(View()), Looked(old(View()), aeref, key, requested)) &&
        SameButMarks(old(View()), View())
      ensures node.Some? ==> Cached(node.value, key)
    {
      node := TryReference(aeref, key, requested);
      if node.None? { node := Lookup(key, requested); }
    }

    /** Takes the answer of the server, and caches it. */
    method Consult(key: Key, answer: Option<Avd>) returns (outcome: Outcome, node: Option<nat>)
      requires Valid() && running && key.ssid != 0
      modifies this`slots, this`freelist, this`lruHint, this`activeNodes, this`origin, this`answers, entries
      ensures Valid()
      ensures answers == old(answers) + if answer.Some? then {Answer(key, answer.value)} else {}
      ensures node.Some? ==> Cached(node.value, key)
      ensures outcome == Asked(latestNotif, entries.Length, answer).0
      ensures node.None? <==> Asked(latestNotif, entries.Length, answer).1.None?
      ensures node.Some? ==> Some(entries[node.value].avd) == Asked(latestNotif, entries.Length, answer).1
      ensures Consulted(old(View()), old(lruHint), View(), lruHint, latestNotif, key, answer, node)
      ensures node.Some? ==> answer == Some(origin[node.value])
    {
      if answer.None? { return ServerFailed, None; }
      MoreAnswersAreGood(View(), Time(), Answer(key, answer.value));
      answers := answers + {Answer(key, answer.value)};
      outcome, node := Insert(key, answer.value);
    }

    /** The decision to use: the reference's, a cached one, or the server's answer, which is
        asked for exactly when there is no other. */
    method FindDecision(key: Key, requested: Av, aeref: Option<nat>, answer: Option<Avd>)
      returns (outcome: Outcome, node: Option<nat>)
      requires Valid() && running && key.ssid != 0 && (aeref.Some? ==> aeref.value < entries.Length)
      modifies this`slots, this`freelist, this`lruHint, this`activeNodes, this`origin, this`answers, entries
      ensures Valid()
      ensures answers == Learned(old(View()), old(answers), key, requested, aeref, answer)
      ensures node.Some? ==> Cached(node.value, key)
      ensures outcome == Found(old(View()), latestNotif, key, requested, aeref, answer).0
      ensures node.None? <==> Found(old(View()), latestNotif, key, requested, aeref, answer).1.None?
      ensures node.Some? ==>
        Some(entries[node.value].avd) == Found(old(View()), latestNotif, key, requested, aeref, answer).1
      ensures Hit(old(View()), aeref, key, requested).Some? ==> node == Hit(old(View()), aeref, key, requested)
      ensures LookedUp(old(View()), old(lruHint), View(), lruHint, latestNotif, key, requested, aeref, answer, node)
      ensures node.Some? ==> requested <= entries[node.value].avd.decided || answer == Some(origin[node.value])
    {
      ghost var v := View();
      node := FindNode(key, requested, aeref);
      if node.Some? {
        MarksKeepCached(v, View(), node.value, key);
        outcome := Granted;
      } else {
        outcome, node := Consult(key, answer);
      }
    }

    /** The request against a decision: denied only while enforcing and not permissive.
        Otherwise what was asked for is added to the cached decision. */
    method Decide(id: nat, requested: Av) returns (denied: bool)
      requires Valid() && id < entries.Length && Chained(View(), id)
      modifies entries
      ensures Valid()
      ensures denied <==> Verdict(old(entries[id].avd), requested, enforcing) == Denied
      ensures entries[..] == old(entries[..])[id := old(entries[id]).(avd :=
                Extended(old(entries[id].avd), requested, if denied then Denied else Granted))]
    {
      var e := entries[id];
      denied := false;
      if Refused(e.avd, requested) {
        if !enforcing || e.avd.permissive {
          ExtendKeeps(View(), id, requested, Time());
          entries[id] := e.(avd := e.avd.(allowed := e.avd.allowed + requested));
        } else {
          denied := true;
        }
      }
    }

    /** A permission check. */
    method HasPermNoaudit(key: Key, requested: Av, aeref: Option<nat>, answer: Option<Avd>)
      returns (outcome: Outcome, avd: Option<Avd>, aeref': Option<nat>)
      requires Valid() && running && key.ssid != 0 && (aeref.Some? ==> aeref.value < entries.Length)
      modifies this`slots, this`freelist, this`lruHint, this`activeNodes, this`origin, this`answers, entries
      ensures Valid()
      ensures answers == Learned(old(View()), old(answers), key, requested, aeref, answer)
      ensures avd == Found(old(View()), latestNotif, key, requested, aeref, answer).1
      ensures outcome == Expected(old(View()), Time(), key, requested, aeref, answer)
      ensures Justified(key, requested, outcome, Time(), answer)
      ensures avd.Some? ==> Faithful(key, avd.value, Time())
      ensures avd.None? ==> aeref' == aeref
      ensures avd.Some? ==> aeref'.Some? && Cached(aeref'.value, key)
      ensures avd.Some? ==> entries[aeref'.value].avd == Extended(avd.value, requested, outcome)
      ensures Checked(old(View()), old(lruHint), View(), lruHint, latestNotif, enforcing, key, requested, aeref, answer)
      ensures avd.Some? && outcome == Granted && requested != {} ==> requested <= entries[aeref'.value].avd.allowed
      ensures avd.Some? && outcome == Denied ==> entries[aeref'.value].avd == avd.value
    {
      var found, node := FindDecision(key, requested, aeref, answer);
      if node.None? { return found, None, aeref; }
      aeref' := node;
      avd := Some(entries[node.value].avd);
      outcome := JudgeNode(node.value, key, requested, answer);
    }

    /** The outcome for the decision of a node, which may be extended. */
    method JudgeNode(id: nat, key: Key, requested: Av, ghost answer: Option<Avd>) returns (outcome: Outcome)
      requires Valid() && id < entries.Length && Cached(id, key)
      requires requested <= entries[id].avd.decided || answer == Some(origin[id])
      modifies entries
      ensures Valid() && Cached(id, key)
      ensures outcome == Verdict(old(entries[id].avd), requested, enforcing)
      ensures Justified(key, requested, outcome, Time(), answer) && Faithful(key, old(entries[id].avd), Time())
      ensures entries[id].avd == Extended(old(entries[id].avd), requested, outcome)
      ensures View() == Settled(old(View()), Some(id), requested, enforcing)
    {
      DecisionJustified(View(), id, requested, Time(), answer);
      DecisionFaithful(View(), id, Time());
      var denied := Decide(id, requested);
      outcome := if denied then Denied else Granted;
    }

    /** Frees the nodes of one slot. */
    method FlushSlot(h: nat, ghost now: Now)
      requires Good(View(), None, now) && h < SLOTS && activeNodes == Total(slots)
      modifies this`slots, this`freelist, this`activeNodes, entries
      ensures Good(View(), None, now) && activeNodes == Total(slots)
      ensures slots == old(slots)[h := []]
    {
      var chain := slots[h];
      assert View().(slots := slots[h := chain[0..]]) == View();
      for j := 0 to |chain|
        invariant slots == old(slots) && Flushing(View(), h, chain, j, now)
        invariant activeNodes == Total(slots[h := chain[j..]])
      {
        FreeNode(h, chain, j, now);
      }
      assert chain[|chain|..] == [];
      FlushEnd(View(), h, chain, now);
      slots := slots[h := []];
    }

    /** Frees the node at position j of the chain that is being flushed. */
    method FreeNode(h: nat, chain: Chain, j: nat, ghost now: Now)
      requires j < |chain| && Flushing(View(), h, chain, j, now) && activeNodes == Total(slots[h := chain[j..]])
      modifies this`freelist, this`activeNodes, entries
      ensures Flushing(View(), h, chain, j + 1, now) && activeNodes == Total(slots[h := chain[j + 1..]])
    {
      ghost var v := View();
      FlushStep(v, h, chain, j, now);
      entries[chain[j]] := CLEARED;
      freelist := [chain[j]] + freelist;
      activeNodes := activeNodes - 1;
      assert View() == Freed(v, chain[j]);
    }

    /** Flushes the cache. */
    method Reset(ghost now: Now)
      requires Good(View(), None, now) && activeNodes == Total(slots) && lruHint < SLOTS
      requires !running ==> Total(slots) == 0
      modifies this`slots, this`freelist, this`activeNodes, this`lruHint, entries
      ensures Good(View(), None, now) && activeNodes == Total(slots) == 0 && lruHint < SLOTS
    {
      if !running { return; }
      for h := 0 to SLOTS
        invariant Good(View(), None, now) && activeNodes == Total(slots)
        invariant forall g | 0 <= g < h :: slots[g] == []
      {
        FlushSlot(h, now);
      }
      TotalEmpty(slots);
      lruHint := 0;
    }

    /** Flushes, and remembers the notice. */
    method SsReset(seqno: nat, ghost now: Now)
      requires Good(View(), None, now) && activeNodes == Total(slots) && lruHint < SLOTS
      requires !running ==> Total(slots) == 0
      modifies this`slots, this`freelist, this`activeNodes, this`lruHint, this`latestNotif, entries
      ensures Valid() && Total(slots) == 0
      ensures latestNotif == Max(old(latestNotif), seqno)
    {
      Reset(now);
      if seqno > latestNotif { latestNotif := seqno; }
      EmptyIsGood(View(), now, Time());
    }

    /** Ignored when the mode was fixed; otherwise the cache is flushed before it enforces,
        because permissive mode has been adding to its decisions. */
    method SetEnforceNotice(on: bool)
      requires Valid()
      modifies this`slots, this`freelist, this`activeNodes, this`lruHint, this`latestNotif, this`enforcing, entries
      ensures Valid() && latestNotif == old(latestNotif)
      ensures enforcing == if setenforce then old(enforcing) else on
      ensures on && !setenforce ==> Total(slots) == 0
      ensures !on || setenforce ==> View() == old(View()) && lruHint == old(lruHint)
    {
      if setenforce { return; }
      ghost var now := Time();
      enforcing := on;
      if enforcing { SsReset(0, now); }
    }

    method PolicyLoadNotice(seqno: nat)
      requires Valid()
      modifies this`slots, this`freelist, this`activeNodes, this`lruHint, this`latestNotif, entries
      ensures Valid() && Total(slots) == 0
      ensures latestNotif == if seqno > old(latestNotif) then seqno else old(latestNotif)
    {
      SsReset(seqno, Time());
    }

    /** One event of a run; the outcome is that of a check. */
    method Handle(event: Event) returns (outcome: Outcome)
      requires Valid() && running && Acceptable(event, entries.Length)
      modifies this`slots, this`freelist, this`lruHint, this`activeNodes, this`latestNotif, this`enforcing, this`origin
      modifies this`answers, entries
      ensures Valid()
      ensures latestNotif == NoticeAfter(old(latestNotif), event)
      ensures enforcing == ModeAfter(old(enforcing), setenforce, event)
      ensures old(answers) <= answers <= old(answers) + AnswerOf(event)
      ensures event.Check? ==>
        answers == Learned(old(View()), old(answers), event.key, event.requested, event.aeref, event.answer)
      ensures event.Check? ==>
        outcome == Expected(old(View()), Time(), event.key, event.requested, event.aeref, event.answer)
      ensures event.Check? ==> Justified(event.key, event.requested, outcome, Time(), event.answer)
      ensures event.Check? ==>
        Checked(old(View()), old(lruHint), View(), lruHint, latestNotif, enforcing, event.key, event.requested,
                event.aeref, event.answer)
      ensures event.Check? ==> FailsFor(outcome, event.answer, latestNotif, entries.Length)
      ensures event.PolicyLoad? || (event.SetEnforce? && event.on && !setenforce) ==> Total(slots) == 0
      ensures event.SetEnforce? && (!event.on || setenforce) ==> View() == old(View()) && lruHint == old(lruHint)
    {
      outcome := Granted;
      match event
      case Check(key, requested, aeref, answer) =>
        var avd, ref;
        ExpectedFails(View(), Time(), key, requested, aeref, answer);
        outcome, avd, ref := HasPermNoaudit(key, requested, aeref, answer);
      case SetEnforce(on) => SetEnforceNotice(on);
      case PolicyLoad(seqno) => PolicyLoadNotice(seqno);
    }

    /** Any run of checks, notices and mode switches keeps the cache valid, and every check
        in it is justified, by the notices and the mode of its own moment, by an answer the
        server gave up to that moment; a check that fails does so for the reason given. */
    method Run(events: seq<Event>) returns (outcomes: seq<Outcome>)
      requires Valid() && running && forall i | 0 <= i < |events| :: Acceptable(events[i], entries.Length)
      modifies this`slots, this`freelist, this`lruHint, this`activeNodes, this`latestNotif, this`enforcing, this`origin
      modifies this`answers, entries
      ensures Valid() && |outcomes| == |events|
      ensures latestNotif == NoticeAfterAll(old(latestNotif), events)
      ensures enforcing == ModeAfterAll(old(enforcing), setenforce, events)
      ensures old(answers) <= answers <= old(answers) + AnswersOf(events)
      ensures AllJustified(events, outcomes, |events|, Now(old(latestNotif), old(enforcing), old(answers)), setenforce,
                           entries.Length)
    {
      outcomes := [];
      ghost var start := Time();
      for i := 0 to |events|
        invariant Valid() && running && |outcomes| == i
        invariant MomentOf(start, setenforce, events[..i], Time())
        invariant start.answers <= answers
        invariant AllJustified(events, outcomes, i, start, setenforce, entries.Length)
      {
        ghost var before := Time();
        var outcome := Handle(events[i]);
        MomentNext(start, setenforce, events, i, before, Time());
        JustifiedNext(events, outcomes, i, start, setenforce, before, outcome, Time(), entries.Length);
        outcomes := outcomes + [outcome];
      }
      assert events[..|events|] == events;
    }
  }

  // ---------- runs ----------

  /** An answer for the key that no later notice has overtaken. */
  ghost predicate Current(a: Answer, key: Key, now: Now) {
    a in now.answers && a.key == key && a.avd.seqno >= now.latestNotif
  }

  ghost predicate Permits(avd: Avd, requested: Av) {
    avd.permissive || (requested != {} && requested <= avd.allowed)
  }

  /** The answer decided what is requested, or was given for this very request. */
  predicate Decides(avd: Avd, requested: Av, answer: Option<Avd>) {
    requested <= avd.decided || answer == Some(avd)
  }

  /** While enforcing, what is granted was allowed by the server itself, in an answer that
      decided it and is not older than the last notice, and what is denied was not; otherwise
      nothing is denied. */
  ghost predicate Justified(key: Key, requested: Av, outcome: Outcome, now: Now, answer: Option<Avd>) {
    && (outcome == Granted && now.enforcing ==>
          exists a :: Current(a, key, now) && Decides(a.avd, requested, answer) && Permits(a.avd, requested))
    && (outcome == Denied ==>
          && now.enforcing
          && exists a :: Current(a, key, now) && Decides(a.avd, requested, answer) && !Permits(a.avd, requested))
  }

  /** A decision handed out is that of a current answer, or extends it while nothing is
      being enforced on it. */
  ghost predicate Faithful(key: Key, avd: Avd, now: Now) {
    exists a :: Current(a, key, now) && avd == a.avd.(allowed := avd.allowed) && a.avd.allowed <= avd.allowed
      && (now.enforcing && !avd.permissive ==> avd == a.avd)
  }

  lemma DecisionFaithful(p: Pool, id: nat, now: Now)
    requires Good(p, None, now) && id < |p.entries| && Chained(p, id)
    ensures Faithful(p.entries[id].key, p.entries[id].avd, now)
  {
    var e, o := p.entries[id], p.origin[id];
    assert Coherent(e, o, now);
    assert Current(Answer(e.key, o), e.key, now);
  }

  lemma DecisionJustified(p: Pool, id: nat, requested: Av, now: Now, answer: Option<Avd>)
    requires Good(p, None, now) && id < |p.entries| && Chained(p, id)
    requires requested <= p.entries[id].avd.decided || answer == Some(p.origin[id])
    ensures
      var e := p.entries[id];
      Justified(e.key, requested,
                if Refused(e.avd, requested) && now.enforcing && !e.avd.permissive then Denied else Granted, now,
                answer)
  {
    var e, o := p.entries[id], p.origin[id];
    assert Coherent(e, o, now);
    assert Current(Answer(e.key, o), e.key, now);
  }

  lemma MoreAnswersJustify(key: Key, requested: Av, outcome: Outcome, now: Now, answer: Option<Avd>,
                           answers: set<Answer>)
    requires Justified(key, requested, outcome, now, answer) && now.answers <= answers
    ensures Justified(key, requested, outcome, now.(answers := answers), answer)
  {
    var later := now.(answers := answers);
    forall a | Current(a, key, now) ensures Current(a, key, later) {
    }
  }

  /** A freed node: off every chain, cleared, on the free list. */
  lemma FreeKeeps(p: Pool, id: nat, now: Now)
    requires Good(p, Some(id), now)
    ensures Good(p.(entries := p.entries[id := CLEARED], freelist := [id] + p.freelist), None, now)
  {
    var p' := p.(entries := p.entries[id := CLEARED], freelist := [id] + p.freelist);
    forall x | 0 <= x < |p'.entries| ensures Somewhere(p', None, x) {
      assert Somewhere(p, Some(id), x);
    }
  }

  lemma {:induction false} TotalZero(slots: seq<Chain>)
    requires Total(slots) == 0
    ensures forall h | 0 <= h < |slots| :: slots[h] == []
  {
    if slots != [] { TotalZero(slots[..|slots| - 1]); }
  }

  /** An empty cache is coherent at any time. */
  lemma EmptyIsGood(p: Pool, now: Now, later: Now)
    requires Good(p, None, now) && Total(p.slots) == 0
    ensures Good(p, None, later)
  {
    TotalZero(p.slots);
  }

  function Max(a: nat, b: nat): nat {
    if a < b then b else a
  }

  datatype Event =
    | Check(key: Key, requested: Av, aeref: Option<nat>, answer: Option<Avd>)
    | SetEnforce(on: bool)
    | PolicyLoad(seqno: nat)

  /** Callers have a source identifier, and references are to nodes of the pool. */
  predicate Acceptable(event: Event, n: nat) {
    event.Check? ==> event.key.ssid != 0 && (event.aeref.Some? ==> event.aeref.value < n)
  }

  function NoticeAfter(notice: nat, event: Event): nat {
    if event.PolicyLoad? then Max(notice, event.seqno) else notice
  }

  function ModeAfter(enforcing: bool, setenforce: bool, event: Event): bool {
    if event.SetEnforce? && !setenforce then event.on else enforcing
  }

  function NoticeAfterAll(notice: nat, events: seq<Event>): nat {
    if events == [] then notice
    else NoticeAfter(NoticeAfterAll(notice, events[..|events| - 1]), events[|events| - 1])
  }

  function ModeAfterAll(enforcing: bool, setenforce: bool, events: seq<Event>): bool {
    if events == [] then enforcing
    else ModeAfter(ModeAfterAll(enforcing, setenforce, events[..|events| - 1]), setenforce, events[|events| - 1])
  }

  /** What the server said in an event, if it was asked. */
  function AnswerOf(event: Event): set<Answer> {
    if event.Check? && event.answer.Some? then {Answer(event.key, event.answer.value)} else {}
  }

  function AnswersOf(events: seq<Event>): set<Answer> {
    if events == [] then {} else AnswersOf(events[..|events| - 1]) + AnswerOf(events[|events| - 1])
  }

  /** The notices and the mode at the end of a run are exact; the answers are among those
      of the run. */
  ghost predicate MomentOf(start: Now, setenforce: bool, events: seq<Event>, now: Now) {
    && now.latestNotif == NoticeAfterAll(start.latestNotif, events)
    && now.enforcing == ModeAfterAll(start.enforcing, setenforce, events)
    && now.answers <= start.answers + AnswersOf(events)
  }

  lemma MomentNext(start: Now, setenforce: bool, events: seq<Event>, i: nat, before: Now, after: Now)
    requires i < |events| && MomentOf(start, setenforce, events[..i], before)
    requires after.latestNotif == NoticeAfter(before.latestNotif, events[i])
    requires after.enforcing == ModeAfter(before.enforcing, setenforce, events[i])
    requires after.answers <= before.answers + AnswerOf(events[i])
    ensures MomentOf(start, setenforce, events[..i + 1], after)
  {
    assert events[..i + 1][..i] == events[..i];
    assert AnswersOf(events[..i + 1]) == AnswersOf(events[..i]) + AnswerOf(events[i]);
    forall a | a in after.answers ensures a in start.answers + AnswersOf(events[..i + 1]) {
      assert a in before.answers || a in AnswerOf(events[i]);
    }
  }

  /** What may justify the outcome of event i: the notices and the mode at that moment, and
      the answers given up to it. */
  ghost function MomentAt(events: seq<Event>, i: nat, start: Now, setenforce: bool): Now
    requires i < |events|
  {
    Now(NoticeAfterAll(start.latestNotif, events[..i]), ModeAfterAll(start.enforcing, setenforce, events[..i]),
        start.answers + AnswersOf(events[..i + 1]))
  }

  ghost predicate AllJustified(events: seq<Event>, outcomes: seq<Outcome>, n: nat, start: Now, setenforce: bool,
                               nodes: nat) {
    && n <= |events| && n <= |outcomes|
    && forall i | 0 <= i < n :: JustifiedAt(events, i, outcomes[i], start, setenforce, nodes)
  }

  /** Why a check fails: the server did not answer, its answer is older than the last notice,
      or the pool has no nodes. */
  ghost predicate FailsFor(outcome: Outcome, answer: Option<Avd>, latestNotif: nat, nodes: nat) {
    && (outcome == ServerFailed ==> answer.None?)
    && (outcome == Stale ==> answer.Some? && answer.value.seqno < latestNotif)
    && (outcome == NoMemory ==> nodes == 0 && answer.Some? && answer.value.seqno >= latestNotif)
  }

  lemma ExpectedFails(p: Pool, now: Now, key: Key, requested: Av, aeref: Option<nat>, answer: Option<Avd>)
    requires Shape(p)
    ensures FailsFor(Expected(p, now, key, requested, aeref, answer), answer, now.latestNotif, |p.entries|)
  {
  }

  /** The outcome of the check that is event i, at the moment of that event. */
  ghost predicate JustifiedAt(events: seq<Event>, i: nat, outcome: Outcome, start: Now, setenforce: bool, nodes: nat)
    requires i < |events|
  {
    var moment := MomentAt(events, i, start, setenforce);
    events[i].Check? ==>
      && Justified(events[i].key, events[i].requested, outcome, moment, events[i].answer)
      && FailsFor(outcome, events[i].answer, moment.latestNotif, nodes)
  }

  lemma JustifiedNext(events: seq<Event>, outcomes: seq<Outcome>, i: nat, start: Now, setenforce: bool,
                      before: Now, outcome: Outcome, after: Now, nodes: nat)
    requires i < |events| && |outcomes| == i && AllJustified(events, outcomes, i, start, setenforce, nodes)
    requires MomentOf(start, setenforce, events[..i], before) && MomentOf(start, setenforce, events[..i + 1], after)
    requires events[i].Check? ==> after.latestNotif == before.latestNotif && after.enforcing == before.enforcing
    requires events[i].Check? ==> Justified(events[i].key, events[i].requested, outcome, after, events[i].answer)
    requires events[i].Check? ==> FailsFor(outcome, events[i].answer, after.latestNotif, nodes)
    ensures AllJustified(events, outcomes + [outcome], i + 1, start, setenforce, nodes)
  {
    if events[i].Check? {
      var moment := MomentAt(events, i, start, setenforce);
      assert moment == after.(answers := moment.answers);
      MoreAnswersJustify(events[i].key, events[i].requested, outcome, after, events[i].answer, moment.answers);
    }
    assert JustifiedAt(events, i, outcome, start, setenforce, nodes);
  }

  // ---------- what a check comes to ----------

  /** The first node of a chain that holds the key. */
  function FirstOf(e: seq<Entry>, chain: Chain, key: Key): Option<nat>
    requires InPool(chain, |e|)
  {
    if chain == [] then None
    else if e[chain[0]].key == key then Some(chain[0])
    else FirstOf(e, chain[1..], key)
  }

  lemma {:induction false} FirstOfHolds(e: seq<Entry>, chain: Chain, key: Key)
    requires InPool(chain, |e|)
    ensures FirstOf(e, chain, key).Some? ==> FirstOf(e, chain, key).value in chain
    ensures FirstOf(e, chain, key).None? <==> forall i | 0 <= i < |chain| :: e[chain[i]].key != key
  {
    if chain != [] {
      FirstOfHolds(e, chain[1..], key);
      assert forall i | 1 <= i < |chain| :: chain[i] == chain[1..][i - 1];
    }
  }

  /** The node of the key that was cached last. */
  ghost function Newest(p: Pool, key: Key): Option<nat>
    requires Shape(p)
  {
    FirstOf(p.entries, p.slots[p.hash(key)], key)
  }

  /** A node whose decision is for the key and covers the request. */
  ghost predicate Answers(p: Pool, id: Option<nat>, key: Key, requested: Av) {
    && id.Some? && id.value < |p.entries|
    && p.entries[id.value].key == key && requested <= p.entries[id.value].avd.decided
  }

  /** The node that answers without the server: the reference, or else the newest one. */
  ghost function Hit(p: Pool, aeref: Option<nat>, key: Key, requested: Av): Option<nat>
    requires Shape(p)
  {
    if Answers(p, aeref, key, requested) then aeref
    else if Answers(p, Newest(p, key), key, requested) then Newest(p, key)
    else None
  }

  /** The reference answers if its node has the key and has decided the request. If all nodes
      of the key have, and there is one, the cache answers; if none has, and the reference does
      not answer, the server is asked. */
  lemma HitIs(p: Pool, aeref: Option<nat>, key: Key, requested: Av)
    requires Shape(p)
    ensures aeref.Some? && DecidesFor(p.entries, aeref.value, key, requested) ==>
              Hit(p, aeref, key, requested) == aeref
    ensures var nodes := NodesOf(p, key);
            nodes != {} && (forall id | id in nodes :: DecidesFor(p.entries, id, key, requested)) ==>
              Hit(p, aeref, key, requested).Some?
    ensures (forall id | id in NodesOf(p, key) :: !DecidesFor(p.entries, id, key, requested)) &&
            (aeref.Some? ==> !DecidesFor(p.entries, aeref.value, key, requested)) ==>
              Hit(p, aeref, key, requested).None?
  {
    var chain := p.slots[p.hash(key)];
    FirstOfHolds(p.entries, chain, key);
    var newest := Newest(p, key);
    if NodesOf(p, key) != {} {
      var id :| id in NodesOf(p, key);
      var i :| 0 <= i < |chain| && chain[i] == id;
      assert newest.Some?;
    }
    if newest.Some? {
      FirstOfHasKey(p.entries, chain, key);
      assert newest.value in NodesOf(p, key);
    }
  }

  /** The node holds the key, and a decision on all that is requested. */
  predicate DecidesFor(e: seq<Entry>, id: nat, key: Key, requested: Av) {
    id < |e| && e[id].key == key && forall perm | perm in requested :: perm in e[id].avd.decided
  }

  /** The chained nodes of a key. */
  ghost function NodesOf(p: Pool, key: Key): set<nat>
    requires Shape(p)
  {
    set id | id in p.slots[p.hash(key)] && id < |p.entries| && p.entries[id].key == key
  }

  lemma {:induction false} FirstOfHasKey(e: seq<Entry>, chain: Chain, key: Key)
    requires InPool(chain, |e|) && FirstOf(e, chain, key).Some?
    ensures var id := FirstOf(e, chain, key).value; id < |e| && id in chain && e[id].key == key
  {
    if e[chain[0]].key != key { FirstOfHasKey(e, chain[1..], key); }
  }

  /** The node that is marked used on the way, whether or not it answers. */
  ghost function Looked(p: Pool, aeref: Option<nat>, key: Key, requested: Av): Option<nat>
    requires Shape(p)
  {
    if Answers(p, aeref, key, requested) then aeref else Newest(p, key)
  }

  function Touched(p: Pool, id: Option<nat>): Pool {
    if id.Some? && id.value < |p.entries|
    then p.(entries := p.entries[id.value := p.entries[id.value].(used := true)])
    else p
  }

  /** The server is asked exactly when no node answers. */
  ghost function Learned(p: Pool, answers: set<Answer>, key: Key, requested: Av, aeref: Option<nat>,
                         answer: Option<Avd>): set<Answer>
    requires Shape(p)
  {
    if Hit(p, aeref, key, requested).None? && answer.Some? then answers + {Answer(key, answer.value)} else answers
  }

  /** The decision a check rests on, or why there is none. */
  ghost function Found(p: Pool, latestNotif: nat, key: Key, requested: Av, aeref: Option<nat>,
                       answer: Option<Avd>): (Outcome, Option<Avd>)
    requires Shape(p)
  {
    var hit := Hit(p, aeref, key, requested);
    if hit.Some? then (Granted, Some(p.entries[hit.value].avd)) else Asked(latestNotif, |p.entries|, answer)
  }

  /** What comes of an answer of the server, for a pool of n nodes. */
  function Asked(latestNotif: nat, n: nat, answer: Option<Avd>): (Outcome, Option<Avd>) {
    if answer.None? then (ServerFailed, None)
    else if answer.value.seqno < latestNotif then (Stale, None)
    else if n == 0 then (NoMemory, None)
    else (Granted, answer)
  }

  /** Denied exactly when something is refused while enforcing and not permissive. */
  function Verdict(avd: Avd, requested: Av, enforcing: bool): Outcome {
    if Refused(avd, requested) && enforcing && !avd.permissive then Denied else Granted
  }

  /** The decision a node is left with. */
  function Extended(avd: Avd, requested: Av, outcome: Outcome): Avd {
    if Refused(avd, requested) && outcome == Granted then avd.(allowed := avd.allowed + requested) else avd
  }

  /** The outcome of a check. */
  ghost function Expected(p: Pool, now: Now, key: Key, requested: Av, aeref: Option<nat>, answer: Option<Avd>): Outcome
    requires Shape(p)
  {
    var (outcome, avd) := Found(p, now.latestNotif, key, requested, aeref, answer);
    if avd.Some? then Verdict(avd.value, requested, now.enforcing) else outcome
  }

  // ---------- what a check does to the pool ----------

  /** The node is gone from slot h, where it was; all other nodes are where they were. */
  ghost predicate Unlinked(slots: seq<Chain>, slots': seq<Chain>, id: nat, h: nat) {
    h < |slots| && exists i :: 0 <= i < |slots[h]| && slots[h][i] == id && slots' == slots[h := Removed(slots[h], i)]
  }

  /** A node is taken: the first free one, or else the one that reclaim chooses, and then
      the next reclaim starts at its slot. The hint is where reclaim starts. */
  ghost predicate Taken(p: Pool, hint: nat, q: Pool, hint': nat, node: Option<nat>) {
    if p.freelist != [] then node == Some(p.freelist[0]) && q == p.(freelist := p.freelist[1..]) && hint' == hint
    else
      && hint < |p.slots| && q == p.(entries := q.entries, slots := q.slots)
      && Reclaimed(p.entries, q.entries, Order(p.slots, hint), node)
      && if node.Some? then Unlinked(p.slots, q.slots, node.value, hint') else q.slots == p.slots && hint' == hint
  }

  /** The node taken, if there is one, heads the chain of the key with the answer. */
  ghost predicate Entered(base: Pool, q: Pool, key: Key, avd: Avd, node: Option<nat>) {
    && Shape(base) && (node.Some? ==> node.value < |base.entries|)
    && q == if node.Some? then Filled(base, node.value, Entry(key, avd, 0, true), avd) else base
  }

  /** An answer that is not stale is entered; otherwise nothing changes. */
  ghost predicate Consulted(p: Pool, hint: nat, q: Pool, hint': nat, latestNotif: nat, key: Key, answer: Option<Avd>,
                            node: Option<nat>) {
    if answer.None? || answer.value.seqno < latestNotif then q == p && hint' == hint
    else exists base :: Taken(p, hint, base, hint', node) && Entered(base, q, key, answer.value, node)
  }

  /** A node is marked used on the way; if none answers, the server is asked. */
  ghost predicate LookedUp(p: Pool, hint: nat, q: Pool, hint': nat, latestNotif: nat, key: Key, requested: Av,
                           aeref: Option<nat>, answer: Option<Avd>, node: Option<nat>)
    requires Shape(p)
  {
    var seen := Touched(p, Looked(p, aeref, key, requested));
    if Hit(p, aeref, key, requested).Some? then q == seen && hint' == hint
    else Consulted(seen, hint, q, hint', latestNotif, key, answer, node)
  }

  /** The decision of the node is extended if it grants more than it allows. */
  function Settled(p: Pool, node: Option<nat>, requested: Av, enforcing: bool): Pool {
    if node.None? || node.value >= |p.entries| then p
    else
      var e := p.entries[node.value];
      var avd := Extended(e.avd, requested, Verdict(e.avd, requested, enforcing));
      p.(entries := p.entries[node.value := e.(avd := avd)])
  }

  /** All that a permission check does to the pool. */
  ghost predicate Checked(p: Pool, hint: nat, q: Pool, hint': nat, latestNotif: nat, enforcing: bool, key: Key,
                          requested: Av, aeref: Option<nat>, answer: Option<Avd>)
    requires Shape(p)
  {
    exists r, node :: LookedUp(p, hint, r, hint', latestNotif, key, requested, aeref, answer, node)
      && q == Settled(r, node, requested, enforcing)
  }

  ghost predicate CachedIn(p: Pool, id: nat, key: Key)
    requires Shape(p)
  {
    id < |p.entries| && p.entries[id].key == key && Chained(p, id)
  }

  lemma MarksKeepCached(p: Pool, p': Pool, id: nat, key: Key)
    requires Shape(p) && Shape(p') && SameButMarks(p, p') && id < |p.entries|
    ensures CachedIn(p', id, key) <==> CachedIn(p, id, key)
    ensures p'.entries[id].avd == p.entries[id].avd
  {
    assert SameEntry(p, p', id);
  }

  // ---------- flushing ----------

  /** The nodes of chain h before position j have been freed. */
  ghost predicate Flushing(p: Pool, h: nat, chain: Chain, j: nat, now: Now) {
    h < |p.slots| && j <= |chain| && Good(p.(slots := p.slots[h := chain[j..]]), None, now)
  }

  function Freed(p: Pool, id: nat): Pool
    requires id < |p.entries|
  {
    p.(entries := p.entries[id := CLEARED], freelist := [id] + p.freelist)
  }

  lemma FlushEnd(p: Pool, h: nat, chain: Chain, now: Now)
    requires Flushing(p, h, chain, |chain|, now)
    ensures Good(p.(slots := p.slots[h := []]), None, now)
  {
    assert chain[|chain|..] == [];
  }

  lemma FlushStep(p: Pool, h: nat, chain: Chain, j: nat, now: Now)
    requires j < |chain| && Flushing(p, h, chain, j, now)
    ensures chain[j] < |p.entries| && Flushing(Freed(p, chain[j]), h, chain, j + 1, now)
    ensures Total(p.slots[h := chain[j + 1..]]) == Total(p.slots[h := chain[j..]]) - 1
  {
    var v := p.(slots := p.slots[h := chain[j..]]);
    var w := p.(slots := p.slots[h := chain[j + 1..]]);
    assert v.slots[h] == chain[j..] && chain[j..][0] == chain[j];
    UnlinkKeeps(v, h, 0, now);
    RemovedHead(chain, j);
    assert v.(slots := v.slots[h := chain[j + 1..]]) == w;
    FreeKeeps(w, chain[j], now);
  }

  /** Some requested permission is not allowed; an empty request is refused too. */
  predicate Refused(avd: Avd, requested: Av) {
    requested == {} || !(requested <= avd.allowed)
  }

  lemma MoreAnswersAreGood(p: Pool, now: Now, a: Answer)
    requires Good(p, None, now)
    ensures Good(p, None, now.(answers := now.answers + {a}))
  {
  }

  lemma ExtendKeeps(p: Pool, id: nat, requested: Av, now: Now)
    requires Good(p, None, now) && id < |p.entries| && Chained(p, id)
    requires !now.enforcing || p.entries[id].avd.permissive
    ensures
      var e := p.entries[id];
      Good(p.(entries := p.entries[id := e.(avd := e.avd.(allowed := e.avd.allowed + requested))]), None, now)
  {
    var e := p.entries[id];
    var e' := e.(avd := e.avd.(allowed := e.avd.allowed + requested));
    var p' := p.(entries := p.entries[id := e']);
    assert Coherent(e, p.origin[id], now);
    forall x | 0 <= x < |p'.entries| ensures Somewhere(p', None, x) {
      assert Somewhere(p, None, x);
    }
    assert id !in p.freelist;
  }

  function NextSlot(h: nat): nat {
    (h + 1) % SLOTS
  }

  /** The turn is back where it started after all slots, and not before. */
  lemma SlotsTurn(start: nat, k: nat)
    requires start < SLOTS && k < SLOTS
    ensures SlotAt(start, k) < SLOTS
    ensures NextSlot(SlotAt(start, k)) == if k + 1 == SLOTS then start else SlotAt(start, k + 1)
    ensures NextSlot(SlotAt(start, k)) == start <==> k + 1 == SLOTS
  {
  }
}
