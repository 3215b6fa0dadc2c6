/** The access vector table: a hash table whose chains are kept sorted by
    (source type, target type, class) so that every search can stop early. */
module Avtab {
  import opened Wrappers

  /** The bits of `specified`. A stored node has exactly one of them, plus possibly
      Enabled; a search key may have several. */
  datatype Flag =
    | Allowed | AuditAllow | AuditDeny
    | Transition | Member | Change
    | XpermsAllowed | XpermsAuditAllow | XpermsDontAudit
    | Enabled

  type Spec = set<Flag>

  const XPERMS: Spec := {XpermsAllowed, XpermsAuditAllow, XpermsDontAudit}
  const TYPE: Spec := {Transition, Member, Change}

  /** A 32-bit access vector is the set of its set bits, one per permission, so
      that or, and, and-not and the test against zero are the set operations. */
  type Perm = nat
  type Av = set<Perm>

  /** Exactly one specifier bit, and Enabled is clear. */
  predicate SingleKind(s: Spec) {
    exists f: Flag :: f != Enabled && s == {f}
  }

  /** An extended permission block: the ioctls of one driver, or the drivers. */
  datatype XPerms = XPerms(specified: nat, driver: nat, perms: set<nat>)

  datatype Triple = Triple(src: nat, tgt: nat, cls: nat)
  datatype Key = Key(triple: Triple, specified: Spec)
  datatype Datum = Datum(data: Av, xperms: XPerms)
  datatype Node = Node(key: Key, datum: Datum)

  type Chain = seq<Node>

  /** Chain order. */
  predicate Before(a: Triple, b: Triple) {
    || a.src < b.src
    || (a.src == b.src && a.tgt < b.tgt)
    || (a.src == b.src && a.tgt == b.tgt && a.cls < b.cls)
  }

  /** What a search looks for: the same triple and an overlapping specifier,
      with the searcher's ENABLED bit masked off. */
  predicate Matches(key: Key, n: Node) {
    key.triple == n.key.triple && Overlap(key.specified, n.key.specified)
  }

  predicate Overlap(searched: Spec, specified: Spec) {
    (searched - {Enabled}) * specified != {}
  }

  /** A match shares a flag other than Enabled with the key. */
  lemma MatchesMeans(key: Key, n: Node)
    ensures Matches(key, n) <==>
            && key.triple.src == n.key.triple.src && key.triple.tgt == n.key.triple.tgt
            && key.triple.cls == n.key.triple.cls
            && exists f: Flag :: f != Enabled && f in key.specified && f in n.key.specified
  {
    if Matches(key, n) {
      var f: Flag :| f in (key.specified - {Enabled}) * n.key.specified;
    }
    if f: Flag :| f != Enabled && f in key.specified && f in n.key.specified {
      assert f in (key.specified - {Enabled}) * n.key.specified;
    }
  }

  /** The flags of extended permission rules. */
  lemma ExtendedFlags(s: Spec)
    ensures (s - {Enabled}) * XPERMS != {} <==> XpermsAllowed in s || XpermsAuditAllow in s || XpermsDontAudit in s
  {
    if f: Flag :| f in (s - {Enabled}) * XPERMS {
      assert f in s;
    }
    assert XpermsAllowed in s ==> XpermsAllowed in (s - {Enabled}) * XPERMS;
    assert XpermsAuditAllow in s ==> XpermsAuditAllow in (s - {Enabled}) * XPERMS;
    assert XpermsDontAudit in s ==> XpermsDontAudit in (s - {Enabled}) * XPERMS;
  }

  predicate Sorted(c: Chain) {
    forall i, j | 0 <= i < j < |c| :: !Before(c[j].key.triple, c[i].key.triple)
  }

  /** The first match at or after position i, by a full scan with no early exit. */
  function FirstMatch(c: Chain, key: Key, i: nat): (r: nat)
    requires i <= |c|
    ensures i <= r <= |c|
    ensures r < |c| ==> Matches(key, c[r])
    ensures forall j | i <= j < r :: !Matches(key, c[j])
    decreases |c| - i
  {
    if i == |c| || Matches(key, c[i]) then i else FirstMatch(c, key, i + 1)
  }

  /** Where both inserts put a new node: before the first match, and otherwise
      after every node that is not greater. */
  function InsertPosition(c: Chain, key: Key, i: nat): (r: nat)
    requires i <= |c|
    ensures i <= r <= |c|
    decreases |c| - i
  {
    if i == |c| || Matches(key, c[i]) || Before(key.triple, c[i].key.triple) then i
    else InsertPosition(c, key, i + 1)
  }

  function InsertAt(c: Chain, i: nat, n: Node): Chain
    requires i <= |c|
  {
    c[..i] + [n] + c[i..]
  }

  /** A position of a sorted chain at which a search may give up. */
  lemma EarlyExit(c: Chain, key: Key, i: nat)
    requires Sorted(c) && i < |c| && Before(key.triple, c[i].key.triple)
    ensures forall j | i <= j < |c| :: !Matches(key, c[j])
    ensures FirstMatch(c, key, i) == |c|
  {
    forall j | i <= j < |c|
      ensures !Matches(key, c[j])
    {
      if i < j { assert !Before(c[j].key.triple, c[i].key.triple); }
    }
  }

  lemma {:induction false} InsertPositionBounds(c: Chain, key: Key, i: nat)
    requires Sorted(c) && i <= |c|
    requires forall j | 0 <= j < i :: !Before(key.triple, c[j].key.triple)
    ensures var r := InsertPosition(c, key, i);
            && (forall j | 0 <= j < r :: !Before(key.triple, c[j].key.triple))
            && (forall j | i <= j < r :: !Matches(key, c[j]))
            && (forall j | r <= j < |c| :: !Before(c[j].key.triple, key.triple))
            && ((r < |c| && Matches(key, c[r])) || (forall j | r <= j < |c| :: !Matches(key, c[j])))
    decreases |c| - i
  {
    if i < |c| && !Matches(key, c[i]) && !Before(key.triple, c[i].key.triple) {
      InsertPositionBounds(c, key, i + 1);
    } else if i < |c| {
      forall j | i <= j < |c|
        ensures !Before(c[j].key.triple, key.triple)
      {
        if i < j { assert !Before(c[j].key.triple, c[i].key.triple); }
      }
      if Before(key.triple, c[i].key.triple) { EarlyExit(c, key, i); }
    }
  }

  /** By source, then target, then class. */
  predicate LexicallyUpTo(a: Triple, b: Triple) {
    a.src < b.src || (a.src == b.src && (a.tgt < b.tgt || (a.tgt == b.tgt && a.cls <= b.cls)))
  }

  /** What it is to be sorted. */
  lemma SortedMeans(c: Chain, i: nat, j: nat)
    requires Sorted(c) && i < j < |c|
    ensures LexicallyUpTo(c[i].key.triple, c[j].key.triple)
  {
    assert !Before(c[j].key.triple, c[i].key.triple);
  }

  /** Both inserts keep a chain sorted. */
  lemma InsertKeepsSorted(c: Chain, n: Node)
    requires Sorted(c)
    ensures Sorted(InsertAt(c, InsertPosition(c, n.key, 0), n))
  {
    InsertPositionBounds(c, n.key, 0);
  }

  /** A specifier with its Enabled bit turned on or off. */
  function WithEnabled(s: Spec, on: bool): Spec {
    if on then s + {Enabled} else s - {Enabled}
  }

  function Switched(n: Node, on: bool): Node {
    n.(key := n.key.(specified := WithEnabled(n.key.specified, on)))
  }

  lemma MatchesIgnoresEnabled(key: Key, n: Node, on: bool)
    ensures Matches(key, Switched(n, on)) <==> Matches(key, n)
    ensures Matches(key.(specified := WithEnabled(key.specified, on)), n) <==> Matches(key, n)
  {
    var s, t := key.specified - {Enabled}, n.key.specified;
    assert s * t == s * WithEnabled(t, on);
    assert s == WithEnabled(key.specified, on) - {Enabled};
  }

  /** Enabled bits, on the searcher's key or on the chain's nodes, never change what
      a search finds. */
  lemma {:induction false} TogglingChangesNoSearch(c: Chain, c': Chain, key: Key, on: bool, i: nat)
    requires |c| == |c'| && i <= |c|
    requires forall j | 0 <= j < |c| :: c'[j] == c[j] || c'[j] == Switched(c[j], true) || c'[j] == Switched(c[j], false)
    ensures FirstMatch(c', key, i) == FirstMatch(c, key, i)
    ensures FirstMatch(c, key.(specified := WithEnabled(key.specified, on)), i) == FirstMatch(c, key, i)
    decreases |c| - i
  {
    if i < |c| {
      MatchesIgnoresEnabled(key, c[i], true);
      MatchesIgnoresEnabled(key, c[i], false);
      TogglingChangesNoSearch(c, c', key, on, i + 1);
    }
  }

  /** All positions at or after i that match, in chain order. */
  function AllMatches(c: Chain, key: Key, i: nat): (r: seq<nat>)
    requires i <= |c|
    decreases |c| - i
  {
    if i == |c| then []
    else if Matches(key, c[i]) then [i] + AllMatches(c, key, i + 1)
    else AllMatches(c, key, i + 1)
  }

  lemma {:induction false} AllMatchesExact(c: Chain, key: Key, i: nat)
    requires i <= |c|
    ensures var r := AllMatches(c, key, i);
            && (forall j :: j in r <==> i <= j < |c| && Matches(key, c[j]))
            && (forall k, l | 0 <= k < l < |r| :: r[k] < r[l])
    decreases |c| - i
  {
    if i < |c| {
      AllMatchesExact(c, key, i + 1);
      var r, t := AllMatches(c, key, i), AllMatches(c, key, i + 1);
      if Matches(key, c[i]) {
        forall k, l | 0 <= k < l < |r|
          ensures r[k] < r[l]
        {
          assert r[l] == t[l - 1] && t[l - 1] in t;
          if k > 0 { assert r[k] == t[k - 1]; }
        }
      }
    }
  }

  lemma {:induction false} AllMatchesFromFirst(c: Chain, key: Key, i: nat)
    requires i <= |c|
    ensures var r := FirstMatch(c, key, i);
            AllMatches(c, key, i) == if r == |c| then [] else [r] + AllMatches(c, key, r + 1)
    decreases |c| - i
  {
    if i < |c| && !Matches(key, c[i]) { AllMatchesFromFirst(c, key, i + 1); }
  }

  ghost predicate IsFirst(c: Chain, key: Key, at: nat, r: Option<nat>)
    requires at <= |c|
  {
    var first := FirstMatch(c, key, at);
    r == if first < |c| then Some(first) else None
  }

  /** The matches before `at` are those found. */
  ghost predicate FoundBefore(c: Chain, key: Key, found: seq<nat>, at: nat)
    requires at <= |c|
  {
    AllMatches(c, key, 0) == found + AllMatches(c, key, at)
  }

  lemma FoundStep(c: Chain, key: Key, found: seq<nat>, at: nat, next: nat)
    requires at <= |c| && IsFirst(c, key, at, Some(next)) && FoundBefore(c, key, found, at)
    ensures next < |c| && FoundBefore(c, key, found + [next], next + 1)
  {
    AllMatchesFromFirst(c, key, at);
    var rest := AllMatches(c, key, next + 1);
    assert found + ([next] + rest) == (found + [next]) + rest;
  }

  datatype InsertError = EEXIST | ENOMEM

  class Table {
    /** The bucket array; empty until it is allocated. */
    var htable: seq<Chain>
    /** Number of elements. */
    var nel: nat
    /** The bucket index of a triple: any pure function will do. */
    const hash: Triple -> nat

    ghost predicate Valid()
      reads this
    {
      && (htable != [] ==> forall t :: hash(t) < |htable|)
      && (forall b | 0 <= b < |htable| :: Sorted(htable[b]))
      && (forall b, i | 0 <= b < |htable| && 0 <= i < |htable[b]| :: hash(htable[b][i].key.triple) == b)
    }

    constructor (hash: Triple -> nat)
      ensures Valid() && htable == [] && nel == 0 && this.hash == hash
    {
      this.hash := hash;
      htable, nel := [], 0;
    }

    /** Allocates the buckets. */
    method Alloc(nslot: nat)
      requires Valid()
      requires forall t :: hash(t) < nslot
      modifies this
      ensures Valid() && nel == 0
      ensures |htable| == nslot && forall b | 0 <= b < nslot :: htable[b] == []
    {
      htable, nel := seq(nslot, _ => []), 0;
    }

    /** The nodes in the order in which a traversal of the table presents them. */
    function Nodes(): seq<Node>
      reads this
    {
      Flatten(htable)
    }

    function Bucket(t: Triple): Chain
      requires htable != [] ==> hash(t) < |htable|
      reads this
    {
      if htable == [] then [] else htable[hash(t)]
    }

    /** The early-exit search finds what a full scan of the whole table finds. */
    method SearchNode(key: Key) returns (r: Option<nat>)
      requires Valid()
      ensures var c := Bucket(key.triple); var first := FirstMatch(c, key, 0);
              r == if first < |c| then Some(first) else None
      ensures r.None? ==> forall b, i | 0 <= b < |htable| && 0 <= i < |htable[b]| :: !Matches(key, htable[b][i])
    {
      if htable == [] { return None; }
      var c := htable[hash(key.triple)];
      r := ScanFrom(c, key, 0);
    }

    /** The search that continues after a node already found. */
    method SearchNodeNext(key: Key, at: nat) returns (r: Option<nat>)
      requires Valid()
      requires at < |Bucket(key.triple)| && Bucket(key.triple)[at].key.triple == key.triple
      ensures var c := Bucket(key.triple); var next := FirstMatch(c, key, at + 1);
              r == if next < |c| then Some(next) else None
    {
      r := ScanFrom(htable[hash(key.triple)], key, at + 1);
    }

    /** Search, then search-next until it fails: exactly the matching nodes of the
        table, in chain order. */
    method Enumerate(key: Key) returns (found: seq<nat>)
      requires Valid()
      ensures found == AllMatches(Bucket(key.triple), key, 0)
    {
      found := [];
      if htable == [] { return; }
      ghost var c, at := Bucket(key.triple), 0;  // the chain before `at` has been searched
      var node := SearchNode(key);
      while node.Some?
        invariant at <= |c| && IsFirst(c, key, at, node) && FoundBefore(c, key, found, at)
        decreases |c| - at
      {
        FoundStep(c, key, found, at, node.value);
        found, at := found + [node.value], node.value + 1;
        node := SearchNodeNext(key, node.value);
      }
      AllMatchesFromFirst(c, key, at);
    }

    /** Insert of a unique rule: refused exactly when a node with the same triple and
        an overlapping specifier is present and the rule is not an extended one. */
    method Insert(key: Key, datum: Datum) returns (r: Option<InsertError>)
      requires Valid()
      modifies this
      ensures Valid()
      ensures r == Some(ENOMEM) <==> old(htable) == []
      ensures r == Some(EEXIST) <==>
              && XpermsAllowed !in key.specified && XpermsAuditAllow !in key.specified
              && XpermsDontAudit !in key.specified
              && exists b, i | 0 <= b < |old(htable)| && 0 <= i < |old(htable)[b]| :: Matches(key, old(htable)[b][i])
      ensures r.Some? ==> htable == old(htable) && nel == old(nel)
      ensures r.None? ==> Inserted(old(htable), Node(key, datum)) && nel == old(nel) + 1
    {
      if htable == [] { return Some(ENOMEM); }
      var h := hash(key.triple);
      var c := htable[h];
      var i := 0;
      while i < |c|
        invariant 0 <= i <= |c|
        invariant InsertPosition(c, key, 0) == InsertPosition(c, key, i)
        invariant forall j | 0 <= j < i :: !Matches(key, c[j])
      {
        if Matches(key, c[i]) {
          ExtendedFlags(key.specified);
          if (key.specified - {Enabled}) * XPERMS != {} { break; }
          return Some(EEXIST);
        }
        if Before(key.triple, c[i].key.triple) {
          EarlyExit(c, key, i);
          break;
        }
        i := i + 1;
      }
      ExtendedFlags(key.specified);
      InsertKeepsSorted(c, Node(key, datum));
      htable, nel := htable[h := InsertAt(c, i, Node(key, datum))], nel + 1;
      r := None;
    }

    /** Insert of a rule that may be present already. */
    method InsertNonunique(key: Key, datum: Datum) returns (ok: bool)
      requires Valid()
      modifies this
      ensures Valid()
      ensures ok <==> old(htable) != []
      ensures !ok ==> htable == old(htable) && nel == old(nel)
      ensures ok ==> Inserted(old(htable), Node(key, datum)) && nel == old(nel) + 1
    {
      if htable == [] { return false; }
      var h := hash(key.triple);
      var c := htable[h];
      var i := 0;
      while i < |c| && !Matches(key, c[i]) && !Before(key.triple, c[i].key.triple)
        invariant 0 <= i <= |c|
        invariant InsertPosition(c, key, 0) == InsertPosition(c, key, i)
      {
        i := i + 1;
      }
      InsertKeepsSorted(c, Node(key, datum));
      htable, nel := htable[h := InsertAt(c, i, Node(key, datum))], nel + 1;
      ok := true;
    }

    /** The table is `before` with one node put at its insert position. */
    ghost predicate Inserted(before: seq<Chain>, n: Node)
      reads this
    {
      var h := hash(n.key.triple);
      && h < |before|
      && htable == before[h := InsertAt(before[h], InsertPosition(before[h], n.key, 0), n)]
    }

    /** Turns a node's Enabled bit on or off, through a pointer to the node. */
    method SetEnabled(b: nat, i: nat, on: bool)
      requires Valid()
      requires b < |htable| && i < |htable[b]|
      modifies this
      ensures Valid() && nel == old(nel)
      ensures htable == old(htable)[b := old(htable)[b][i := Switched(old(htable)[b][i], on)]]
    {
      htable := htable[b := htable[b][i := Switched(htable[b][i], on)]];
    }

    /** Writes through a node pointer. */
    method SetDatum(t: Triple, at: nat, datum: Datum)
      requires Valid()
      requires at < |Bucket(t)|
      modifies this
      ensures Valid() && nel == old(nel)
      ensures htable == old(htable)[hash(t) := old(Bucket(t))[at := old(Bucket(t))[at].(datum := datum)]]
    {
      var h := hash(t);
      var c := htable[h];
      htable := htable[h := c[at := c[at].(datum := datum)]];
    }
  }

  function Flatten(chains: seq<Chain>): seq<Node> {
    if chains == [] then [] else chains[0] + Flatten(chains[1..])
  }

  /** The scan all searches share. */
  method ScanFrom(c: Chain, key: Key, start: nat) returns (r: Option<nat>)
    requires Sorted(c) && start <= |c|
    ensures var first := FirstMatch(c, key, start);
            r == if first < |c| then Some(first) else None
  {
    var i := start;
    while i < |c|
      invariant start <= i <= |c|
      invariant FirstMatch(c, key, start) == FirstMatch(c, key, i)
    {
      if Matches(key, c[i]) { return Some(i); }
      if Before(key.triple, c[i].key.triple) {
        EarlyExit(c, key, i);
        return None;
      }
      i := i + 1;
    }
    r := None;
  }
}
