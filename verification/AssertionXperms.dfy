/** Neverallow rules on ioctl numbers: what an entry found by the plain check is then
    looked up for. */
module AssertionXperms {
  import opened Wrappers
  import opened Avtab
  import opened Policy
  import opened Assertion
  import Expand
  import TypeMaps

  const IOCTLFUNCTION := 1
  const IOCTLDRIVER := 2

  // ---------- blocks of ioctl numbers ----------

  /** 256 bits, and a driver of eight. */
  predicate WellFormed(x: XPerms) {
    x.driver < 256 && forall f | f in x.perms :: f < 256
  }

  /** The block holds the ioctl with this driver and function. */
  predicate Holds(x: XPerms, driver: nat, func: nat) {
    && driver < 256 && func < 256
    && ((x.specified == IOCTLFUNCTION && driver == x.driver && func in x.perms)
        || (x.specified == IOCTLDRIVER && driver in x.perms))
  }

  ghost predicate ShareIoctl(x: XPerms, y: XPerms) {
    exists driver, func :: Holds(x, driver, func) && Holds(y, driver, func)
  }

  predicate CheckExtendedPermissions(never: XPerms, allow: XPerms) {
    if never.specified == IOCTLFUNCTION && allow.specified == IOCTLFUNCTION then
      never.driver == allow.driver && never.perms * allow.perms != {}
    else if never.specified == IOCTLFUNCTION && allow.specified == IOCTLDRIVER then never.driver in allow.perms
    else if never.specified == IOCTLDRIVER && allow.specified == IOCTLFUNCTION then allow.driver in never.perms
    else never.specified == IOCTLDRIVER && allow.specified == IOCTLDRIVER && never.perms * allow.perms != {}
  }

  /** The test misses no shared number, and on blocks that are not empty finds nothing else. */
  lemma CheckDecides(never: XPerms, allow: XPerms)
    requires WellFormed(never) && WellFormed(allow)
    ensures ShareIoctl(never, allow) ==> CheckExtendedPermissions(never, allow)
    ensures never.perms != {} && allow.perms != {} ==>
            (CheckExtendedPermissions(never, allow) <==> ShareIoctl(never, allow))
  {
    if d, f :| Holds(never, d, f) && Holds(allow, d, f) {
      assert f in never.perms && f in allow.perms ==> f in never.perms * allow.perms;
      assert d in never.perms && d in allow.perms ==> d in never.perms * allow.perms;
    }
    if CheckExtendedPermissions(never, allow) && never.perms != {} && allow.perms != {} {
      if never.specified == allow.specified {
        var e :| e in never.perms * allow.perms;
        var d := if never.specified == IOCTLFUNCTION then never.driver else e;
        assert Holds(never, d, e) && Holds(allow, d, e);
      } else {
        var block := if never.specified == IOCTLFUNCTION then never else allow;
        var f :| f in block.perms;
        assert Holds(never, block.driver, f) && Holds(allow, block.driver, f);
      }
    }
  }

  /** The block printed for a violation is exactly what the two blocks share; the driver of
      a block of drivers is whatever stood there. */
  function ExtendedPermissionsViolated(never: XPerms, allow: XPerms, left: nat): (error: XPerms)
    requires WellFormed(never) && WellFormed(allow) && CheckExtendedPermissions(never, allow)
    ensures forall d, f :: Holds(error, d, f) <==> Holds(never, d, f) && Holds(allow, d, f)
  {
    if never.specified == IOCTLFUNCTION && allow.specified == IOCTLFUNCTION then
      XPerms(IOCTLFUNCTION, allow.driver, never.perms * allow.perms)
    else if never.specified == IOCTLFUNCTION then XPerms(IOCTLFUNCTION, never.driver, never.perms)
    else if allow.specified == IOCTLFUNCTION then XPerms(IOCTLFUNCTION, allow.driver, allow.perms)
    else XPerms(IOCTLDRIVER, left, never.perms * allow.perms)
  }

  // ---------- what a policy says about ioctls ----------

  /** An allowxperm rule on ioctls. */
  predicate IoctlRule(n: Node) {
    && XpermsAllowed in n.key.specified
    && (n.datum.xperms.specified == IOCTLFUNCTION || n.datum.xperms.specified == IOCTLDRIVER)
  }

  ghost predicate GoodBlocks(nodes: seq<Node>) {
    forall n | n in nodes && IoctlRule(n) :: WellFormed(n.datum.xperms) && n.datum.xperms.perms != {}
  }

  ghost predicate GoodRule(x: XPerms) {
    WellFormed(x) && x.perms != {} && (x.specified == IOCTLFUNCTION || x.specified == IOCTLDRIVER)
  }

  /** Rule n is about the ioctls of type indexes s on t. */
  predicate Restricts(p: Types, n: Node, s: nat, t: nat, c: nat) {
    IoctlRule(n) && Covers(p, n, s + 1, t + 1, c)
  }

  /** Once the ioctl permission is granted, every number is permitted if no rule is about
      ioctls, and otherwise the numbers some rule holds. */
  ghost predicate Permitted(p: Types, nodes: seq<Node>, s: nat, t: nat, c: nat, driver: nat, func: nat) {
    (exists n :: n in nodes && Restricts(p, n, s, t, c)) ==>
      exists n :: n in nodes && Restricts(p, n, s, t, c) && Holds(n.datum.xperms, driver, func)
  }

  /** Some number the rule is about is permitted. */
  ghost predicate PairViolated(p: Types, nodes: seq<Node>, x: XPerms, s: nat, t: nat, c: nat) {
    exists driver, func :: Holds(x, driver, func) && Permitted(p, nodes, s, t, c, driver, func)
  }

  // ---------- the lookup for one source and target ----------

  predicate Precedes(i: nat, j: nat, ci: nat, cj: nat) {
    i < ci || (i == ci && j < cj)
  }

  predicate IsBlock(n: Node, i: nat, j: nat, c: nat) {
    n.key.triple == Triple(i + 1, j + 1, c) && IoctlRule(n)
  }

  predicate Catches(n: Node, x: XPerms, i: nat, j: nat, c: nat) {
    IsBlock(n, i, j, c) && CheckExtendedPermissions(x, n.datum.xperms)
  }

  /** A lookup of the blocks for all attributes of a source and of a target. */
  datatype Lookup = Lookup(nodes: seq<Node>, x: XPerms, c: nat, sattr: set<nat>, tattr: set<nat>) {

    ghost predicate Has(i: nat, j: nat) {
      i in sattr && j in tattr && exists n :: n in nodes && IsBlock(n, i, j, c)
    }

    ghost predicate Caught(i: nat, j: nat)
    {
      i in sattr && j in tattr && exists n :: n in nodes && Catches(n, x, i, j, c)
    }

    ghost predicate Silent() {
      forall i: nat, j: nat :: !Has(i, j)
    }

    /** The last pair that has a block. */
    ghost predicate IsLast(i: nat, j: nat) {
      Has(i, j) && forall k: nat, l: nat | Has(k, l) :: !Precedes(i, j, k, l)
    }

    ghost predicate SomeCaught()
    {
      exists i: nat, j: nat :: Caught(i, j)
    }

    /** What the code answers: the last pair with blocks decides. */
    ghost predicate Verdict()
    {
      Silent() || exists i: nat, j: nat :: IsLast(i, j) && Caught(i, j)
    }

    /** A pair is caught, and the last pair that has blocks is not. */
    ghost predicate Overwritten()
    {
      SomeCaught() && exists i: nat, j: nat :: IsLast(i, j) && !Caught(i, j)
    }

    /** The answer when the loops stand at (ci, cj). */
    ghost predicate Answer(ci: nat, cj: nat)
    {
      (forall i: nat, j: nat | Has(i, j) :: !Precedes(i, j, ci, cj))
      || exists i: nat, j: nat :: IsLastBefore(i, j, ci, cj) && Caught(i, j)
    }

    ghost predicate IsLastBefore(i: nat, j: nat, ci: nat, cj: nat) {
      && Has(i, j) && Precedes(i, j, ci, cj)
      && forall k: nat, l: nat | Has(k, l) && Precedes(k, l, ci, cj) :: !Precedes(i, j, k, l)
    }

    lemma Step(ci: nat, cj: nat)
      ensures Has(ci, cj) ==> (Answer(ci, cj + 1) <==> Caught(ci, cj))
      ensures !Has(ci, cj) ==> (Answer(ci, cj + 1) <==> Answer(ci, cj))
    {
      if Has(ci, cj) {
        assert IsLastBefore(ci, cj, ci, cj + 1);
      } else {
        forall i: nat, j: nat | Has(i, j) ensures Precedes(i, j, ci, cj) <==> Precedes(i, j, ci, cj + 1) {}
        SamePosition(ci, cj, ci, cj + 1);
      }
    }

    lemma SamePosition(ci: nat, cj: nat, di: nat, dj: nat)
      requires forall i: nat, j: nat | Has(i, j) :: Precedes(i, j, ci, cj) <==> Precedes(i, j, di, dj)
      ensures Answer(ci, cj) <==> Answer(di, dj)
    {
      forall i: nat, j: nat ensures IsLastBefore(i, j, ci, cj) <==> IsLastBefore(i, j, di, dj) {}
    }

    ghost predicate Below(count: nat) {
      forall i | i in sattr + tattr :: i < count
    }

    lemma HasBelow(i: nat, j: nat, count: nat)
      requires Below(count)
      ensures Has(i, j) ==> i < count && j < count
    {
      if Has(i, j) { assert i in sattr + tattr && j in sattr + tattr; }
    }

    lemma Ends(ci: nat, count: nat)
      requires Below(count)
      ensures Answer(ci, count) <==> Answer(ci + 1, 0)
      ensures ci !in sattr ==> (Answer(ci, 0) <==> Answer(ci + 1, 0))
      ensures Answer(count, 0) <==> Verdict()
    {
      forall i: nat, j: nat | Has(i, j)
        ensures Precedes(i, j, ci, count) <==> Precedes(i, j, ci + 1, 0)
        ensures Precedes(i, j, count, 0)
      {
        HasBelow(i, j, count);
      }
      SamePosition(ci, count, ci + 1, 0);
      if ci !in sattr { SamePosition(ci, 0, ci + 1, 0); }
      forall i: nat, j: nat ensures IsLastBefore(i, j, count, 0) <==> IsLast(i, j) {}
    }

    /** The answer is right unless a later pair has overwritten it. */
    lemma VerdictExact(count: nat)
      requires Below(count)
      ensures (Verdict() <==> Silent() || SomeCaught()) <==> !Overwritten()
    {
      if !Silent() {
        var i, j := LastPair(count);
        forall k: nat, l: nat | IsLast(k, l) ensures k == i && l == j {
          assert !Precedes(i, j, k, l) && !Precedes(k, l, i, j);
        }
      }
      forall i: nat, j: nat | Caught(i, j) ensures Has(i, j) {}
    }

    lemma LastPair(count: nat) returns (i: nat, j: nat)
      requires Below(count) && !Silent()
      ensures IsLast(i, j)
    {
      forall k: nat, l: nat | Has(k, l) ensures k < count && l < count { HasBelow(k, l, count); }
      i := LastRow(count);
      j := LastColumn(i, count);
    }

    ghost predicate HasRow(i: nat) {
      exists j: nat :: Has(i, j)
    }

    /** The last row with a block, when there is none from n on. */
    lemma {:induction false} LastRow(n: nat) returns (i: nat)
      requires !Silent() && forall k: nat, l: nat | Has(k, l) :: k < n
      ensures HasRow(i) && forall k: nat, l: nat | Has(k, l) :: k <= i
      decreases n
    {
      var k: nat, l: nat :| Has(k, l);
      i := n - 1;
      if !HasRow(i) { i := LastRow(n - 1); }
    }

    lemma {:induction false} LastColumn(i: nat, n: nat) returns (j: nat)
      requires HasRow(i) && forall l: nat | Has(i, l) :: l < n
      ensures Has(i, j) && forall l: nat | Has(i, l) :: l <= j
      decreases n
    {
      var l: nat :| Has(i, l);
      j := n - 1;
      if !Has(i, j) { j := LastColumn(i, n - 1); }
    }
  }

  // ---------- the lookup in the table ----------

  function BlockKey(i: nat, j: nat, c: nat): Key {
    Key(Triple(i + 1, j + 1, c), {XpermsAllowed})
  }

  lemma BlockMatches(n: Node, i: nat, j: nat, c: nat)
    ensures IsBlock(n, i, j, c) <==> Matches(BlockKey(i, j, c), n) && IoctlRule(n)
  {
    assert {XpermsAllowed} - {Enabled} == {XpermsAllowed};
    assert XpermsAllowed in n.key.specified ==> XpermsAllowed in {XpermsAllowed} * n.key.specified;
  }

  /** The nodes for a triple are those of its bucket. */
  lemma BlocksInBucket(table: Table, i: nat, j: nat, c: nat, n: Node)
    requires table.Valid() && IsBlock(n, i, j, c)
    ensures n in table.Nodes() <==> n in table.Bucket(Triple(i + 1, j + 1, c))
  {
    Expand.FlattenMembers(table.htable, n);
  }

  /** No node of the bucket before position at is a block that is caught. */
  ghost predicate Searched(chain: Chain, x: XPerms, i: nat, j: nat, c: nat, at: nat, rc0: bool, rc: bool)
    requires at <= |chain|
  {
    && (forall k | 0 <= k < at :: !Catches(chain[k], x, i, j, c))
    && rc == (rc0 && forall k | 0 <= k < at :: !IsBlock(chain[k], i, j, c))
  }

  /** One pair of attributes: the search goes on until a block is caught; without blocks
      the answer is left as it is. */
  method SearchPair(table: Table, x: XPerms, i: nat, j: nat, c: nat, rc0: bool) returns (rc: bool)
    requires table.Valid()
    ensures PairAnswered(table.Bucket(Triple(i + 1, j + 1, c)), x, i, j, c, rc0, rc)
  {
    rc := rc0;
    var key := BlockKey(i, j, c);
    var chain, at := table.Bucket(key.triple), 0;
    var node := table.SearchNode(key);
    while node.Some?
      invariant at <= |chain| && IsFirst(chain, key, at, node) && Searched(chain, x, i, j, c, at, rc0, rc)
      decreases |chain| - at
    {
      SearchedTo(chain, x, i, j, c, at, node.value, rc0, rc);
      at := node.value;
      rc := CheckBlock(chain, x, i, j, c, at, rc0, rc);
      if Catches(chain[at], x, i, j, c) { return; }
      at := at + 1;
      node := table.SearchNodeNext(key, at - 1);
    }
    SearchedTo(chain, x, i, j, c, at, |chain|, rc0, rc);
    AllSearched(chain, x, i, j, c, rc0, rc);
  }

  ghost predicate PairAnswered(chain: Chain, x: XPerms, i: nat, j: nat, c: nat, rc0: bool, rc: bool) {
    rc <==> (exists n :: n in chain && Catches(n, x, i, j, c)) || (rc0 && forall n | n in chain :: !IsBlock(n, i, j, c))
  }

  /** A node found that is not a block of ioctls is passed over. */
  method CheckBlock(chain: Chain, x: XPerms, i: nat, j: nat, c: nat, at: nat, ghost rc0: bool, rc: bool)
    returns (rc': bool)
    requires at < |chain| && Matches(BlockKey(i, j, c), chain[at]) && Searched(chain, x, i, j, c, at, rc0, rc)
    ensures Catches(chain[at], x, i, j, c) ==> rc' && PairAnswered(chain, x, i, j, c, rc0, rc')
    ensures !Catches(chain[at], x, i, j, c) ==> Searched(chain, x, i, j, c, at + 1, rc0, rc')
  {
    BlockMatches(chain[at], i, j, c);
    if IoctlRule(chain[at]) {
      rc' := CheckExtendedPermissions(x, chain[at].datum.xperms);
    } else {
      rc' := rc;
    }
  }

  lemma AllSearched(chain: Chain, x: XPerms, i: nat, j: nat, c: nat, rc0: bool, rc: bool)
    requires Searched(chain, x, i, j, c, |chain|, rc0, rc)
    ensures PairAnswered(chain, x, i, j, c, rc0, rc)
  {
    assert forall k | 0 <= k < |chain| :: chain[k] in chain;
  }

  lemma SearchedTo(chain: Chain, x: XPerms, i: nat, j: nat, c: nat, at: nat, to: nat, rc0: bool, rc: bool)
    requires at <= to <= |chain| && Searched(chain, x, i, j, c, at, rc0, rc)
    requires forall k | at <= k < to :: !Matches(BlockKey(i, j, c), chain[k])
    ensures Searched(chain, x, i, j, c, to, rc0, rc)
  {
    forall k | at <= k < to ensures !IsBlock(chain[k], i, j, c) { BlockMatches(chain[k], i, j, c); }
  }

  /** What the search in the bucket says about the lookup. */
  lemma PairAnswer(table: Table, look: Lookup, i: nat, j: nat)
    requires table.Valid() && look.nodes == table.Nodes() && i in look.sattr && j in look.tattr
    ensures var chain := table.Bucket(Triple(i + 1, j + 1, look.c));
            && (look.Caught(i, j) <==> exists n :: n in chain && Catches(n, look.x, i, j, look.c))
            && (look.Has(i, j) <==> exists n :: n in chain && IsBlock(n, i, j, look.c))
  {
    forall n | IsBlock(n, i, j, look.c)
      ensures n in table.Nodes() <==> n in table.Bucket(Triple(i + 1, j + 1, look.c))
    {
      BlocksInBucket(table, i, j, look.c, n);
    }
  }

  /** All pairs of attributes of a source and a target: the last pair that has blocks
      decides. */
  method CheckExtendedPermissionsAvtab(table: Table, x: XPerms, c: nat, sattr: set<nat>, tattr: set<nat>, count: nat)
    returns (rc: bool)
    requires table.Valid() && forall i | i in sattr + tattr :: i < count
    ensures rc <==> Lookup(table.Nodes(), x, c, sattr, tattr).Verdict()
  {
    ghost var look := Lookup(table.Nodes(), x, c, sattr, tattr);
    rc := true;
    for i := 0 to count
      invariant rc <==> look.Answer(i, 0)
    {
      look.Ends(i, count);
      if i !in sattr { continue; }
      for j := 0 to count
        invariant rc <==> look.Answer(i, j)
      {
        look.Step(i, j);
        if j !in tattr { continue; }
        PairAnswer(table, look, i, j);
        rc := SearchPair(table, x, i, j, c, rc);
      }
    }
    look.Ends(count, count);
  }

  // ---------- what the lookup means ----------

  /** The attributes of each type: those that list it, and itself. */
  ghost predicate IsTypeAttrs(p: Types, attrs: seq<set<nat>>) {
    && |attrs| == p.Count()
    && forall i, a: nat {:trigger a in attrs[i]} | 0 <= i < |attrs| ::
         a in attrs[i] <==> a < |attrs| && (a == i || i in p.attrTypes[a])
  }

  predicate IsType(p: Types, i: nat) {
    i < |p.individual| && p.individual[i]
  }

  lemma AttrsBelow(p: Types, attrs: seq<set<nat>>, s: nat, t: nat)
    requires IsTypeAttrs(p, attrs) && s < p.Count() && t < p.Count()
    ensures forall a | a in attrs[s] + attrs[t] :: a < p.Count()
  {
    forall a | a in attrs[s] + attrs[t] ensures a < p.Count() {
      assert a in attrs[s] || a in attrs[t];
    }
  }

  function LookupFor(attrs: seq<set<nat>>, nodes: seq<Node>, x: XPerms, s: nat, t: nat, c: nat): Lookup
    requires s < |attrs| && t < |attrs|
  {
    Lookup(nodes, x, c, attrs[s], attrs[t])
  }

  lemma BlockCovers(p: Types, attrs: seq<set<nat>>, n: Node, s: nat, t: nat, c: nat)
    requires p.Valid() && IsTypeAttrs(p, attrs) && IsType(p, s) && IsType(p, t) && RuleInRange(p, n)
    ensures Restricts(p, n, s, t, c) <==>
            exists i, j :: i in attrs[s] && j in attrs[t] && IsBlock(n, i, j, c)
  {
    if Restricts(p, n, s, t, c) {
      var i, j := n.key.triple.src - 1, n.key.triple.tgt - 1;
      assert i in attrs[s] && j in attrs[t] && IsBlock(n, i, j, c);
    }
    if i, j :| i in attrs[s] && j in attrs[t] && IsBlock(n, i, j, c) {
      assert s in p.attrTypes[i] && t in p.attrTypes[j];
    }
  }

  /** The maps built from the type table are such maps. */
  lemma BuiltAttrsFit(maps: TypeMaps.Maps, ds: seq<TypeMaps.TypeDatum>, nprim: nat)
    requires TypeMaps.GoodTable(ds, nprim) && maps.Built(ds, |ds|, nprim)
    ensures IsTypeAttrs(Types(TypeMaps.Flags(ds, nprim), maps.attrTypes), maps.typeAttrs)
  {
    forall i, a: nat | 0 <= i < nprim
      ensures a in maps.typeAttrs[i] <==> a < nprim && (a == i || i in maps.attrTypes[a])
    {
      if TypeMaps.Lists(ds, |ds|, a, i) {
        var k :| 0 <= k < |ds| && ds[k].isAttribute && ds[k].value == a + 1 && i in ds[k].types;
        assert TypeMaps.InRange(ds[k], nprim);
      }
      if a < nprim { TypeMaps.MapsAreInverse(maps, ds, nprim, a, i); }
    }
  }

  /** What is asked of a table with ioctl rules. */
  ghost predicate GoodNodes(p: Types, attrs: seq<set<nat>>, nodes: seq<Node>) {
    p.Valid() && IsTypeAttrs(p, attrs) && RulesInRange(p, nodes) && GoodBlocks(nodes)
  }

  lemma HoldsSome(x: XPerms) returns (driver: nat, func: nat)
    requires GoodRule(x)
    ensures Holds(x, driver, func)
  {
    var e :| e in x.perms;
    driver, func := if x.specified == IOCTLFUNCTION then x.driver else e, e;
  }

  lemma BlockFound(p: Types, attrs: seq<set<nat>>, nodes: seq<Node>, x: XPerms, s: nat, t: nat, c: nat, n: Node)
    requires GoodNodes(p, attrs, nodes) && GoodRule(x) && IsType(p, s) && IsType(p, t) && n in nodes
    ensures var look := LookupFor(attrs, nodes, x, s, t, c);
            && (Restricts(p, n, s, t, c) ==> !look.Silent())
            && (Restricts(p, n, s, t, c) && ShareIoctl(x, n.datum.xperms) ==> look.SomeCaught())
  {
    var look := LookupFor(attrs, nodes, x, s, t, c);
    BlockCovers(p, attrs, n, s, t, c);
    if Restricts(p, n, s, t, c) {
      var i, j :| i in attrs[s] && j in attrs[t] && IsBlock(n, i, j, c);
      assert look.Has(i, j);
      CheckDecides(x, n.datum.xperms);
      if ShareIoctl(x, n.datum.xperms) {
        assert Catches(n, x, i, j, c);
        assert look.Caught(i, j);
      }
    }
  }

  lemma FoundBlock(p: Types, attrs: seq<set<nat>>, nodes: seq<Node>, x: XPerms, s: nat, t: nat, c: nat, i: nat, j: nat)
    requires GoodNodes(p, attrs, nodes) && GoodRule(x) && IsType(p, s) && IsType(p, t)
    ensures var look := LookupFor(attrs, nodes, x, s, t, c);
            && (look.Has(i, j) ==> exists n :: n in nodes && Restricts(p, n, s, t, c))
            && (look.Caught(i, j) ==>
                  exists n :: n in nodes && Restricts(p, n, s, t, c) && ShareIoctl(x, n.datum.xperms))
  {
    forall n | n in nodes && IsBlock(n, i, j, c) && i in attrs[s] && j in attrs[t]
      ensures Restricts(p, n, s, t, c)
      ensures CheckExtendedPermissions(x, n.datum.xperms) ==> ShareIoctl(x, n.datum.xperms)
    {
      BlockCovers(p, attrs, n, s, t, c);
      CheckDecides(x, n.datum.xperms);
    }
  }

  /** Silence and a caught block are just what a violation is. */
  lemma LookupMeaning(p: Types, attrs: seq<set<nat>>, nodes: seq<Node>, x: XPerms, s: nat, t: nat, c: nat)
    requires GoodNodes(p, attrs, nodes) && GoodRule(x) && IsType(p, s) && IsType(p, t)
    ensures var look := LookupFor(attrs, nodes, x, s, t, c);
            look.Silent() || look.SomeCaught() <==> PairViolated(p, nodes, x, s, t, c)
  {
    var look := LookupFor(attrs, nodes, x, s, t, c);
    if look.Silent() {
      forall n | n in nodes ensures !Restricts(p, n, s, t, c) { BlockFound(p, attrs, nodes, x, s, t, c, n); }
      var driver, func := HoldsSome(x);
      assert Permitted(p, nodes, s, t, c, driver, func);
    } else {
      var i: nat, j: nat :| look.Has(i, j);
      FoundBlock(p, attrs, nodes, x, s, t, c, i, j);
    }
    if look.SomeCaught() {
      var i: nat, j: nat :| look.Caught(i, j);
      FoundBlock(p, attrs, nodes, x, s, t, c, i, j);
      var n :| n in nodes && Restricts(p, n, s, t, c) && ShareIoctl(x, n.datum.xperms);
      var driver, func :| Holds(x, driver, func) && Holds(n.datum.xperms, driver, func);
      assert Permitted(p, nodes, s, t, c, driver, func);
    }
    if !look.Silent() && PairViolated(p, nodes, x, s, t, c) {
      var driver, func :| Holds(x, driver, func) && Permitted(p, nodes, s, t, c, driver, func);
      var n :| n in nodes && Restricts(p, n, s, t, c) && Holds(n.datum.xperms, driver, func);
      BlockFound(p, attrs, nodes, x, s, t, c, n);
    }
  }

  ghost predicate Overwritten(attrs: seq<set<nat>>, nodes: seq<Node>, x: XPerms, s: nat, t: nat, c: nat) {
    s < |attrs| && t < |attrs| && LookupFor(attrs, nodes, x, s, t, c).Overwritten()
  }

  /** The lookup for a source and a target is right exactly when no later pair of attributes
      overwrites what was found. */
  lemma PairIsExact(p: Types, attrs: seq<set<nat>>, nodes: seq<Node>, x: XPerms, s: nat, t: nat, c: nat)
    requires GoodNodes(p, attrs, nodes) && GoodRule(x) && IsType(p, s) && IsType(p, t)
    ensures var verdict := LookupFor(attrs, nodes, x, s, t, c).Verdict();
            && (verdict ==> PairViolated(p, nodes, x, s, t, c))
            && ((verdict <==> PairViolated(p, nodes, x, s, t, c)) <==> !Overwritten(attrs, nodes, x, s, t, c))
  {
    LookupMeaning(p, attrs, nodes, x, s, t, c);
    AttrsBelow(p, attrs, s, t);
    LookupFor(attrs, nodes, x, s, t, c).VerdictExact(p.Count());
  }

  // ---------- the check of a rule ----------

  /** Some matching source and target of the entry are not cleared by the lookup. */
  ghost predicate SomePair(p: Types, attrs: seq<set<nat>>, nodes: seq<Node>, rule: Neverallow, x: XPerms, n: Node) {
    exists s, t :: s in SrcMatches(p, rule, n) && t in TgtMatches(p, rule, n)
      && PairVerdict(attrs, nodes, x, s, t, n.key.triple.cls)
  }

  ghost predicate PairVerdict(attrs: seq<set<nat>>, nodes: seq<Node>, x: XPerms, s: nat, t: nat, c: nat) {
    s < |attrs| && t < |attrs| && LookupFor(attrs, nodes, x, s, t, c).Verdict()
  }

  ghost predicate XpermsEntryFlagged(p: Types, attrs: seq<set<nat>>, nodes: seq<Node>, rule: Neverallow, x: XPerms,
                                     n: Node) {
    EntryFlagged(p, rule, n) && SomePair(p, attrs, nodes, rule, x, n)
  }

  ghost predicate XpermsFlagged(p: Types, attrs: seq<set<nat>>, nodes: seq<Node>, rule: Neverallow, x: XPerms) {
    exists k :: 0 <= k < |nodes| && XpermsEntryFlagged(p, attrs, nodes, rule, x, nodes[k])
  }

  lemma MatchesInRange(p: Types, rule: Neverallow, n: Node)
    requires p.Valid()
    ensures forall i | i in SrcMatches(p, rule, n) + TgtMatches(p, rule, n) :: i < p.Count() && IsType(p, i)
  {
    forall i | i in SrcMatches(p, rule, n) + TgtMatches(p, rule, n) ensures i < p.Count() && IsType(p, i) {
      if i in p.Behind(n.key.triple.src) { BehindInRange(p, n.key.triple.src, i); }
      if i in p.Behind(n.key.triple.tgt) { BehindInRange(p, n.key.triple.tgt, i); }
    }
  }

  /** The targets for one source. */
  method CheckTargets(p: Types, attrs: seq<set<nat>>, table: Table, x: XPerms, s: nat, tgtMatches: set<nat>, c: nat)
    returns (ret: bool)
    requires table.Valid() && IsTypeAttrs(p, attrs) && s < p.Count() && forall t | t in tgtMatches :: t < p.Count()
    ensures ret <==> exists t :: t in tgtMatches && PairVerdict(attrs, table.Nodes(), x, s, t, c)
  {
    ret := false;
    for t := 0 to p.Count()
      invariant forall u | u in tgtMatches && u < t :: !PairVerdict(attrs, table.Nodes(), x, s, u, c)
    {
      if t !in tgtMatches { continue; }
      AttrsBelow(p, attrs, s, t);
      ret := CheckExtendedPermissionsAvtab(table, x, c, attrs[s], attrs[t], p.Count());
      if ret {
        assert PairVerdict(attrs, table.Nodes(), x, s, t, c);
        return;
      }
    }
    ret := false;
  }

  /** The lookups for an entry the plain check has found: the first pair of types that is
      not cleared ends them. */
  method CheckAssertionExtendedPermissions(p: Types, attrs: seq<set<nat>>, table: Table, rule: Neverallow, x: XPerms,
                                           n: Node)
    returns (ret: bool)
    requires table.Valid() && p.Valid() && IsTypeAttrs(p, attrs) && RuleInRange(p, n) && EntryFlagged(p, rule, n)
    ensures ret <==> SomePair(p, attrs, table.Nodes(), rule, x, n)
  {
    FlaggedHasPairs(p, rule, n);
    MatchesInRange(p, rule, n);
    ret := true;
    var srcMatches := rule.stypes * p.attrTypes[n.key.triple.src - 1];
    if srcMatches == {} { return; }
    var both := p.attrTypes[n.key.triple.src - 1] * p.attrTypes[n.key.triple.tgt - 1];
    var tgtMatches := if rule.self then rule.stypes * both else rule.ttypes * p.attrTypes[n.key.triple.tgt - 1];
    if tgtMatches == {} { return; }
    ret := CheckPerms(p, attrs, table, rule.perms, x, srcMatches, tgtMatches, n.key.triple.cls);
  }

  /** The permission nodes of the class; the answer stays as it was if there is none. */
  method CheckPerms(p: Types, attrs: seq<set<nat>>, table: Table, perms: seq<ClassPerm>, x: XPerms,
                    srcMatches: set<nat>, tgtMatches: set<nat>, c: nat)
    returns (ret: bool)
    requires table.Valid() && IsTypeAttrs(p, attrs) && forall i | i in srcMatches + tgtMatches :: i < p.Count()
    ensures ret <==> NoneOf(perms, c, |perms|) || PairAmong(attrs, table.Nodes(), x, srcMatches, tgtMatches, c)
  {
    ret := true;
    for k := 0 to |perms|
      invariant ret <==> NoneOf(perms, c, k)
      invariant !ret ==> !PairAmong(attrs, table.Nodes(), x, srcMatches, tgtMatches, c)
    {
      if perms[k].tclass != c { continue; }
      ret := CheckSources(p, attrs, table, x, srcMatches, tgtMatches, c);
      if ret { return; }
    }
  }

  predicate NoneOf(perms: seq<ClassPerm>, c: nat, k: nat)
    requires k <= |perms|
  {
    forall l | 0 <= l < k :: perms[l].tclass != c
  }

  ghost predicate PairAmong(attrs: seq<set<nat>>, nodes: seq<Node>, x: XPerms, src: set<nat>, tgt: set<nat>, c: nat) {
    exists s, t :: s in src && t in tgt && PairVerdict(attrs, nodes, x, s, t, c)
  }

  method CheckSources(p: Types, attrs: seq<set<nat>>, table: Table, x: XPerms, srcMatches: set<nat>,
                      tgtMatches: set<nat>, c: nat)
    returns (ret: bool)
    requires table.Valid() && IsTypeAttrs(p, attrs) && forall i | i in srcMatches + tgtMatches :: i < p.Count()
    ensures ret <==> PairAmong(attrs, table.Nodes(), x, srcMatches, tgtMatches, c)
  {
    ret := false;
    for s := 0 to p.Count()
      invariant forall r, t | r in srcMatches && r < s && t in tgtMatches ::
        !PairVerdict(attrs, table.Nodes(), x, r, t, c)
    {
      if s !in srcMatches { continue; }
      assert forall t | t in tgtMatches :: t in srcMatches + tgtMatches;
      ret := CheckTargets(p, attrs, table, x, s, tgtMatches, c);
      if ret { return; }
    }
    ret := false;
  }

  /** An entry found by the plain check has sources, targets and a class permission node. */
  lemma FlaggedHasPairs(p: Types, rule: Neverallow, n: Node)
    requires EntryFlagged(p, rule, n)
    ensures SrcMatches(p, rule, n) != {} && TgtMatches(p, rule, n) != {}
    ensures exists k :: SharesPerm(rule.perms, k, n.key.triple.cls, n.datum.data)
  {
    ViolationNeeds(p, rule, n);
    var s: nat, t: nat, c: nat, perm: Perm :| Sought(rule, s, t, c, perm) && GrantsByRule(p, n, s, t, c, perm);
    assert t - 1 in TgtMatches(p, rule, n);
  }

  method CheckXpermsAvtabMatch(p: Types, attrs: seq<set<nat>>, table: Table, rule: Neverallow, x: XPerms, n: Node)
    returns (violated: bool)
    requires table.Valid() && p.Valid() && IsTypeAttrs(p, attrs) && RuleInRange(p, n)
    ensures violated <==> XpermsEntryFlagged(p, attrs, table.Nodes(), rule, x, n)
  {
    violated := CheckAssertionAvtabMatch(p, rule, n);
    if violated {
      violated := CheckAssertionExtendedPermissions(p, attrs, table, rule, x, n);
    }
  }

  method CheckXpermsTable(p: Types, attrs: seq<set<nat>>, table: Table, rule: Neverallow, x: XPerms)
    returns (violated: bool)
    requires table.Valid() && p.Valid() && IsTypeAttrs(p, attrs) && RulesInRange(p, table.Nodes())
    ensures violated <==> XpermsFlagged(p, attrs, table.Nodes(), rule, x)
  {
    var nodes := table.Nodes();
    for k := 0 to |nodes|
      invariant forall j | 0 <= j < k :: !XpermsEntryFlagged(p, attrs, nodes, rule, x, nodes[j])
    {
      violated := CheckXpermsAvtabMatch(p, attrs, table, rule, x, nodes[k]);
      if violated { return; }
    }
    violated := false;
  }

  /** The check of an ioctl rule: the entries of each table are looked up in that table. */
  method CheckXpermsAssertion(p: Types, attrs: seq<set<nat>>, te: Table, teCond: Table, rule: Neverallow, x: XPerms)
    returns (violated: bool)
    requires te.Valid() && teCond.Valid() && p.Valid() && IsTypeAttrs(p, attrs)
    requires RulesInRange(p, te.Nodes()) && RulesInRange(p, teCond.Nodes())
    ensures violated <==>
            XpermsFlagged(p, attrs, te.Nodes(), rule, x) || XpermsFlagged(p, attrs, teCond.Nodes(), rule, x)
  {
    violated := CheckXpermsTable(p, attrs, te, rule, x);
    if !violated {
      violated := CheckXpermsTable(p, attrs, teCond, rule, x);
    }
  }

  // ---------- where the check is right ----------

  /** Some forbidden source, target and ioctl permission is granted, with an ioctl number of
      the rule. */
  ghost predicate XpermsViolated(p: Types, nodes: seq<Node>, rule: Neverallow, x: XPerms) {
    exists s: nat, t: nat, c: nat, perm: Perm ::
      Forbids(rule, s, t, c, perm) && Grants(p, nodes, s, t, c, perm) && PairViolated(p, nodes, x, s - 1, t - 1, c)
  }

  ghost predicate RightAboutXperms(p: Types, attrs: seq<set<nat>>, nodes: seq<Node>, rule: Neverallow, x: XPerms) {
    XpermsFlagged(p, attrs, nodes, rule, x) <==> XpermsViolated(p, nodes, rule, x)
  }

  /** No answer about a granted source, target and class is overwritten. */
  ghost predicate NoneOverwritten(p: Types, attrs: seq<set<nat>>, nodes: seq<Node>, x: XPerms) {
    forall s: nat, t: nat, c: nat, perm: Perm | Grants(p, nodes, s, t, c, perm) ::
      !Overwritten(attrs, nodes, x, s - 1, t - 1, c)
  }

  lemma GrantedTypes(p: Types, nodes: seq<Node>, s: nat, t: nat, c: nat, perm: Perm)
    requires p.Valid() && Grants(p, nodes, s, t, c, perm)
    ensures 1 <= s <= p.Count() && 1 <= t <= p.Count() && IsType(p, s - 1) && IsType(p, t - 1)
  {
    var k :| 0 <= k < |nodes| && GrantsByRule(p, nodes[k], s, t, c, perm);
    BehindInRange(p, nodes[k].key.triple.src, s - 1);
    BehindInRange(p, nodes[k].key.triple.tgt, t - 1);
  }

  /** What is flagged is a violation, for a rule without self. */
  lemma FlaggedXpermsViolated(p: Types, attrs: seq<set<nat>>, nodes: seq<Node>, rule: Neverallow, x: XPerms)
    requires GoodNodes(p, attrs, nodes) && GoodRule(x) && !rule.self
    ensures XpermsFlagged(p, attrs, nodes, rule, x) ==> XpermsViolated(p, nodes, rule, x)
  {
    if XpermsFlagged(p, attrs, nodes, rule, x) {
      var k :| 0 <= k < |nodes| && XpermsEntryFlagged(p, attrs, nodes, rule, x, nodes[k]);
      var n := nodes[k];
      var c := n.key.triple.cls;
      var s, t :| s in SrcMatches(p, rule, n) && t in TgtMatches(p, rule, n) && PairVerdict(attrs, nodes, x, s, t, c);
      MatchesInRange(p, rule, n);
      FlaggedHasPairs(p, rule, n);
      var l :| SharesPerm(rule.perms, l, c, n.datum.data);
      var perm :| perm in rule.perms[l].data * n.datum.data;
      PlainAllow(n);
      assert Forbids(rule, s + 1, t + 1, c, perm) && GrantsByRule(p, n, s + 1, t + 1, c, perm);
      var both := SrcMatches(p, rule, n) + TgtMatches(p, rule, n);
      assert s in both && t in both;
      PairIsExact(p, attrs, nodes, x, s, t, c);
      assert Grants(p, nodes, s + 1, t + 1, c, perm);
    }
  }

  lemma XpermsViolatedFlagged(p: Types, attrs: seq<set<nat>>, nodes: seq<Node>, rule: Neverallow, x: XPerms)
    requires GoodNodes(p, attrs, nodes) && GoodRule(x) && !rule.self && NoMarks(nodes)
    requires NoneOverwritten(p, attrs, nodes, x) && XpermsViolated(p, nodes, rule, x)
    ensures XpermsFlagged(p, attrs, nodes, rule, x)
  {
    var s: nat, t: nat, c: nat, perm: Perm :|
      Forbids(rule, s, t, c, perm) && Grants(p, nodes, s, t, c, perm) && PairViolated(p, nodes, x, s - 1, t - 1, c);
    ViolatedIsLookedUp(p, attrs, nodes, x, s, t, c, perm);
    var k := UnmarkedGrant(p, nodes, s, t, c, perm);
    ForbiddenIsFound(p, attrs, nodes, rule, x, nodes[k], s, t, c, perm);
  }

  lemma ViolatedIsLookedUp(p: Types, attrs: seq<set<nat>>, nodes: seq<Node>, x: XPerms, s: nat, t: nat, c: nat,
                           perm: Perm)
    requires GoodNodes(p, attrs, nodes) && GoodRule(x) && NoneOverwritten(p, attrs, nodes, x)
    requires Grants(p, nodes, s, t, c, perm) && 1 <= s && 1 <= t && PairViolated(p, nodes, x, s - 1, t - 1, c)
    ensures PairVerdict(attrs, nodes, x, s - 1, t - 1, c)
  {
    GrantedTypes(p, nodes, s, t, c, perm);
    PairIsExact(p, attrs, nodes, x, s - 1, t - 1, c);
  }

  lemma UnmarkedGrant(p: Types, nodes: seq<Node>, s: nat, t: nat, c: nat, perm: Perm) returns (k: nat)
    requires NoMarks(nodes) && Grants(p, nodes, s, t, c, perm)
    ensures k < |nodes| && nodes[k].key.specified == {Allowed} && GrantsByRule(p, nodes[k], s, t, c, perm)
  {
    NoMarksAllUnmarked(p, nodes);
    assert GrantedUnmarked(p, nodes, s, t, c, perm);
    k :| 0 <= k < |nodes| && nodes[k].key.specified == {Allowed} && GrantsByRule(p, nodes[k], s, t, c, perm);
  }

  lemma ForbiddenIsFound(p: Types, attrs: seq<set<nat>>, nodes: seq<Node>, rule: Neverallow, x: XPerms, n: Node,
                         s: nat, t: nat, c: nat, perm: Perm)
    requires !rule.self && n.key.specified == {Allowed} && Forbids(rule, s, t, c, perm)
    requires GrantsByRule(p, n, s, t, c, perm) && PairVerdict(attrs, nodes, x, s - 1, t - 1, c)
    ensures XpermsEntryFlagged(p, attrs, nodes, rule, x, n)
  {
    assert Sought(rule, s, t, c, perm);
    assert s - 1 in SrcMatches(p, rule, n) && t - 1 in TgtMatches(p, rule, n);
  }

  /** Exactness: over an unmarked table the check is right about all rules without self
      that forbid these ioctls exactly when none of its answers is overwritten. */
  lemma XpermsCheckIsExact(p: Types, attrs: seq<set<nat>>, nodes: seq<Node>, x: XPerms)
    requires GoodNodes(p, attrs, nodes) && GoodRule(x) && NoMarks(nodes)
    ensures (forall rule: Neverallow | !rule.self :: RightAboutXperms(p, attrs, nodes, rule, x)) <==>
            NoneOverwritten(p, attrs, nodes, x)
  {
    if NoneOverwritten(p, attrs, nodes, x) {
      forall rule: Neverallow | !rule.self ensures RightAboutXperms(p, attrs, nodes, rule, x) {
        FlaggedXpermsViolated(p, attrs, nodes, rule, x);
        if XpermsViolated(p, nodes, rule, x) { XpermsViolatedFlagged(p, attrs, nodes, rule, x); }
      }
    }
    if forall rule: Neverallow | !rule.self :: RightAboutXperms(p, attrs, nodes, rule, x) {
      forall s: nat, t: nat, c: nat, perm: Perm | Grants(p, nodes, s, t, c, perm)
        ensures !Overwritten(attrs, nodes, x, s - 1, t - 1, c)
      {
        GrantedTypes(p, nodes, s, t, c, perm);
        assert RightAboutXperms(p, attrs, nodes, JustThis(s, t, c, perm), x);
        if Overwritten(attrs, nodes, x, s - 1, t - 1, c) {
          OverwrittenEscapes(p, attrs, nodes, x, s, t, c, perm);
        }
      }
    }
  }

  lemma JustThisLooksUp(p: Types, attrs: seq<set<nat>>, nodes: seq<Node>, x: XPerms, s: nat, t: nat, c: nat,
                        perm: Perm)
    requires 1 <= s && 1 <= t && XpermsFlagged(p, attrs, nodes, JustThis(s, t, c, perm), x)
    ensures PairVerdict(attrs, nodes, x, s - 1, t - 1, c)
  {
    var rule := JustThis(s, t, c, perm);
    var k :| 0 <= k < |nodes| && XpermsEntryFlagged(p, attrs, nodes, rule, x, nodes[k]);
    FlaggedHasPairs(p, rule, nodes[k]);
    var i, j :| i in SrcMatches(p, rule, nodes[k]) && j in TgtMatches(p, rule, nodes[k])
      && PairVerdict(attrs, nodes, x, i, j, nodes[k].key.triple.cls);
    assert i == s - 1 && j == t - 1;
  }

  /** A granted source, target and class with an overwritten answer: the rule that forbids
      just this is violated and not flagged. */
  lemma OverwrittenEscapes(p: Types, attrs: seq<set<nat>>, nodes: seq<Node>, x: XPerms, s: nat, t: nat, c: nat,
                           perm: Perm)
    requires GoodNodes(p, attrs, nodes) && GoodRule(x) && Grants(p, nodes, s, t, c, perm)
    requires 1 <= s && 1 <= t && Overwritten(attrs, nodes, x, s - 1, t - 1, c)
    ensures XpermsViolated(p, nodes, JustThis(s, t, c, perm), x)
    ensures !XpermsFlagged(p, attrs, nodes, JustThis(s, t, c, perm), x)
  {
    var rule := JustThis(s, t, c, perm);
    GrantedTypes(p, nodes, s, t, c, perm);
    PairIsExact(p, attrs, nodes, x, s - 1, t - 1, c);
    assert rule.perms[0].tclass == c && perm in rule.perms[0].data;
    assert Forbids(rule, s, t, c, perm);
    if XpermsFlagged(p, attrs, nodes, rule, x) { JustThisLooksUp(p, attrs, nodes, x, s, t, c, perm); }
  }

  /** A table whose ioctl rules are all between individual types. */
  ghost predicate BlocksOverTypes(p: Types, nodes: seq<Node>) {
    forall n | n in nodes && IoctlRule(n) ::
      && 1 <= n.key.triple.src && IsType(p, n.key.triple.src - 1)
      && 1 <= n.key.triple.tgt && IsType(p, n.key.triple.tgt - 1)
  }

  /** There every source and target has a single pair to look up, so that nothing is
      overwritten. */
  lemma ExpandedNoneOverwritten(p: Types, attrs: seq<set<nat>>, nodes: seq<Node>, x: XPerms)
    requires GoodNodes(p, attrs, nodes) && BlocksOverTypes(p, nodes)
    ensures NoneOverwritten(p, attrs, nodes, x)
  {
    forall s: nat, t: nat, c: nat, perm: Perm | Grants(p, nodes, s, t, c, perm)
      ensures !Overwritten(attrs, nodes, x, s - 1, t - 1, c)
    {
      GrantedTypes(p, nodes, s, t, c, perm);
      var look := LookupFor(attrs, nodes, x, s - 1, t - 1, c);
      forall i: nat, j: nat | look.Has(i, j) ensures i == s - 1 && j == t - 1 {
        var n :| n in nodes && IsBlock(n, i, j, c);
        assert p.attrTypes[i] == {i} && p.attrTypes[j] == {j};
      }
    }
  }

  /** So the check is right there about every rule without self. */
  lemma ExpandedXpermsExact(p: Types, attrs: seq<set<nat>>, nodes: seq<Node>, rule: Neverallow, x: XPerms)
    requires GoodNodes(p, attrs, nodes) && GoodRule(x) && NoMarks(nodes) && !rule.self && BlocksOverTypes(p, nodes)
    ensures RightAboutXperms(p, attrs, nodes, rule, x)
  {
    ExpandedNoneOverwritten(p, attrs, nodes, x);
    XpermsCheckIsExact(p, attrs, nodes, x);
  }

  // ---------- rules with self ----------

  /** Type s is granted perm on itself, and with it some ioctl number of the rule. */
  ghost predicate SelfViolated(p: Types, nodes: seq<Node>, x: XPerms, s: nat, c: nat, perm: Perm) {
    1 <= s && Grants(p, nodes, s, s, c, perm) && PairViolated(p, nodes, x, s - 1, s - 1, c)
  }

  /** No answer about a type and itself is overwritten. */
  ghost predicate NoSelfOverwritten(p: Types, attrs: seq<set<nat>>, nodes: seq<Node>, x: XPerms) {
    forall s: nat, c: nat, perm: Perm | Grants(p, nodes, s, s, c, perm) ::
      !Overwritten(attrs, nodes, x, s - 1, s - 1, c)
  }

  /** The entry grants s on t, and t is among its sources too. */
  predicate Crosses(p: Types, n: Node, s: nat, t: nat, c: nat, perm: Perm) {
    n.key.specified == {Allowed} && GrantsByRule(p, n, s, t, c, perm) && t - 1 in p.Behind(n.key.triple.src)
  }

  /** What is found for two sources of an entry is also found for one of them on itself. */
  ghost predicate CrossesAgree(p: Types, attrs: seq<set<nat>>, nodes: seq<Node>, x: XPerms) {
    forall k: nat, s: nat, t: nat, c: nat, perm: Perm
      | k < |nodes| && Crosses(p, nodes[k], s, t, c, perm) && PairVerdict(attrs, nodes, x, s - 1, t - 1, c) ::
      SelfViolated(p, nodes, x, s, c, perm) || SelfViolated(p, nodes, x, t, c, perm)
  }

  /** A source violated on some target is violated on itself. */
  ghost predicate TargetsAgree(p: Types, nodes: seq<Node>, x: XPerms) {
    forall s: nat, t: nat, c: nat, perm: Perm
      | Grants(p, nodes, s, t, c, perm) && PairViolated(p, nodes, x, s - 1, t - 1, c) ::
      SelfViolated(p, nodes, x, s, c, perm)
  }

  lemma SelfFlaggedViolated(p: Types, attrs: seq<set<nat>>, nodes: seq<Node>, rule: Neverallow, x: XPerms)
    requires CrossesAgree(p, attrs, nodes, x) && rule.self && XpermsFlagged(p, attrs, nodes, rule, x)
    ensures XpermsViolated(p, nodes, rule, x)
  {
    var k :| 0 <= k < |nodes| && XpermsEntryFlagged(p, attrs, nodes, rule, x, nodes[k]);
    var n := nodes[k];
    var c := n.key.triple.cls;
    var s, t :| s in SrcMatches(p, rule, n) && t in TgtMatches(p, rule, n) && PairVerdict(attrs, nodes, x, s, t, c);
    FlaggedHasPairs(p, rule, n);
    var l :| SharesPerm(rule.perms, l, c, n.datum.data);
    var perm :| perm in rule.perms[l].data * n.datum.data;
    PlainAllow(n);
    assert Crosses(p, nodes[k], s + 1, t + 1, c, perm);
    assert Names(rule, c, perm);
    var u := if SelfViolated(p, nodes, x, s + 1, c, perm) then s + 1 else t + 1;
    assert SelfViolated(p, nodes, x, u, c, perm) && Forbids(rule, u, u, c, perm);
  }

  /** A violation of a type on itself is found. */
  lemma SelfViolatedFlagged(p: Types, attrs: seq<set<nat>>, nodes: seq<Node>, rule: Neverallow, x: XPerms, s: nat,
                            c: nat, perm: Perm)
    requires GoodNodes(p, attrs, nodes) && GoodRule(x) && NoMarks(nodes) && NoSelfOverwritten(p, attrs, nodes, x)
    requires rule.self && Forbids(rule, s, s, c, perm) && SelfViolated(p, nodes, x, s, c, perm)
    ensures XpermsFlagged(p, attrs, nodes, rule, x)
  {
    GrantedTypes(p, nodes, s, s, c, perm);
    PairIsExact(p, attrs, nodes, x, s - 1, s - 1, c);
    var k := UnmarkedGrant(p, nodes, s, s, c, perm);
    SelfIsFound(p, attrs, nodes, rule, x, nodes[k], s, c, perm);
  }

  lemma SelfIsFound(p: Types, attrs: seq<set<nat>>, nodes: seq<Node>, rule: Neverallow, x: XPerms, n: Node, s: nat,
                    c: nat, perm: Perm)
    requires rule.self && n.key.specified == {Allowed} && Forbids(rule, s, s, c, perm)
    requires GrantsByRule(p, n, s, s, c, perm) && PairVerdict(attrs, nodes, x, s - 1, s - 1, c)
    ensures XpermsEntryFlagged(p, attrs, nodes, rule, x, n)
  {
    assert Sought(rule, s, s, c, perm);
    assert s - 1 in SrcMatches(p, rule, n) && s - 1 in TgtMatches(p, rule, n);
  }

  /** A rule with self on one class and permission. */
  function SelfRule(sources: set<nat>, targets: set<nat>, c: nat, perm: Perm): Neverallow {
    Neverallow(sources, targets, true, [ClassPerm(c, {perm})])
  }

  lemma SelfRuleForbids(sources: set<nat>, targets: set<nat>, s: nat, t: nat, c: nat, perm: Perm)
    requires 1 <= s && 1 <= t && s - 1 in sources
    ensures Names(SelfRule(sources, targets, c, perm), c, perm)
    ensures Forbids(SelfRule(sources, targets, c, perm), s, t, c, perm) <==> s == t || t - 1 in targets
  {
    var rule := SelfRule(sources, targets, c, perm);
    assert rule.perms[0].tclass == c && perm in rule.perms[0].data;
  }

  /** A rule with self on one source, when it is flagged. */
  lemma OneSourceFlagged(p: Types, attrs: seq<set<nat>>, nodes: seq<Node>, x: XPerms, s: nat, targets: set<nat>,
                         c: nat, perm: Perm)
    requires GoodNodes(p, attrs, nodes) && GoodRule(x) && 1 <= s
    requires XpermsFlagged(p, attrs, nodes, SelfRule({s - 1}, targets, c, perm), x)
    ensures PairVerdict(attrs, nodes, x, s - 1, s - 1, c) && SelfViolated(p, nodes, x, s, c, perm)
  {
    OneSourceLooksUp(attrs, nodes, p, x, s, targets, c, perm);
    GrantedTypes(p, nodes, s, s, c, perm);
    PairIsExact(p, attrs, nodes, x, s - 1, s - 1, c);
  }

  lemma OneSourceLooksUp(attrs: seq<set<nat>>, nodes: seq<Node>, p: Types, x: XPerms, s: nat, targets: set<nat>,
                         c: nat, perm: Perm)
    requires 1 <= s && XpermsFlagged(p, attrs, nodes, SelfRule({s - 1}, targets, c, perm), x)
    ensures PairVerdict(attrs, nodes, x, s - 1, s - 1, c) && Grants(p, nodes, s, s, c, perm)
  {
    var rule := SelfRule({s - 1}, targets, c, perm);
    var k :| 0 <= k < |nodes| && XpermsEntryFlagged(p, attrs, nodes, rule, x, nodes[k]);
    OneSourceEntry(attrs, nodes, p, x, nodes[k], s, targets, c, perm);
  }

  lemma OneSourceEntry(attrs: seq<set<nat>>, nodes: seq<Node>, p: Types, x: XPerms, n: Node, s: nat,
                       targets: set<nat>, c: nat, perm: Perm)
    requires 1 <= s && XpermsEntryFlagged(p, attrs, nodes, SelfRule({s - 1}, targets, c, perm), x, n)
    ensures PairVerdict(attrs, nodes, x, s - 1, s - 1, c) && GrantsByRule(p, n, s, s, c, perm)
  {
    var rule := SelfRule({s - 1}, targets, c, perm);
    FlaggedHasPairs(p, rule, n);
    var i, j :| i in SrcMatches(p, rule, n) && j in TgtMatches(p, rule, n)
      && PairVerdict(attrs, nodes, x, i, j, n.key.triple.cls);
    assert i == s - 1 && j == s - 1;
    PlainAllow(n);
  }

  ghost predicate RightAboutSelf(p: Types, attrs: seq<set<nat>>, nodes: seq<Node>, x: XPerms) {
    forall rule: Neverallow | rule.self && SelfCovers(rule) :: RightAboutXperms(p, attrs, nodes, rule, x)
  }

  ghost predicate RightAboutAnySelf(p: Types, attrs: seq<set<nat>>, nodes: seq<Node>, x: XPerms) {
    forall rule: Neverallow | rule.self :: RightAboutXperms(p, attrs, nodes, rule, x)
  }

  /** Exactness for rules with self that covers their targets: no answer about a type and
      itself is overwritten, and no pair of different sources is found on its own. */
  lemma XpermsSelfIsExact(p: Types, attrs: seq<set<nat>>, nodes: seq<Node>, x: XPerms)
    requires GoodNodes(p, attrs, nodes) && GoodRule(x) && NoMarks(nodes)
    ensures RightAboutSelf(p, attrs, nodes, x) <==>
            NoSelfOverwritten(p, attrs, nodes, x) && CrossesAgree(p, attrs, nodes, x)
  {
    if NoSelfOverwritten(p, attrs, nodes, x) && CrossesAgree(p, attrs, nodes, x) {
      forall rule: Neverallow | rule.self && SelfCovers(rule) ensures RightAboutXperms(p, attrs, nodes, rule, x) {
        if XpermsFlagged(p, attrs, nodes, rule, x) { SelfFlaggedViolated(p, attrs, nodes, rule, x); }
        if XpermsViolated(p, nodes, rule, x) { CoveredIsFlagged(p, attrs, nodes, rule, x); }
      }
    }
    if RightAboutSelf(p, attrs, nodes, x) {
      NotOverwrittenIfRight(p, attrs, nodes, x);
      CrossesAgreeIfRight(p, attrs, nodes, x);
    }
  }

  lemma SomeViolation(p: Types, nodes: seq<Node>, rule: Neverallow, x: XPerms)
    returns (s: nat, t: nat, c: nat, perm: Perm)
    requires XpermsViolated(p, nodes, rule, x)
    ensures Forbids(rule, s, t, c, perm) && Grants(p, nodes, s, t, c, perm)
    ensures PairViolated(p, nodes, x, s - 1, t - 1, c)
  {
    s, t, c, perm :|
      Forbids(rule, s, t, c, perm) && Grants(p, nodes, s, t, c, perm) && PairViolated(p, nodes, x, s - 1, t - 1, c);
  }

  lemma CoveredIsFlagged(p: Types, attrs: seq<set<nat>>, nodes: seq<Node>, rule: Neverallow, x: XPerms)
    requires GoodNodes(p, attrs, nodes) && GoodRule(x) && NoMarks(nodes) && NoSelfOverwritten(p, attrs, nodes, x)
    requires rule.self && SelfCovers(rule) && XpermsViolated(p, nodes, rule, x)
    ensures XpermsFlagged(p, attrs, nodes, rule, x)
  {
    var s, t, c, perm := SomeViolation(p, nodes, rule, x);
    CoveredIsSelf(rule, s, t, c, perm);
    assert SelfViolated(p, nodes, x, s, c, perm);
    SelfViolatedFlagged(p, attrs, nodes, rule, x, s, c, perm);
  }

  lemma CoveredIsSelf(rule: Neverallow, s: nat, t: nat, c: nat, perm: Perm)
    requires rule.self && SelfCovers(rule) && Forbids(rule, s, t, c, perm)
    ensures s == t
  {
    SoughtIsForbidden(rule, s, t, c, perm);
  }

  lemma NotOverwrittenIfRight(p: Types, attrs: seq<set<nat>>, nodes: seq<Node>, x: XPerms)
    requires GoodNodes(p, attrs, nodes) && GoodRule(x) && RightAboutSelf(p, attrs, nodes, x)
    ensures NoSelfOverwritten(p, attrs, nodes, x)
  {
    forall s: nat, c: nat, perm: Perm | Grants(p, nodes, s, s, c, perm)
      ensures !Overwritten(attrs, nodes, x, s - 1, s - 1, c)
    {
      GrantedTypes(p, nodes, s, s, c, perm);
      var rule := SelfRule({s - 1}, {}, c, perm);
      assert SelfCovers(rule) && RightAboutXperms(p, attrs, nodes, rule, x);
      SelfRuleForbids({s - 1}, {}, s, s, c, perm);
      PairIsExact(p, attrs, nodes, x, s - 1, s - 1, c);
      if PairViolated(p, nodes, x, s - 1, s - 1, c) {
        assert XpermsViolated(p, nodes, rule, x);
        OneSourceFlagged(p, attrs, nodes, x, s, {}, c, perm);
      }
    }
  }

  lemma CrossesAgreeIfRight(p: Types, attrs: seq<set<nat>>, nodes: seq<Node>, x: XPerms)
    requires GoodNodes(p, attrs, nodes) && RightAboutSelf(p, attrs, nodes, x)
    ensures CrossesAgree(p, attrs, nodes, x)
  {
    forall k: nat, s: nat, t: nat, c: nat, perm: Perm
      | k < |nodes| && Crosses(p, nodes[k], s, t, c, perm) && PairVerdict(attrs, nodes, x, s - 1, t - 1, c)
      ensures SelfViolated(p, nodes, x, s, c, perm) || SelfViolated(p, nodes, x, t, c, perm)
    {
      var rule := SelfRule({s - 1, t - 1}, {}, c, perm);
      assert SelfCovers(rule) && RightAboutXperms(p, attrs, nodes, rule, x);
      CrossIsFlagged(p, attrs, nodes, x, nodes[k], s, t, c, perm);
      TwoSourcesViolated(p, nodes, x, s, t, c, perm);
    }
  }

  lemma TwoSourcesViolated(p: Types, nodes: seq<Node>, x: XPerms, s: nat, t: nat, c: nat, perm: Perm)
    requires 1 <= s && 1 <= t && XpermsViolated(p, nodes, SelfRule({s - 1, t - 1}, {}, c, perm), x)
    ensures SelfViolated(p, nodes, x, s, c, perm) || SelfViolated(p, nodes, x, t, c, perm)
  {
    var rule := SelfRule({s - 1, t - 1}, {}, c, perm);
    var u: nat, v: nat, c': nat, perm': Perm :| Forbids(rule, u, v, c', perm') &&
      Grants(p, nodes, u, v, c', perm') && PairViolated(p, nodes, x, u - 1, v - 1, c');
    assert c' == c && perm' == perm && u == v && (u == s || u == t);
  }

  /** Two sources of an entry that are found: the rule with self on both is flagged. */
  lemma CrossIsFlagged(p: Types, attrs: seq<set<nat>>, nodes: seq<Node>, x: XPerms, n: Node, s: nat, t: nat, c: nat,
                       perm: Perm)
    requires Crosses(p, n, s, t, c, perm) && PairVerdict(attrs, nodes, x, s - 1, t - 1, c)
    ensures XpermsEntryFlagged(p, attrs, nodes, SelfRule({s - 1, t - 1}, {}, c, perm), x, n)
  {
    var rule := SelfRule({s - 1, t - 1}, {}, c, perm);
    SelfRuleForbids({s - 1, t - 1}, {}, t, t, c, perm);
    assert Sought(rule, t, t, c, perm) && GrantsByRule(p, n, t, t, c, perm);
    assert s - 1 in SrcMatches(p, rule, n) && t - 1 in TgtMatches(p, rule, n);
  }

  /** Exactness for all rules with self: what they list besides must also be violated on the
      source itself. */
  lemma XpermsAnySelfIsExact(p: Types, attrs: seq<set<nat>>, nodes: seq<Node>, x: XPerms)
    requires GoodNodes(p, attrs, nodes) && GoodRule(x) && NoMarks(nodes)
    ensures RightAboutAnySelf(p, attrs, nodes, x) <==>
            && NoSelfOverwritten(p, attrs, nodes, x) && CrossesAgree(p, attrs, nodes, x)
            && TargetsAgree(p, nodes, x)
  {
    if NoSelfOverwritten(p, attrs, nodes, x) && CrossesAgree(p, attrs, nodes, x) && TargetsAgree(p, nodes, x) {
      forall rule: Neverallow | rule.self ensures RightAboutXperms(p, attrs, nodes, rule, x) {
        if XpermsFlagged(p, attrs, nodes, rule, x) { SelfFlaggedViolated(p, attrs, nodes, rule, x); }
        if XpermsViolated(p, nodes, rule, x) { ListedIsFlagged(p, attrs, nodes, rule, x); }
      }
    }
    if RightAboutAnySelf(p, attrs, nodes, x) {
      assert RightAboutSelf(p, attrs, nodes, x);
      XpermsSelfIsExact(p, attrs, nodes, x);
      TargetsAgreeIfRight(p, attrs, nodes, x);
    }
  }

  lemma ListedIsFlagged(p: Types, attrs: seq<set<nat>>, nodes: seq<Node>, rule: Neverallow, x: XPerms)
    requires GoodNodes(p, attrs, nodes) && GoodRule(x) && NoMarks(nodes) && NoSelfOverwritten(p, attrs, nodes, x)
    requires rule.self && TargetsAgree(p, nodes, x) && XpermsViolated(p, nodes, rule, x)
    ensures XpermsFlagged(p, attrs, nodes, rule, x)
  {
    var s, t, c, perm := SomeViolation(p, nodes, rule, x);
    assert SelfViolated(p, nodes, x, s, c, perm) && Forbids(rule, s, s, c, perm);
    SelfViolatedFlagged(p, attrs, nodes, rule, x, s, c, perm);
  }

  lemma TargetsAgreeIfRight(p: Types, attrs: seq<set<nat>>, nodes: seq<Node>, x: XPerms)
    requires GoodNodes(p, attrs, nodes) && GoodRule(x) && RightAboutAnySelf(p, attrs, nodes, x)
    ensures TargetsAgree(p, nodes, x)
  {
    forall s: nat, t: nat, c: nat, perm: Perm
      | Grants(p, nodes, s, t, c, perm) && PairViolated(p, nodes, x, s - 1, t - 1, c)
      ensures SelfViolated(p, nodes, x, s, c, perm)
    {
      GrantedTypes(p, nodes, s, t, c, perm);
      var rule := SelfRule({s - 1}, {t - 1}, c, perm);
      SelfRuleForbids({s - 1}, {t - 1}, s, t, c, perm);
      assert XpermsViolated(p, nodes, rule, x) && RightAboutXperms(p, attrs, nodes, rule, x);
      OneSourceFlagged(p, attrs, nodes, x, s, {t - 1}, c, perm);
    }
  }

  /** With ioctl rules between individual types only, what can go wrong for rules with self
      are pairs of different sources and targets listed besides. */
  lemma ExpandedSelfExact(p: Types, attrs: seq<set<nat>>, nodes: seq<Node>, x: XPerms)
    requires GoodNodes(p, attrs, nodes) && GoodRule(x) && NoMarks(nodes) && BlocksOverTypes(p, nodes)
    ensures RightAboutSelf(p, attrs, nodes, x) <==> CrossesAgree(p, attrs, nodes, x)
    ensures RightAboutAnySelf(p, attrs, nodes, x) <==>
            CrossesAgree(p, attrs, nodes, x) && TargetsAgree(p, nodes, x)
  {
    ExpandedNoneOverwritten(p, attrs, nodes, x);
    assert NoSelfOverwritten(p, attrs, nodes, x);
    XpermsSelfIsExact(p, attrs, nodes, x);
    XpermsAnySelfIsExact(p, attrs, nodes, x);
  }

  // ---------- the table of conditional rules ----------

  /** In a table without ioctl rules, as the conditional one is, every entry found by the
      plain check stays flagged, whatever the other table permits. */
  lemma SilentTableFlags(p: Types, attrs: seq<set<nat>>, nodes: seq<Node>, rule: Neverallow, x: XPerms)
    requires p.Valid() && IsTypeAttrs(p, attrs) && forall n | n in nodes :: !IoctlRule(n)
    ensures XpermsFlagged(p, attrs, nodes, rule, x) <==> Flagged(p, rule, nodes)
  {
    forall k | 0 <= k < |nodes| && EntryFlagged(p, rule, nodes[k])
      ensures XpermsEntryFlagged(p, attrs, nodes, rule, x, nodes[k])
    {
      var n := nodes[k];
      FlaggedHasPairs(p, rule, n);
      MatchesInRange(p, rule, n);
      var s :| s in SrcMatches(p, rule, n);
      var t :| t in TgtMatches(p, rule, n);
      var both := SrcMatches(p, rule, n) + TgtMatches(p, rule, n);
      assert s in both && t in both;
      assert LookupFor(attrs, nodes, x, s, t, n.key.triple.cls).Silent();
      assert PairVerdict(attrs, nodes, x, s, t, n.key.triple.cls);
    }
  }

  /** Type 1 may use ioctl 5:7 on type 3 by a rule of its own; the rule of its attribute 2,
      which is looked up later, holds another number, and the violation passes. */
  lemma OverwrittenExample()
    ensures var p, attrs, nodes, x := ExampleTypes(), ExampleAttrs(), ExampleNodes(), XPerms(IOCTLFUNCTION, 5, {7});
            && GoodNodes(p, attrs, nodes) && GoodRule(x) && NoMarks(nodes)
            && XpermsViolated(p, nodes, JustThis(1, 3, 1, 0), x)
            && !XpermsFlagged(p, attrs, nodes, JustThis(1, 3, 1, 0), x)
  {
    ExampleOverwritten();
    ExampleGranted();
    var p, attrs, nodes, x := ExampleTypes(), ExampleAttrs(), ExampleNodes(), XPerms(IOCTLFUNCTION, 5, {7});
    Escapes(p, attrs, nodes, x);
  }

  lemma Escapes(p: Types, attrs: seq<set<nat>>, nodes: seq<Node>, x: XPerms)
    requires GoodNodes(p, attrs, nodes) && GoodRule(x) && Grants(p, nodes, 1, 3, 1, 0)
    requires Overwritten(attrs, nodes, x, 0, 2, 1)
    ensures XpermsViolated(p, nodes, JustThis(1, 3, 1, 0), x)
    ensures !XpermsFlagged(p, attrs, nodes, JustThis(1, 3, 1, 0), x)
  {
    OverwrittenEscapes(p, attrs, nodes, x, 1, 3, 1, 0);
  }

  function ExampleTypes(): Types {
    Types([true, false, true], [{0}, {0}, {2}])
  }

  function ExampleAttrs(): seq<set<nat>> {
    [{0, 1}, {1}, {2}]
  }

  function ExampleNodes(): seq<Node> {
    [Node(Key(Triple(1, 3, 1), {Allowed}), Datum({0}, XPerms(0, 0, {}))), ExampleBlock(1, 7), ExampleBlock(2, 8)]
  }

  function ExampleBlock(src: nat, func: nat): Node {
    Node(Key(Triple(src, 3, 1), {XpermsAllowed}), Datum({}, XPerms(IOCTLFUNCTION, 5, {func})))
  }

  lemma ExampleOverwritten()
    ensures GoodNodes(ExampleTypes(), ExampleAttrs(), ExampleNodes())
    ensures Overwritten(ExampleAttrs(), ExampleNodes(), XPerms(IOCTLFUNCTION, 5, {7}), 0, 2, 1)
  {
    var attrs, nodes, x := ExampleAttrs(), ExampleNodes(), XPerms(IOCTLFUNCTION, 5, {7});
    assert nodes[1] in nodes && nodes[2] in nodes;
    var look := LookupFor(attrs, nodes, x, 0, 2, 1);
    assert Catches(nodes[1], x, 0, 2, 1) by { assert 7 in x.perms * nodes[1].datum.xperms.perms; }
    assert look.Caught(0, 2);
    assert IsBlock(nodes[2], 1, 2, 1);
    assert look.IsLast(1, 2) && !look.Caught(1, 2);
  }

  lemma ExampleGranted()
    ensures NoMarks(ExampleNodes()) && Grants(ExampleTypes(), ExampleNodes(), 1, 3, 1, 0)
  {
    var p, nodes := ExampleTypes(), ExampleNodes();
    PlainAllow(nodes[0]);
    assert GrantsByRule(p, nodes[0], 1, 3, 1, 0);
  }

  // ---------- the report for one source and target ----------

  /** A printed failure: the attributes and the position of the block in its bucket. */
  datatype Hit = Hit(src: nat, tgt: nat, at: nat)

  predicate HitPrecedes(h: Hit, i: nat, j: nat, at: nat) {
    Precedes(h.src, h.tgt, i, j) || (h.src == i && h.tgt == j && h.at < at)
  }

  /** The block is caught. */
  predicate IsHit(table: Table, look: Lookup, h: Hit)
    requires table.htable != [] ==> table.hash(Triple(h.src + 1, h.tgt + 1, look.c)) < |table.htable|
    reads table
  {
    var chain := table.Bucket(Triple(h.src + 1, h.tgt + 1, look.c));
    && h.src in look.sattr && h.tgt in look.tattr
    && h.at < |chain| && Catches(chain[h.at], look.x, h.src, h.tgt, look.c)
  }

  ghost predicate OnceEach(log: seq<Hit>) {
    forall i, j | 0 <= i < j < |log| :: log[i] != log[j]
  }

  /** The hits printed when the loops stand at (i, j, at). */
  ghost predicate HitsTo(table: Table, look: Lookup, log: seq<Hit>, i: nat, j: nat, at: nat)
    requires table.Valid()
    reads table
  {
    OnceEach(log) && forall h :: h in log <==> IsHit(table, look, h) && HitPrecedes(h, i, j, at)
  }

  lemma HitStep(table: Table, look: Lookup, log: seq<Hit>, i: nat, j: nat, at: nat)
    requires table.Valid() && HitsTo(table, look, log, i, j, at)
    ensures IsHit(table, look, Hit(i, j, at)) ==> HitsTo(table, look, log + [Hit(i, j, at)], i, j, at + 1)
    ensures !IsHit(table, look, Hit(i, j, at)) ==> HitsTo(table, look, log, i, j, at + 1)
  {
    var now := Hit(i, j, at);
    forall h: Hit ensures HitPrecedes(h, i, j, at + 1) <==> HitPrecedes(h, i, j, at) || h == now {}
    assert now !in log;
  }

  /** Moving on where there is no hit in between. */
  lemma HitsMove(table: Table, look: Lookup, log: seq<Hit>, i: nat, j: nat, at: nat, k: nat, l: nat, to: nat)
    requires table.Valid() && HitsTo(table, look, log, i, j, at)
    requires forall h | IsHit(table, look, h) :: HitPrecedes(h, i, j, at) <==> HitPrecedes(h, k, l, to)
    ensures HitsTo(table, look, log, k, l, to)
  {
  }

  /** No pair before (i, j) has a block. */
  ghost predicate QuietTo(look: Lookup, i: nat, j: nat) {
    forall k: nat, l: nat | look.Has(k, l) :: !Precedes(k, l, i, j)
  }

  /** The blocks of one pair of attributes. */
  method ReportPair(table: Table, ghost look: Lookup, x: XPerms, i: nat, j: nat, c: nat, rc0: bool, log0: seq<Hit>)
    returns (rc: bool, log: seq<Hit>)
    requires table.Valid() && look.nodes == table.Nodes() && look.x == x && look.c == c
    requires i in look.sattr && j in look.tattr && HitsTo(table, look, log0, i, j, 0)
    ensures HitsTo(table, look, log, i, j + 1, 0)
    ensures rc <==> rc0 && !look.Has(i, j)
  {
    rc, log := ReportBlocks(table, look, x, i, j, c, rc0, log0);
    PairReported(table, look, log, i, j, rc0, rc);
  }

  method ReportBlocks(table: Table, ghost look: Lookup, x: XPerms, i: nat, j: nat, c: nat, rc0: bool, log0: seq<Hit>)
    returns (rc: bool, log: seq<Hit>)
    requires table.Valid() && look.x == x && look.c == c
    requires i in look.sattr && j in look.tattr && HitsTo(table, look, log0, i, j, 0)
    ensures PairState(table, look, i, j, |table.Bucket(Triple(i + 1, j + 1, c))|, rc0, rc, log)
  {
    rc, log := rc0, log0;
    var key := BlockKey(i, j, c);
    ghost var chain := table.Bucket(key.triple);
    var at := 0;
    var node := table.SearchNode(key);
    while node.Some?
      invariant at <= |chain| && IsFirst(chain, key, at, node) && PairState(table, look, i, j, at, rc0, rc, log)
      decreases |chain| - at
    {
      rc, log := ReportBlock(table, look, x, i, j, c, at, node.value, rc0, rc, log);
      at := node.value + 1;
      node := table.SearchNodeNext(key, at - 1);
    }
    PassOver(table, look, log, i, j, at, |chain|, rc0, rc);
  }

  ghost predicate PairState(table: Table, look: Lookup, i: nat, j: nat, at: nat, rc0: bool, rc: bool, log: seq<Hit>)
    requires table.Valid()
    reads table
  {
    var chain := table.Bucket(Triple(i + 1, j + 1, look.c));
    at <= |chain| && HitsTo(table, look, log, i, j, at) && NoBlocks(chain, i, j, look.c, at, rc0, rc)
  }

  method ReportBlock(table: Table, ghost look: Lookup, x: XPerms, i: nat, j: nat, c: nat, ghost from: nat, at: nat,
                     ghost rc0: bool, rc: bool, log: seq<Hit>)
    returns (rc': bool, log': seq<Hit>)
    requires table.Valid() && look.x == x && look.c == c && i in look.sattr && j in look.tattr
    requires PairState(table, look, i, j, from, rc0, rc, log)
    requires IsFirst(table.Bucket(Triple(i + 1, j + 1, c)), BlockKey(i, j, c), from, Some(at))
    ensures at < |table.Bucket(Triple(i + 1, j + 1, c))| && PairState(table, look, i, j, at + 1, rc0, rc', log')
  {
    PassOver(table, look, log, i, j, from, at, rc0, rc);
    var n := table.Bucket(Triple(i + 1, j + 1, c))[at];
    BlockMatches(n, i, j, c);
    HitStep(table, look, log, i, j, at);
    rc', log' := rc, log;
    if IoctlRule(n) {
      if CheckExtendedPermissions(x, n.datum.xperms) { log' := log + [Hit(i, j, at)]; }
      rc' := false;
    }
  }

  ghost predicate NoBlocks(chain: Chain, i: nat, j: nat, c: nat, at: nat, rc0: bool, rc: bool)
    requires at <= |chain|
  {
    rc <==> rc0 && forall k | 0 <= k < at :: !IsBlock(chain[k], i, j, c)
  }

  lemma PassOver(table: Table, look: Lookup, log: seq<Hit>, i: nat, j: nat, at: nat, to: nat, rc0: bool, rc: bool)
    requires table.Valid()
    requires var chain := table.Bucket(Triple(i + 1, j + 1, look.c));
             at <= to <= |chain| && forall k | at <= k < to :: !Matches(BlockKey(i, j, look.c), chain[k])
    requires PairState(table, look, i, j, at, rc0, rc, log)
    ensures PairState(table, look, i, j, to, rc0, rc, log)
  {
    var chain := table.Bucket(Triple(i + 1, j + 1, look.c));
    forall k | at <= k < to ensures !IsBlock(chain[k], i, j, look.c) { BlockMatches(chain[k], i, j, look.c); }
    HitsMove(table, look, log, i, j, at, i, j, to);
  }

  lemma PairReported(table: Table, look: Lookup, log: seq<Hit>, i: nat, j: nat, rc0: bool, rc: bool)
    requires table.Valid() && look.nodes == table.Nodes() && i in look.sattr && j in look.tattr
    requires PairState(table, look, i, j, |table.Bucket(Triple(i + 1, j + 1, look.c))|, rc0, rc, log)
    ensures HitsTo(table, look, log, i, j + 1, 0)
    ensures rc <==> rc0 && !look.Has(i, j)
  {
    var chain := table.Bucket(Triple(i + 1, j + 1, look.c));
    HitsMove(table, look, log, i, j, |chain|, i, j + 1, 0);
    PairAnswer(table, look, i, j);
    assert forall k | 0 <= k < |chain| :: chain[k] in chain;
  }

  /** The hits, and one more failure if there is no block at all. */
  ghost predicate IsPairReport(table: Table, look: Lookup, ret: nat, log: seq<Hit>)
    requires table.Valid()
    reads table
  {
    (forall h :: h in log <==> IsHit(table, look, h)) && ret == |log| + if look.Silent() then 1 else 0
  }

  /** The report for one source and target: a failure for every block that is caught, and
      one for the plain permission if there is no block at all. */
  method ReportExtendedPermissions(table: Table, x: XPerms, c: nat, sattr: set<nat>, tattr: set<nat>, count: nat)
    returns (ret: nat, log: seq<Hit>)
    requires table.Valid() && forall i | i in sattr + tattr :: i < count
    ensures var look := Lookup(table.Nodes(), x, c, sattr, tattr);
            OnceEach(log) && IsPairReport(table, look, ret, log)
  {
    ghost var look := Lookup(table.Nodes(), x, c, sattr, tattr);
    var rc := true;
    log := [];
    for i := 0 to count
      invariant HitsTo(table, look, log, i, 0, 0) && (rc <==> QuietTo(look, i, 0))
    {
      RowEnds(table, look, i, count);
      if i !in sattr {
        HitsMove(table, look, log, i, 0, 0, i + 1, 0, 0);
        continue;
      }
      rc, log := ReportRow(table, look, x, i, c, tattr, count, rc, log);
      HitsMove(table, look, log, i, count, 0, i + 1, 0, 0);
    }
    HitsBelow(table, look, count);
    ret := if rc then |log| + 1 else |log|;
  }

  method ReportRow(table: Table, ghost look: Lookup, x: XPerms, i: nat, c: nat, tattr: set<nat>, count: nat, rc0: bool,
                   log0: seq<Hit>)
    returns (rc: bool, log: seq<Hit>)
    requires table.Valid() && look.nodes == table.Nodes() && look.x == x && look.c == c && look.tattr == tattr
    requires i in look.sattr && HitsTo(table, look, log0, i, 0, 0) && (rc0 <==> QuietTo(look, i, 0))
    ensures HitsTo(table, look, log, i, count, 0) && (rc <==> QuietTo(look, i, count))
  {
    rc, log := rc0, log0;
    for j := 0 to count
      invariant HitsTo(table, look, log, i, j, 0) && (rc <==> QuietTo(look, i, j))
    {
      QuietStep(look, i, j);
      if j !in tattr {
        HitsMove(table, look, log, i, j, 0, i, j + 1, 0);
        continue;
      }
      rc, log := ReportPair(table, look, x, i, j, c, rc, log);
    }
  }

  lemma QuietStep(look: Lookup, i: nat, j: nat)
    ensures QuietTo(look, i, j + 1) <==> QuietTo(look, i, j) && !look.Has(i, j)
  {
    assert Precedes(i, j, i, j + 1);
    if QuietTo(look, i, j + 1) {
      forall k: nat, l: nat | look.Has(k, l) ensures !Precedes(k, l, i, j) {}
    }
    if QuietTo(look, i, j) && !look.Has(i, j) {
      forall k: nat, l: nat | look.Has(k, l) ensures !Precedes(k, l, i, j + 1) {
        assert !Precedes(k, l, i, j);
      }
    }
  }

  lemma RowEnds(table: Table, look: Lookup, i: nat, count: nat)
    requires table.Valid() && look.Below(count)
    ensures QuietTo(look, i, count) <==> QuietTo(look, i + 1, 0)
    ensures i !in look.sattr ==> (QuietTo(look, i, 0) <==> QuietTo(look, i + 1, 0))
    ensures forall h | IsHit(table, look, h) :: HitPrecedes(h, i, count, 0) <==> HitPrecedes(h, i + 1, 0, 0)
  {
    forall k: nat, l: nat | look.Has(k, l)
      ensures Precedes(k, l, i, count) <==> Precedes(k, l, i + 1, 0)
      ensures i !in look.sattr ==> (Precedes(k, l, i, 0) <==> Precedes(k, l, i + 1, 0))
    {
      look.HasBelow(k, l, count);
    }
    forall h | IsHit(table, look, h) ensures HitPrecedes(h, i, count, 0) <==> HitPrecedes(h, i + 1, 0, 0) {
      assert h.tgt in look.sattr + look.tattr;
    }
  }

  lemma HitsBelow(table: Table, look: Lookup, count: nat)
    requires table.Valid() && look.Below(count)
    ensures forall h | IsHit(table, look, h) :: HitPrecedes(h, count, 0, 0)
    ensures QuietTo(look, count, 0) <==> look.Silent()
  {
    forall h | IsHit(table, look, h) ensures HitPrecedes(h, count, 0, 0) {
      assert h.src in look.sattr + look.tattr;
    }
    forall k: nat, l: nat | look.Has(k, l) ensures Precedes(k, l, count, 0) { look.HasBelow(k, l, count); }
  }

  /** The report is right about every source and target, also where the check is not. */
  lemma ReportPairIsRight(p: Types, attrs: seq<set<nat>>, table: Table, x: XPerms, s: nat, t: nat, c: nat,
                          ret: nat, log: seq<Hit>)
    requires table.Valid() && GoodNodes(p, attrs, table.Nodes()) && GoodRule(x) && IsType(p, s) && IsType(p, t)
    requires IsPairReport(table, LookupFor(attrs, table.Nodes(), x, s, t, c), ret, log)
    ensures ret > 0 <==> PairViolated(p, table.Nodes(), x, s, t, c)
  {
    var look := LookupFor(attrs, table.Nodes(), x, s, t, c);
    LookupMeaning(p, attrs, table.Nodes(), x, s, t, c);
    if look.SomeCaught() {
      var h := CaughtIsHit(table, look);
      assert h in log;
    }
    if log != [] {
      assert log[0] in log;
      HitIsCaught(table, look, log[0]);
    }
  }

  lemma CaughtIsHit(table: Table, look: Lookup) returns (h: Hit)
    requires table.Valid() && look.nodes == table.Nodes() && look.SomeCaught()
    ensures IsHit(table, look, h)
  {
    var i: nat, j: nat :| look.Caught(i, j);
    var n :| n in look.nodes && Catches(n, look.x, i, j, look.c);
    h := NodeIsHit(table, look, i, j, n);
  }

  lemma NodeIsHit(table: Table, look: Lookup, i: nat, j: nat, n: Node) returns (h: Hit)
    requires table.Valid() && n in table.Nodes() && Catches(n, look.x, i, j, look.c)
    requires i in look.sattr && j in look.tattr
    ensures IsHit(table, look, h)
  {
    BlocksInBucket(table, i, j, look.c, n);
    var chain := table.Bucket(Triple(i + 1, j + 1, look.c));
    var at :| 0 <= at < |chain| && chain[at] == n;
    h := Hit(i, j, at);
  }

  lemma HitIsCaught(table: Table, look: Lookup, h: Hit)
    requires table.Valid() && look.nodes == table.Nodes() && IsHit(table, look, h)
    ensures look.SomeCaught()
  {
    PairAnswer(table, look, h.src, h.tgt);
    var chain := table.Bucket(Triple(h.src + 1, h.tgt + 1, look.c));
    assert chain[h.at] in chain;
    assert look.Caught(h.src, h.tgt);
  }

  // ---------- the report for one entry ----------

  /** What is reported for a matching source and target of an entry. */
  datatype PairReport = PairReport(failure: Failure, ret: nat, hits: seq<Hit>)

  function Sum(log: seq<PairReport>): nat {
    if log == [] then 0 else Sum(log[..|log| - 1]) + log[|log| - 1].ret
  }

  function Failures(log: seq<PairReport>): seq<Failure> {
    seq(|log|, i requires 0 <= i < |log| => log[i].failure)
  }

  ghost predicate IsReportOf(attrs: seq<set<nat>>, table: Table, x: XPerms, c: nat, r: PairReport)
    requires table.Valid()
    reads table
  {
    && r.failure.src < |attrs| && r.failure.tgt < |attrs| && OnceEach(r.hits)
    && IsPairReport(table, LookupFor(attrs, table.Nodes(), x, r.failure.src, r.failure.tgt, c), r.ret, r.hits)
  }

  ghost predicate AreReports(attrs: seq<set<nat>>, table: Table, x: XPerms, c: nat, log: seq<PairReport>)
    requires table.Valid()
    reads table
  {
    forall i | 0 <= i < |log| :: IsReportOf(attrs, table, x, c, log[i])
  }

  /** The report for one entry goes through the same pairs as for a plain rule, with a lookup
      for each; the errors add up. */
  method ReportXpermsAvtabMatches(p: Types, attrs: seq<set<nat>>, table: Table, rule: Neverallow, x: XPerms, n: Node,
                                  k: nat)
    returns (errors: nat, log: seq<PairReport>)
    requires table.Valid() && p.Valid() && IsTypeAttrs(p, attrs) && RuleInRange(p, n)
    ensures Once(Failures(log)) && forall f :: f in Failures(log) <==> EntryReported(p, rule, k, n, f)
    ensures AreReports(attrs, table, x, n.key.triple.cls, log) && errors == Sum(log)
  {
    var failures := ReportAssertionAvtabMatches(p, rule, n, k);
    errors, log := 0, [];
    for i := 0 to |failures|
      invariant ReportedTo(attrs, table, x, n.key.triple.cls, failures, i, errors, log)
    {
      var r := ReportFailure(p, attrs, table, rule, x, n, k, failures[i]);
      OneMoreReport(attrs, table, x, n.key.triple.cls, failures, i, errors, log, r);
      errors, log := errors + r.ret, log + [r];
    }
    assert failures[..|failures|] == failures;
  }

  /** The first i pairs have been reported, with so many errors. */
  ghost predicate ReportedTo(attrs: seq<set<nat>>, table: Table, x: XPerms, c: nat, failures: seq<Failure>, i: nat,
                             errors: nat, log: seq<PairReport>)
    requires table.Valid()
    reads table
  {
    i <= |failures| && AreReports(attrs, table, x, c, log) && errors == Sum(log) && Failures(log) == failures[..i]
  }

  lemma OneMoreReport(attrs: seq<set<nat>>, table: Table, x: XPerms, c: nat, failures: seq<Failure>, i: nat,
                      errors: nat, log: seq<PairReport>, r: PairReport)
    requires table.Valid() && i < |failures| && ReportedTo(attrs, table, x, c, failures, i, errors, log)
    requires IsReportOf(attrs, table, x, c, r) && r.failure == failures[i]
    ensures ReportedTo(attrs, table, x, c, failures, i + 1, errors + r.ret, log + [r])
  {
    assert (log + [r])[..|log|] == log;
    assert Failures(log + [r]) == Failures(log) + [r.failure];
  }

  method ReportFailure(p: Types, attrs: seq<set<nat>>, table: Table, rule: Neverallow, x: XPerms, n: Node, k: nat,
                       f: Failure)
    returns (r: PairReport)
    requires table.Valid() && p.Valid() && IsTypeAttrs(p, attrs) && EntryReported(p, rule, k, n, f)
    ensures r.failure == f && IsReportOf(attrs, table, x, n.key.triple.cls, r)
  {
    ReportedInRange(p, rule, k, n, f);
    AttrsBelow(p, attrs, f.src, f.tgt);
    var ret, hits :=
      ReportExtendedPermissions(table, x, n.key.triple.cls, attrs[f.src], attrs[f.tgt], p.Count());
    r := PairReport(f, ret, hits);
  }

  lemma {:induction false} SumPositive(log: seq<PairReport>)
    ensures Sum(log) > 0 <==> exists i :: 0 <= i < |log| && log[i].ret > 0
  {
    if log != [] {
      var n := |log| - 1;
      SumPositive(log[..n]);
      assert forall i | 0 <= i < n :: log[..n][i] == log[i];
      if log[n].ret == 0 && Sum(log) > 0 {
        var i :| 0 <= i < n && log[..n][i].ret > 0;
        assert log[i].ret > 0;
      }
    }
  }

  /** The errors of an entry are none exactly when no source and target that are looked up
      violate the rule. */
  lemma ReportEntryIsRight(p: Types, attrs: seq<set<nat>>, table: Table, rule: Neverallow, x: XPerms, n: Node, k: nat,
                           log: seq<PairReport>)
    requires table.Valid() && GoodNodes(p, attrs, table.Nodes()) && GoodRule(x)
    requires forall f :: f in Failures(log) <==> EntryReported(p, rule, k, n, f)
    requires AreReports(attrs, table, x, n.key.triple.cls, log)
    ensures Sum(log) > 0 <==> exists f: Failure ::
              EntryReported(p, rule, k, n, f) && PairViolated(p, table.Nodes(), x, f.src, f.tgt, n.key.triple.cls)
  {
    var c := n.key.triple.cls;
    SumPositive(log);
    forall i | 0 <= i < |log|
      ensures EntryReported(p, rule, k, n, log[i].failure)
      ensures log[i].ret > 0 <==> PairViolated(p, table.Nodes(), x, log[i].failure.src, log[i].failure.tgt, c)
    {
      assert Failures(log)[i] == log[i].failure;
      ReportIsRight(p, attrs, table, rule, x, n, k, log[i]);
    }
    forall f | EntryReported(p, rule, k, n, f) && PairViolated(p, table.Nodes(), x, f.src, f.tgt, c)
      ensures Sum(log) > 0
    {
      var i := ReportFor(log, f);
      assert log[i].ret > 0;
    }
  }

  lemma ReportFor(log: seq<PairReport>, f: Failure) returns (i: nat)
    requires f in Failures(log)
    ensures i < |log| && log[i].failure == f
  {
    i :| i < |log| && Failures(log)[i] == f;
  }

  lemma ReportIsRight(p: Types, attrs: seq<set<nat>>, table: Table, rule: Neverallow, x: XPerms, n: Node, k: nat,
                      r: PairReport)
    requires table.Valid() && GoodNodes(p, attrs, table.Nodes()) && GoodRule(x)
    requires EntryReported(p, rule, k, n, r.failure) && IsReportOf(attrs, table, x, n.key.triple.cls, r)
    ensures r.ret > 0 <==>
            PairViolated(p, table.Nodes(), x, r.failure.src, r.failure.tgt, n.key.triple.cls)
  {
    BehindInRange(p, n.key.triple.src, r.failure.src);
    BehindInRange(p, n.key.triple.tgt, r.failure.tgt);
    ReportPairIsRight(p, attrs, table, x, r.failure.src, r.failure.tgt, n.key.triple.cls, r.ret, r.hits);
  }
}
