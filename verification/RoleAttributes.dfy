/** Flattening of role attributes: every attribute ends up holding the regular roles
    that it contains, directly or through other attributes. */
module RoleAttributes {

  type Graph = seq<set<nat>>

  /** roles[i] is contained in roles; attribute[i] tells attributes from regular roles. */
  ghost predicate WellFormed(attribute: seq<bool>, g: Graph) {
    |g| == |attribute| && forall x, y {:trigger y in g[x]} | 0 <= x < |g| && y in g[x] :: y < |g|
  }

  // ---------- containment ----------

  /** A path leads from attribute a down to the regular role r. */
  ghost predicate IsPath(attribute: seq<bool>, g: Graph, path: seq<nat>, a: nat, r: nat)
    requires WellFormed(attribute, g)
  {
    && |path| >= 2 && path[0] == a && path[|path| - 1] == r
    && (forall i | 0 <= i < |path| :: path[i] < |g|)
    && (forall i | 0 <= i < |path| - 1 :: attribute[path[i]] && path[i + 1] in g[path[i]])
    && !attribute[r]
  }

  ghost predicate Contains(attribute: seq<bool>, g: Graph, a: nat, r: nat)
    requires WellFormed(attribute, g)
  {
    exists path :: IsPath(attribute, g, path, a, r)
  }

  /** Attributes are nested, not mutually contained. An attribute may list itself, but
      then no other attribute lists it. */
  ghost predicate Nested(attribute: seq<bool>, g: Graph, rank: nat -> nat)
    requires WellFormed(attribute, g)
  {
    forall x, b {:trigger b in g[x]} | 0 <= x < |g| && attribute[x] && b in g[x] && attribute[b] && b != x ::
      rank(b) < rank(x) && b !in g[b]
  }

  /** Containment by recursion on the nesting. */
  ghost predicate Has(attribute: seq<bool>, g: Graph, rank: nat -> nat, a: nat, r: nat)
    requires WellFormed(attribute, g) && Nested(attribute, g, rank) && a < |g| && attribute[a] && r < |g|
    decreases rank(a)
  {
    || (r in g[a] && !attribute[r])
    || exists b :: b in g[a] && attribute[b] && b != a && Has(attribute, g, rank, b, r)
  }

  lemma {:induction false} PathHas(attribute: seq<bool>, g: Graph, rank: nat -> nat, path: seq<nat>, a: nat, r: nat)
    requires WellFormed(attribute, g) && Nested(attribute, g, rank)
    requires IsPath(attribute, g, path, a, r)
    ensures attribute[a] && Has(attribute, g, rank, a, r)
    decreases |path|
  {
    var b := path[1];
    assert path[0 + 1] in g[path[0]];
    if |path| > 2 {
      PathHas(attribute, g, rank, path[1..], b, r);
    }
  }

  lemma {:induction false} HasPath(attribute: seq<bool>, g: Graph, rank: nat -> nat, a: nat, r: nat)
    returns (path: seq<nat>)
    requires WellFormed(attribute, g) && Nested(attribute, g, rank) && a < |g| && attribute[a] && r < |g|
    requires Has(attribute, g, rank, a, r)
    ensures IsPath(attribute, g, path, a, r)
    decreases rank(a)
  {
    if r in g[a] && !attribute[r] {
      path := [a, r];
    } else {
      var b :| b in g[a] && attribute[b] && b != a && Has(attribute, g, rank, b, r);
      var rest := HasPath(attribute, g, rank, b, r);
      path := [a] + rest;
    }
  }

  lemma HasIsContains(attribute: seq<bool>, g: Graph, rank: nat -> nat, a: nat, r: nat)
    requires WellFormed(attribute, g) && Nested(attribute, g, rank) && a < |g| && attribute[a] && r < |g|
    ensures Has(attribute, g, rank, a, r) <==> Contains(attribute, g, a, r)
  {
    if Has(attribute, g, rank, a, r) { var path := HasPath(attribute, g, rank, a, r); }
    if path :| IsPath(attribute, g, path, a, r) { PathHas(attribute, g, rank, path, a, r); }
  }

  /** Regular role r is among those that a set, its owner `self` aside, stands for in
      terms of the original graph g. */
  ghost predicate Denotes(attribute: seq<bool>, g: Graph, rank: nat -> nat, s: set<nat>, self: nat, r: nat)
    requires WellFormed(attribute, g) && Nested(attribute, g, rank) && r < |g|
    requires forall y | y in s :: y < |g|
  {
    || (r in s && !attribute[r])
    || exists b :: b in s && attribute[b] && b != self && Has(attribute, g, rank, b, r)
  }

  // ---------- the weight that the restart loop uses up ----------

  /** One more than the total weight of the attributes listed. */
  ghost function Weight(attribute: seq<bool>, g: Graph, rank: nat -> nat, a: nat): nat
    requires WellFormed(attribute, g) && Nested(attribute, g, rank) && a < |g| && attribute[a]
    decreases rank(a), |g| + 1
  {
    1 + ListedWeight(attribute, g, rank, a, |g|)
  }

  /** The weight of the attributes below k that a lists, itself aside. */
  ghost function ListedWeight(attribute: seq<bool>, g: Graph, rank: nat -> nat, a: nat, k: nat): nat
    requires WellFormed(attribute, g) && Nested(attribute, g, rank) && a < |g| && attribute[a] && k <= |g|
    decreases rank(a), k
  {
    if k == 0 then 0
    else
      ListedWeight(attribute, g, rank, a, k - 1)
      + if k - 1 in g[a] && attribute[k - 1] && k - 1 != a then Weight(attribute, g, rank, k - 1) else 0
  }

  /** The weight of the attributes below k in a set, `self` aside. */
  ghost function SetWeight(attribute: seq<bool>, g: Graph, rank: nat -> nat, s: set<nat>, self: nat, k: nat): nat
    requires WellFormed(attribute, g) && Nested(attribute, g, rank) && k <= |g|
  {
    if k == 0 then 0
    else
      SetWeight(attribute, g, rank, s, self, k - 1)
      + if k - 1 in s && attribute[k - 1] && k - 1 != self then Weight(attribute, g, rank, k - 1) else 0
  }

  lemma {:induction false} ListedIsSet(attribute: seq<bool>, g: Graph, rank: nat -> nat, a: nat, k: nat)
    requires WellFormed(attribute, g) && Nested(attribute, g, rank) && a < |g| && attribute[a] && k <= |g|
    ensures ListedWeight(attribute, g, rank, a, k) == SetWeight(attribute, g, rank, g[a], a, k)
  {
    if k > 0 { ListedIsSet(attribute, g, rank, a, k - 1); }
  }

  lemma {:induction false} WeightOfUnion(attribute: seq<bool>, g: Graph, rank: nat -> nat, s: set<nat>, t: set<nat>,
                                         self: nat, other: nat, k: nat)
    requires WellFormed(attribute, g) && Nested(attribute, g, rank) && k <= |g|
    requires other !in t
    ensures SetWeight(attribute, g, rank, s + t, self, k) <=
            SetWeight(attribute, g, rank, s, self, k) + SetWeight(attribute, g, rank, t, other, k)
  {
    if k > 0 { WeightOfUnion(attribute, g, rank, s, t, self, other, k - 1); }
  }

  lemma {:induction false} WeightOfRemoval(attribute: seq<bool>, g: Graph, rank: nat -> nat, s: set<nat>, a: nat,
                                           self: nat, k: nat)
    requires WellFormed(attribute, g) && Nested(attribute, g, rank) && k <= |g|
    requires a in s && a < |g| && attribute[a] && a != self
    ensures SetWeight(attribute, g, rank, s, self, k) ==
            SetWeight(attribute, g, rank, s - {a}, self, k) + if a < k then Weight(attribute, g, rank, a) else 0
  {
    if k > 0 { WeightOfRemoval(attribute, g, rank, s, a, self, k - 1); }
  }

  lemma {:induction false} NoAttributesNoWeight(attribute: seq<bool>, g: Graph, rank: nat -> nat, s: set<nat>,
                                                self: nat, k: nat)
    requires WellFormed(attribute, g) && Nested(attribute, g, rank) && k <= |g|
    requires forall y | y in s && y < |g| :: !attribute[y]
    ensures SetWeight(attribute, g, rank, s, self, k) == 0
  {
    if k > 0 { NoAttributesNoWeight(attribute, g, rank, s, self, k - 1); }
  }

  // ---------- the flattening ----------

  /** While role x is worked on, its set still stands for the regular roles of x, and
      its attributes are nested below x. */
  ghost predicate OnTheWay(attribute: seq<bool>, g: Graph, rank: nat -> nat, s: set<nat>, x: nat)
    requires WellFormed(attribute, g) && Nested(attribute, g, rank) && x < |g| && attribute[x]
  {
    && (forall y | y in s :: y < |g|)
    && (forall r | 0 <= r < |g| :: Denotes(attribute, g, rank, s, x, r) <==> Has(attribute, g, rank, x, r))
    && (forall b | b in s && attribute[b] && b != x :: rank(b) < rank(x) && b !in g[b])
  }

  ghost predicate RegularOnly(attribute: seq<bool>, s: set<nat>) {
    forall y | y in s && y < |attribute| :: !attribute[y]
  }

  /** Before or after its turn: as in the original graph, or flattened. */
  ghost predicate Settled(attribute: seq<bool>, g: Graph, rank: nat -> nat, s: set<nat>, x: nat)
    requires WellFormed(attribute, g) && Nested(attribute, g, rank) && x < |g| && attribute[x]
  {
    s == g[x] || (OnTheWay(attribute, g, rank, s, x) && RegularOnly(attribute, s))
  }

  lemma SettledIsOnTheWay(attribute: seq<bool>, g: Graph, rank: nat -> nat, s: set<nat>, x: nat)
    requires WellFormed(attribute, g) && Nested(attribute, g, rank) && x < |g| && attribute[x]
    requires Settled(attribute, g, rank, s, x)
    ensures OnTheWay(attribute, g, rank, s, x)
  {
  }

  /** Taking attribute a out and its own set in keeps the meaning and uses up weight. */
  lemma UnfoldStep(attribute: seq<bool>, g: Graph, rank: nat -> nat, s: set<nat>, x: nat, a: nat, t: set<nat>)
    requires WellFormed(attribute, g) && Nested(attribute, g, rank) && x < |g| && attribute[x]
    requires OnTheWay(attribute, g, rank, s, x)
    requires a in s && attribute[a] && a != x && Settled(attribute, g, rank, t, a)
    ensures OnTheWay(attribute, g, rank, s - {a} + t, x)
    ensures SetWeight(attribute, g, rank, s - {a} + t, x, |g|) < SetWeight(attribute, g, rank, s, x, |g|)
  {
    SettledIsOnTheWay(attribute, g, rank, t, a);
    UnfoldMeaning(attribute, g, rank, s, x, a, t);
    WeightOfRemoval(attribute, g, rank, s, a, x, |g|);
    SettledWeight(attribute, g, rank, t, a);
    WeightOfUnion(attribute, g, rank, s - {a}, t, x, a, |g|);
  }

  lemma SettledWeight(attribute: seq<bool>, g: Graph, rank: nat -> nat, t: set<nat>, a: nat)
    requires WellFormed(attribute, g) && Nested(attribute, g, rank) && a < |g| && attribute[a]
    requires Settled(attribute, g, rank, t, a) && a !in g[a]
    ensures a !in t && SetWeight(attribute, g, rank, t, a, |g|) < Weight(attribute, g, rank, a)
  {
    if t == g[a] {
      ListedIsSet(attribute, g, rank, a, |g|);
    } else {
      NoAttributesNoWeight(attribute, g, rank, t, a, |g|);
    }
  }

  lemma UnfoldMeaning(attribute: seq<bool>, g: Graph, rank: nat -> nat, s: set<nat>, x: nat, a: nat, t: set<nat>)
    requires WellFormed(attribute, g) && Nested(attribute, g, rank) && x < |g| && attribute[x]
    requires OnTheWay(attribute, g, rank, s, x)
    requires a in s && attribute[a] && a != x && OnTheWay(attribute, g, rank, t, a) && a !in t
    ensures OnTheWay(attribute, g, rank, s - {a} + t, x)
  {
    var u := s - {a} + t;
    forall r | 0 <= r < |g|
      ensures Denotes(attribute, g, rank, u, x, r) <==> Has(attribute, g, rank, x, r)
    {
      assert Denotes(attribute, g, rank, s, x, r) <==> Has(attribute, g, rank, x, r);
      assert Denotes(attribute, g, rank, t, a, r) <==> Has(attribute, g, rank, a, r);
      if Denotes(attribute, g, rank, s, x, r) && !(r in s && !attribute[r]) {
        var b :| b in s && attribute[b] && b != x && Has(attribute, g, rank, b, r);
        if b != a {
          assert b in u;
        } else if !(r in t && !attribute[r]) {
          var c :| c in t && attribute[c] && c != a && Has(attribute, g, rank, c, r);
          assert c in u && c != x;
        }
      }
      if Denotes(attribute, g, rank, u, x, r) && !(r in u && !attribute[r]) {
        var b :| b in u && attribute[b] && b != x && Has(attribute, g, rank, b, r);
        if b !in s {
          assert b in t && b != a;
        }
      }
    }
  }

  class RolePolicy {
    const attribute: seq<bool>
    /** The role object_r, which is left alone. */
    const objectR: nat
    /** role->roles, by role index. */
    var roles: Graph

    constructor (attribute: seq<bool>, objectR: nat, roles: Graph)
      ensures this.attribute == attribute && this.objectR == objectR && this.roles == roles
    {
      this.attribute, this.objectR, this.roles := attribute, objectR, roles;
    }

    /** Every role is either as in g or flattened. */
    ghost predicate Tracks(g: Graph, rank: nat -> nat)
      reads this
    {
      && WellFormed(attribute, g) && Nested(attribute, g, rank) && |roles| == |g|
      && (forall x | 0 <= x < |g| && attribute[x] :: Settled(attribute, g, rank, roles[x], x))
      && (forall x | 0 <= x < |g| && !attribute[x] :: roles[x] == g[x])
    }

    /** Role x is done: it holds exactly the regular roles it contains. */
    ghost predicate Flat(g: Graph, x: nat)
      requires WellFormed(attribute, g) && x < |roles|
      reads this
    {
      forall r: nat :: r in roles[x] <==> Contains(attribute, g, x, r)
    }

    /** Flattens one role. The scan starts over whenever an attribute was replaced by
        its contents. */
    method ExpandRoleAttributes(role: nat, ghost g: Graph, ghost rank: nat -> nat)
      requires role < |roles| && Tracks(g, rank)
      modifies this
      ensures Tracks(g, rank)
      ensures forall x | 0 <= x < |roles| && x != role :: roles[x] == old(roles[x])
      ensures attribute[role] && role != objectR ==> Flat(g, role)
      ensures !attribute[role] || role == objectR ==> roles == old(roles)
    {
      if role == objectR { return; }
      if !attribute[role] { return; }
      SettledIsOnTheWay(attribute, g, rank, roles[role], role);
      var restart := true;
      while restart
        invariant |roles| == |old(roles)| && forall x | 0 <= x < |roles| && x != role :: roles[x] == old(roles[x])
        invariant OnTheWay(attribute, g, rank, roles[role], role)
        invariant !restart ==> RegularOnly(attribute, roles[role])
        decreases SetWeight(attribute, g, rank, roles[role], role, |g|), restart
      {
        restart := Scan(role, g, rank);
      }
      FlatWhenRegular(g, rank, role);
    }

    /** One scan: stops after the first attribute that is replaced by its contents. */
    method Scan(role: nat, ghost g: Graph, ghost rank: nat -> nat) returns (restart: bool)
      requires WellFormed(attribute, g) && Nested(attribute, g, rank) && role < |roles| == |g| && attribute[role]
      requires OnTheWay(attribute, g, rank, roles[role], role)
      requires forall x | 0 <= x < |g| && attribute[x] && x != role :: Settled(attribute, g, rank, roles[x], x)
      modifies this
      ensures |roles| == |old(roles)| && forall x | 0 <= x < |roles| && x != role :: roles[x] == old(roles[x])
      ensures OnTheWay(attribute, g, rank, roles[role], role)
      ensures var weight := SetWeight(attribute, g, rank, old(roles[role]), role, |g|);
              SetWeight(attribute, g, rank, roles[role], role, |g|) <= if restart then weight - 1 else weight
      ensures !restart ==> RegularOnly(attribute, roles[role])
      ensures !restart ==> roles[role] == old(roles[role]) - {role}
    {
      for i := 0 to |roles|
        invariant |roles| == |g| && forall x | 0 <= x < |roles| && x != role :: roles[x] == old(roles[x])
        invariant roles[role] == if role < i then old(roles[role]) - {role} else old(roles[role])
        invariant forall j | 0 <= j < i && j in roles[role] :: !attribute[j]
      {
        if i !in roles[role] { continue; }
        if !attribute[i] { continue; }
        roles := roles[role := roles[role] - {i}];
        if i == role { continue; }
        roles := roles[role := roles[role] + roles[i]];
        SelfAside(attribute, g, rank, old(roles[role]), role);
        if role < i {
          UnfoldStep(attribute, g, rank, old(roles[role]) - {role}, role, i, roles[i]);
        } else {
          UnfoldStep(attribute, g, rank, old(roles[role]), role, i, roles[i]);
        }
        return true;
      }
      SelfAside(attribute, g, rank, old(roles[role]), role);
      return false;
    }

    lemma FlatWhenRegular(g: Graph, rank: nat -> nat, x: nat)
      requires WellFormed(attribute, g) && Nested(attribute, g, rank) && x < |roles| == |g| && attribute[x]
      requires OnTheWay(attribute, g, rank, roles[x], x) && RegularOnly(attribute, roles[x])
      ensures Flat(g, x)
    {
      forall r: nat
        ensures r in roles[x] <==> Contains(attribute, g, x, r)
      {
        if r < |g| {
          HasIsContains(attribute, g, rank, x, r);
          assert Denotes(attribute, g, rank, roles[x], x, r) <==> Has(attribute, g, rank, x, r);
        }
      }
    }

    /** Flattens all roles, in whatever order they are visited: every attribute ends up
        with exactly the regular roles it contains in the original graph. */
    method ExpandAll(order: seq<nat>, ghost rank: nat -> nat)
      requires WellFormed(attribute, roles) && Nested(attribute, roles, rank)
      requires forall k | 0 <= k < |order| :: order[k] < |roles|
      modifies this
      ensures |roles| == |old(roles)|
      ensures forall x | 0 <= x < |roles| :: attribute[x] && x != objectR && x in order ==> Flat(old(roles), x)
      ensures forall x | 0 <= x < |roles| :: !attribute[x] || x == objectR || x !in order ==> roles[x] == old(roles[x])
    {
      ghost var g := roles;
      for k := 0 to |order|
        invariant Tracks(g, rank)
        invariant forall x | 0 <= x < |roles| && attribute[x] && x != objectR && x in order[..k] :: Flat(g, x)
        invariant forall x | 0 <= x < |roles| && (!attribute[x] || x == objectR || x !in order[..k]) :: roles[x] == g[x]
      {
        ExpandRoleAttributes(order[k], g, rank);
        assert order[..k + 1] == order[..k] + [order[k]];
      }
      assert order[..|order|] == order;
    }
  }

  lemma SelfAside(attribute: seq<bool>, g: Graph, rank: nat -> nat, s: set<nat>, x: nat)
    requires WellFormed(attribute, g) && Nested(attribute, g, rank) && x < |g| && attribute[x]
    requires OnTheWay(attribute, g, rank, s, x)
    ensures OnTheWay(attribute, g, rank, s - {x}, x)
    ensures SetWeight(attribute, g, rank, s - {x}, x, |g|) == SetWeight(attribute, g, rank, s, x, |g|)
  {
    forall r | 0 <= r < |g|
      ensures Denotes(attribute, g, rank, s - {x}, x, r) <==> Denotes(attribute, g, rank, s, x, r)
    {
    }
    SelfHasNoWeight(attribute, g, rank, s, x, |g|);
  }

  lemma {:induction false} SelfHasNoWeight(attribute: seq<bool>, g: Graph, rank: nat -> nat, s: set<nat>, x: nat,
                                           k: nat)
    requires WellFormed(attribute, g) && Nested(attribute, g, rank) && k <= |g|
    ensures SetWeight(attribute, g, rank, s - {x}, x, k) == SetWeight(attribute, g, rank, s, x, k)
  {
    if k > 0 { SelfHasNoWeight(attribute, g, rank, s, x, k - 1); }
  }
}
