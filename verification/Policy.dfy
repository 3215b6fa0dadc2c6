/** What a policy grants: the one meaning against which table expansion, neverallow
    checking and bounds checking are all proved. */
module Policy {
  import opened Avtab

  /** The type part of a policy. Type values are 1-based, indexes 0-based.
      `individual[i]` says that type i + 1 has a datum that is not an attribute, and
      `attrTypes[i]` is the set of type indexes behind it. */
  datatype Types = Types(individual: seq<bool>, attrTypes: seq<set<nat>>) {

    function Count(): nat {
      |attrTypes|
    }

    /** An individual type stands for itself, an attribute for individual types. */
    ghost predicate Valid() {
      && |individual| == |attrTypes|
      && (forall a, i {:trigger i in attrTypes[a]} | 0 <= a < |attrTypes| && i in attrTypes[a] ::
            i < |attrTypes| && individual[i])
      && (forall i | 0 <= i < |attrTypes| && individual[i] :: attrTypes[i] == {i})
    }

    /** The set of type indexes behind type value v. */
    function Behind(v: nat): set<nat> {
      if 1 <= v <= |attrTypes| then attrTypes[v - 1] else {}
    }

    predicate InRange(v: nat) {
      1 <= v <= |attrTypes|
    }
  }

  lemma BehindInRange(p: Types, v: nat, i: nat)
    requires p.Valid() && i in p.Behind(v)
    ensures i < p.Count() && p.individual[i]
  {
    assert i in p.attrTypes[v - 1];
  }

  predicate RuleInRange(p: Types, n: Node) {
    p.InRange(n.key.triple.src) && p.InRange(n.key.triple.tgt)
  }

  ghost predicate RulesInRange(p: Types, rules: seq<Node>) {
    forall k | 0 <= k < |rules| :: RuleInRange(p, rules[k])
  }

  /** Rule n speaks about source type s, target type t (type values) and class c. */
  predicate Covers(p: Types, n: Node, s: nat, t: nat, c: nat) {
    && 1 <= s && 1 <= t
    && s - 1 in p.Behind(n.key.triple.src)
    && t - 1 in p.Behind(n.key.triple.tgt)
    && n.key.triple.cls == c
  }

  /** Whether a rule is an allow rule does not depend on its Enabled mark. */
  predicate IsAllow(n: Node) {
    n.key.specified - {Enabled} == {Allowed}
  }

  predicate GrantsByRule(p: Types, n: Node, s: nat, t: nat, c: nat, perm: Perm) {
    IsAllow(n) && Covers(p, n, s, t, c) && perm in n.datum.data
  }

  /** Some allow rule of the list grants perm to source s on target t and class c. */
  ghost predicate Grants(p: Types, rules: seq<Node>, s: nat, t: nat, c: nat, perm: Perm) {
    exists k :: 0 <= k < |rules| && GrantsByRule(p, rules[k], s, t, c, perm)
  }

  /** A conditional block: the rules of its two branches. */
  datatype CondNode = CondNode(trueList: seq<Node>, falseList: seq<Node>)

  /** What is granted when the i-th conditional has value assignment[i]. */
  ghost predicate GrantsUnder(p: Types, te: seq<Node>, conds: seq<CondNode>, assignment: seq<bool>,
                              s: nat, t: nat, c: nat, perm: Perm)
    requires |assignment| == |conds|
  {
    || Grants(p, te, s, t, c, perm)
    || exists i :: 0 <= i < |conds| &&
         Grants(p, if assignment[i] then conds[i].trueList else conds[i].falseList, s, t, c, perm)
  }
}
