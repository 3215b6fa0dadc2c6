/** Building the two maps between types and attributes. */
module TypeMaps {
  import opened Policy

  /** An entry of the type table: a type, an alias of one, or an attribute with its types. */
  datatype TypeDatum = TypeDatum(value: nat, isAttribute: bool, types: set<nat>)

  /** Values are in range, an attribute stands for individual types, and entries with the
      same value are aliases of one another. */
  ghost predicate GoodTable(ds: seq<TypeDatum>, nprim: nat) {
    && (forall k {:trigger InRange(ds[k], nprim)} | 0 <= k < |ds| :: InRange(ds[k], nprim))
    && (forall k {:trigger GoodMembers(ds, ds[k], nprim)} | 0 <= k < |ds| :: GoodMembers(ds, ds[k], nprim))
    && (forall j, k {:trigger Aliases(ds[j], ds[k])} | 0 <= j < |ds| && 0 <= k < |ds| :: Aliases(ds[j], ds[k]))
  }

  predicate InRange(d: TypeDatum, nprim: nat) {
    1 <= d.value <= nprim
  }

  ghost predicate GoodMembers(ds: seq<TypeDatum>, d: TypeDatum, nprim: nat) {
    d.isAttribute ==> forall i | i in d.types :: i < nprim && Individual(ds, i)
  }

  predicate Aliases(c: TypeDatum, d: TypeDatum) {
    c.value == d.value ==> Behind(c) == Behind(d) && c.isAttribute == d.isAttribute
  }

  /** Index i belongs to a type that is not an attribute. */
  ghost predicate Individual(ds: seq<TypeDatum>, i: nat) {
    exists k :: 0 <= k < |ds| && ds[k].value == i + 1 && !ds[k].isAttribute
  }

  /** Some attribute among the first n entries has index a and stands for type index i. */
  ghost predicate Lists(ds: seq<TypeDatum>, n: nat, a: nat, i: nat)
    requires n <= |ds|
  {
    exists k :: 0 <= k < n && ds[k].isAttribute && ds[k].value == a + 1 && i in ds[k].types
  }

  ghost predicate Has(ds: seq<TypeDatum>, n: nat, a: nat)
    requires n <= |ds|
  {
    exists k :: 0 <= k < n && ds[k].value == a + 1
  }

  function Behind(d: TypeDatum): set<nat> {
    if d.isAttribute then d.types else if d.value > 0 then {d.value - 1} else {}
  }

  predicate Agrees(m: seq<set<nat>>, d: TypeDatum) {
    1 <= d.value <= |m| && m[d.value - 1] == Behind(d)
  }

  /** The types behind each index, when the first n entries have been added. */
  ghost predicate AttrTypesBuilt(m: seq<set<nat>>, ds: seq<TypeDatum>, n: nat)
    requires n <= |ds|
  {
    && (forall k {:trigger Agrees(m, ds[k])} | 0 <= k < n :: Agrees(m, ds[k]))
    && (forall a {:trigger Has(ds, n, a)} | 0 <= a < |m| :: Has(ds, n, a) || m[a] == {})
  }

  /** The attributes each type index belongs to. */
  ghost predicate TypeAttrsBuilt(m: seq<set<nat>>, ds: seq<TypeDatum>, n: nat)
    requires n <= |ds|
  {
    forall i, a: nat | 0 <= i < |m| :: a in m[i] <==> a == i || Lists(ds, n, a, i)
  }

  /** Nothing has been entered under the next entry's value, or the same thing. */
  lemma EnteredBefore(m: seq<set<nat>>, ds: seq<TypeDatum>, n: nat)
    requires GoodTable(ds, |m|) && n < |ds| && AttrTypesBuilt(m, ds, n) && InRange(ds[n], |m|)
    ensures m[ds[n].value - 1] == {} || m[ds[n].value - 1] == Behind(ds[n])
  {
    if Has(ds, n, ds[n].value - 1) {
      var k :| 0 <= k < n && ds[k].value == ds[n].value;
      assert Agrees(m, ds[k]) && Aliases(ds[k], ds[n]);
    }
  }

  lemma NextAgrees(m: seq<set<nat>>, ds: seq<TypeDatum>, n: nat, k: nat)
    requires GoodTable(ds, |m|) && n < |ds| && AttrTypesBuilt(m, ds, n) && InRange(ds[n], |m|) && k <= n
    ensures Agrees(m[ds[n].value - 1 := Behind(ds[n])], ds[k])
  {
    assert Aliases(ds[k], ds[n]) && (k < n ==> Agrees(m, ds[k]));
  }

  lemma HasNext(ds: seq<TypeDatum>, n: nat, a: nat)
    requires n < |ds|
    ensures Has(ds, n + 1, a) <==> Has(ds, n, a) || ds[n].value == a + 1
  {
  }

  lemma NextAttrTypes(m: seq<set<nat>>, ds: seq<TypeDatum>, n: nat)
    requires GoodTable(ds, |m|) && n < |ds| && AttrTypesBuilt(m, ds, n) && InRange(ds[n], |m|)
    ensures AttrTypesBuilt(m[ds[n].value - 1 := Behind(ds[n])], ds, n + 1)
    ensures !ds[n].isAttribute ==> m[ds[n].value - 1] + {ds[n].value - 1} == Behind(ds[n])
  {
    EnteredBefore(m, ds, n);
    var m' := m[ds[n].value - 1 := Behind(ds[n])];
    forall k | 0 <= k < n + 1 ensures Agrees(m', ds[k]) { NextAgrees(m, ds, n, k); }
    forall a | 0 <= a < |m'| ensures Has(ds, n + 1, a) || m'[a] == {} { HasNext(ds, n, a); }
  }

  lemma ListsNext(ds: seq<TypeDatum>, n: nat, a: nat, i: nat)
    requires n < |ds|
    ensures Lists(ds, n + 1, a, i) <==>
      Lists(ds, n, a, i) || (ds[n].isAttribute && ds[n].value == a + 1 && i in ds[n].types)
  {
  }

  class Maps {
    var attrTypes: seq<set<nat>>
    var typeAttrs: seq<set<nat>>

    ghost predicate Built(ds: seq<TypeDatum>, n: nat, nprim: nat)
      requires n <= |ds|
      reads this
    {
      && |attrTypes| == nprim && |typeAttrs| == nprim
      && AttrTypesBuilt(attrTypes, ds, n) && TypeAttrsBuilt(typeAttrs, ds, n)
    }

    constructor (nprim: nat)
      ensures |attrTypes| == nprim && |typeAttrs| == nprim
      ensures forall i | 0 <= i < nprim :: attrTypes[i] == {} && typeAttrs[i] == {i}
    {
      attrTypes := seq(nprim, _ => {});
      typeAttrs := seq(nprim, i => {i});
    }

    /** Enters attribute index a in the map of each of its types. */
    method AddAttribute(a: nat, types: set<nat>)
      modifies this`typeAttrs
      ensures |typeAttrs| == |old(typeAttrs)|
      ensures forall i | 0 <= i < |typeAttrs| :: typeAttrs[i] == old(typeAttrs)[i] + if i in types then {a} else {}
    {
      for i := 0 to |typeAttrs|
        invariant |typeAttrs| == |old(typeAttrs)|
        invariant forall j | 0 <= j < i :: typeAttrs[j] == old(typeAttrs)[j] + if j in types then {a} else {}
        invariant forall j | i <= j < |typeAttrs| :: typeAttrs[j] == old(typeAttrs)[j]
      {
        if i in types { typeAttrs := typeAttrs[i := typeAttrs[i] + {a}]; }
      }
    }

    method AddType(d: TypeDatum, ghost ds: seq<TypeDatum>, ghost n: nat, ghost nprim: nat)
      requires GoodTable(ds, nprim) && n < |ds| && d == ds[n] && Built(ds, n, nprim)
      modifies this
      ensures Built(ds, n + 1, nprim)
    {
      assert InRange(d, nprim);
      var v := d.value - 1;
      NextAttrTypes(attrTypes, ds, n);
      forall i, a: nat | 0 <= i < nprim
        ensures Lists(ds, n + 1, a, i) <==> Lists(ds, n, a, i) || (d.isAttribute && a == v && i in d.types)
      {
        ListsNext(ds, n, a, i);
      }
      if d.isAttribute {
        attrTypes := attrTypes[v := d.types];
        AddAttribute(v, d.types);
      } else {
        attrTypes := attrTypes[v := attrTypes[v] + {v}];
      }
    }
  }

  /** Goes through the type table, in whatever order it presents its entries. */
  method BuildMaps(ds: seq<TypeDatum>, nprim: nat) returns (maps: Maps)
    requires GoodTable(ds, nprim)
    ensures maps.Built(ds, |ds|, nprim)
  {
    maps := new Maps(nprim);
    for k := 0 to |ds|
      invariant fresh(maps) && maps.Built(ds, k, nprim)
    {
      maps.AddType(ds[k], ds, k, nprim);
    }
  }

  ghost function Flags(ds: seq<TypeDatum>, nprim: nat): seq<bool> {
    seq(nprim, i requires 0 <= i < nprim => Individual(ds, i))
  }

  /** An entry of the map comes from an entry of the table. */
  lemma FromTable(m: seq<set<nat>>, ds: seq<TypeDatum>, a: nat, i: nat) returns (k: nat)
    requires AttrTypesBuilt(m, ds, |ds|) && a < |m| && i in m[a]
    ensures k < |ds| && ds[k].value == a + 1 && i in Behind(ds[k])
  {
    assert Has(ds, |ds|, a);
    k :| k < |ds| && ds[k].value == a + 1;
    assert Agrees(m, ds[k]);
  }

  /** What the finished maps hold for an entry of the table, and for a type and an attribute. */
  lemma BuiltMeans(maps: Maps, ds: seq<TypeDatum>, nprim: nat, k: nat)
    requires GoodTable(ds, nprim) && maps.Built(ds, |ds|, nprim) && k < |ds|
    ensures var index := ds[k].value - 1;
            && 0 <= index < nprim
            && maps.attrTypes[index] == if ds[k].isAttribute then ds[k].types else {index}
    ensures ds[k].isAttribute ==> forall i | i in ds[k].types :: i < nprim && ds[k].value - 1 in maps.typeAttrs[i]
  {
    assert Agrees(maps.attrTypes, ds[k]) && GoodMembers(ds, ds[k], nprim);
    if ds[k].isAttribute {
      forall i | i in ds[k].types ensures i < nprim && ds[k].value - 1 in maps.typeAttrs[i] {
        assert Lists(ds, |ds|, ds[k].value - 1, i);
      }
    }
  }

  /** The finished map is what the rest of the policy code relies on. */
  lemma BuiltIsValid(maps: Maps, ds: seq<TypeDatum>, nprim: nat)
    requires GoodTable(ds, nprim) && maps.Built(ds, |ds|, nprim)
    ensures Types(Flags(ds, nprim), maps.attrTypes).Valid()
  {
    var p := Types(Flags(ds, nprim), maps.attrTypes);
    forall a, i {:trigger i in p.attrTypes[a]} | 0 <= a < nprim && i in p.attrTypes[a] ensures i < nprim &&
      p.individual[i] {
      var k := FromTable(maps.attrTypes, ds, a, i);
      assert GoodMembers(ds, ds[k], nprim) && InRange(ds[k], nprim);
      assert Individual(ds, i);
    }
    forall i | 0 <= i < nprim && p.individual[i] ensures p.attrTypes[i] == {i} {
      assert Individual(ds, i);
      var k :| 0 <= k < |ds| && ds[k].value == i + 1 && !ds[k].isAttribute;
      assert Agrees(maps.attrTypes, ds[k]);
    }
  }

  /** The two maps are each other's inverse, except that every index counts as an attribute
      of itself. */
  lemma MapsAreInverse(maps: Maps, ds: seq<TypeDatum>, nprim: nat, a: nat, i: nat)
    requires GoodTable(ds, nprim) && maps.Built(ds, |ds|, nprim) && a < nprim && i < nprim
    ensures a in maps.typeAttrs[i] <==> a == i || i in maps.attrTypes[a]
  {
    if i in maps.attrTypes[a] {
      var k := FromTable(maps.attrTypes, ds, a, i);
      if ds[k].isAttribute { assert Lists(ds, |ds|, a, i); }
    }
    if Lists(ds, |ds|, a, i) {
      var k :| 0 <= k < |ds| && ds[k].isAttribute && ds[k].value == a + 1 && i in ds[k].types;
      assert Agrees(maps.attrTypes, ds[k]);
    }
  }
}
