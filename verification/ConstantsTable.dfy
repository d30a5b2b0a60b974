/** Immediate constants, each kept once. */
module ConstantsTable {

  /** The first index of a value, the length if there is none. */
  function IndexIn<T(==)>(table: seq<T>, value: T): (k: nat)
    ensures k <= |table| && (k < |table| <==> value in table) && (k < |table| ==> table[k] == value)
    ensures forall i :: 0 <= i < k ==> table[i] != value
  {
    if table == [] || table[0] == value then 0 else 1 + IndexIn(table[1..], value)
  }

  function Interned<T(==)>(table: seq<T>, value: T): seq<T> {
    if value in table then table else table + [value]
  }

  predicate EachOnce<T(==)>(table: seq<T>) {
    forall i, j :: 0 <= i < j < |table| ==> table[i] != table[j]
  }

  /** A value and its id determine one another, also after later values have come in. */
  lemma IdsAreUnique<T>(table: seq<T>, v: T, w: T)
    requires EachOnce(table)
    ensures var first := Interned(table, v);
            var second := Interned(first, w);
            && EachOnce(second) && (IndexIn(first, v) == IndexIn(second, w) <==> v == w)
            && table <= first <= second && IndexIn(second, v) == IndexIn(first, v) < |first| && second[IndexIn(second, w)] == w
  {
    PrefixIndex(Interned(table, v), Interned(Interned(table, v), w), v);
  }

  lemma {:induction false} PrefixIndex<T>(a: seq<T>, b: seq<T>, v: T)
    requires a <= b && v in a
    ensures IndexIn(a, v) == IndexIn(b, v)
  {
    if a[0] != v {
      PrefixIndex(a[1..], b[1..], v);
    }
  }

  class ImmediateConstantsTable<T(==)> {
    var constantsById: seq<T>
    var valueToId: map<T, nat>

    /** The two directions agree. */
    ghost predicate Valid()
      reads this
    {
      && (forall i :: 0 <= i < |constantsById| ==> constantsById[i] in valueToId && valueToId[constantsById[i]] == i)
      && (forall v :: v in valueToId ==> valueToId[v] < |constantsById| && constantsById[valueToId[v]] == v)
    }

    constructor ()
      ensures Valid() && constantsById == []
    {
      constantsById, valueToId := [], map[];
    }

    method GetOrAdd(value: T) returns (id: nat)
      requires Valid()
      modifies this
      ensures Valid() && constantsById == Interned(old(constantsById), value) && id == IndexIn(constantsById, value)
    {
      if value in valueToId { return valueToId[value]; }
      id := |constantsById|;
      constantsById := constantsById + [value];
      valueToId := valueToId[value := id];
    }

    /** None of the stored ids stands for a value that is not there. */
    method TryGetID(value: T) returns (found: bool, id: nat)
      requires Valid()
      ensures found <==> value in constantsById
      ensures found ==> id < |constantsById| && constantsById[id] == value
    {
      if value in valueToId { return true, valueToId[value]; }
      found, id := false, 0;
    }
  }
}
