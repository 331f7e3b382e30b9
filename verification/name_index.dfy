/** Entries by id, with an index of their names: what both registries keep. */
module NameIndexes {
  import opened Collections

  datatype NameIndex<I, V> = NameIndex(entries: map<I, V>, names: map<string, I>)

  /** Filling an empty registry from a saved list: entries with an invalid name are skipped. */
  function Refilled<I(==), V>(saved: seq<V>, idOf: V -> I, nameOf: V -> string, valid: string -> bool)
    : NameIndex<I, V>
  {
    if saved == [] then NameIndex(map[], map[])
    else
      var x := Refilled(saved[..|saved| - 1], idOf, nameOf, valid);
      var last := saved[|saved| - 1];
      if valid(nameOf(last)) then NameIndex(x.entries[idOf(last) := last], x.names[nameOf(last) := idOf(last)]) else x
  }

  /** Every name is valid, and the index is the exact inverse of the entries' names. */
  ghost predicate Inverse<I, V>(x: NameIndex<I, V>, idOf: V -> I, nameOf: V -> string, valid: string -> bool) {
    && (forall id :: id in x.entries ==> idOf(x.entries[id]) == id && valid(nameOf(x.entries[id])))
    && (forall id :: id in x.entries ==> nameOf(x.entries[id]) in x.names && x.names[nameOf(x.entries[id])] == id)
    && (forall n :: n in x.names ==> x.names[n] in x.entries && nameOf(x.entries[x.names[n]]) == n)
  }

  lemma RefilledSnoc<I, V>(saved: seq<V>, last: V, idOf: V -> I, nameOf: V -> string, valid: string -> bool)
    requires valid(nameOf(last))
    ensures var x := Refilled(saved, idOf, nameOf, valid);
      Refilled(saved + [last], idOf, nameOf, valid)
      == NameIndex(x.entries[idOf(last) := last], x.names[nameOf(last) := idOf(last)])
  {
    assert (saved + [last])[..|saved|] == saved;
  }

  lemma {:induction false} RefilledPart<I, V>(x: NameIndex<I, V>, order: seq<I>,
                                              idOf: V -> I, nameOf: V -> string, valid: string -> bool)
    requires Inverse(x, idOf, nameOf, valid) && NoDuplicates(order) && forall id :: id in order ==> id in x.entries
    ensures var r := Refilled(Values(x.entries, order), idOf, nameOf, valid);
      && r.entries.Keys == Elements(order)
      && (forall id :: id in r.entries ==> r.entries[id] == x.entries[id])
      && (forall n :: n in r.names <==> n in x.names && x.names[n] in order)
      && (forall n :: n in r.names ==> r.names[n] == x.names[n])
  {
    if order != [] {
      var init, last := order[..|order| - 1], order[|order| - 1];
      ValuesSnoc(x.entries, order);
      RefilledPart(x, init, idOf, nameOf, valid);
      hide Refilled, Values;
      RefilledSnoc(Values(x.entries, init), x.entries[last], idOf, nameOf, valid);
      assert forall id :: id in order <==> id in init || id == last by { assert order == init + [last]; }
      hide NoDuplicates;
    }
  }

  /** Refilled from a listing of its entries, in any order, a registry is what it was. */
  lemma RefilledSame<I, V>(x: NameIndex<I, V>, order: seq<I>, idOf: V -> I, nameOf: V -> string, valid: string -> bool)
    requires Inverse(x, idOf, nameOf, valid) && IsListing(order, x.entries.Keys)
    ensures forall id :: id in order ==> id in x.entries
    ensures Refilled(Values(x.entries, order), idOf, nameOf, valid) == x
  {
    assert forall id :: id in order ==> id in Elements(order);
    RefilledPart(x, order, idOf, nameOf, valid);
    var r := Refilled(Values(x.entries, order), idOf, nameOf, valid);
    assert r.entries.Keys == Elements(order);
    assert r.entries == x.entries;
    assert forall n :: n in x.names ==> x.names[n] in Elements(order);
    assert r.names == x.names;
  }
}
