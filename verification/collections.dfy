/** Shared vocabulary: optional values, results, and sequences that enumerate a set. */
module Collections {

  datatype Option<+T> = None | Some(value: T)

  datatype Result<+T, +E> = Ok(value: T) | Err(error: E)

  predicate NoDuplicates<T(==)>(s: seq<T>) {
    forall i, j :: 0 <= i < j < |s| ==> s[i] != s[j]
  }

  lemma AppendDistinct<T>(s: seq<T>, x: T)
    ensures NoDuplicates(s) && x !in s ==> NoDuplicates(s + [x])
  {
  }

  function Elements<T(==)>(s: seq<T>): set<T> {
    set x | x in s
  }

  /** `order` visits every element of `s` exactly once. The nexus iterates over hash
      maps and hash sets in an unspecified order; every such iteration is one of these. */
  predicate IsListing<T(==)>(order: seq<T>, s: set<T>) {
    NoDuplicates(order) && Elements(order) == s
  }

  /** The values of the listed keys. */
  function Values<K, V>(m: map<K, V>, order: seq<K>): seq<V>
    requires forall k :: k in order ==> k in m
  {
    seq(|order|, i requires 0 <= i < |order| => m[order[i]])
  }

  lemma ValuesSnoc<K, V>(m: map<K, V>, order: seq<K>)
    requires order != [] && forall k :: k in order ==> k in m
    ensures forall k :: k in order[..|order| - 1] ==> k in m
    ensures order[|order| - 1] in m
    ensures Values(m, order) == Values(m, order[..|order| - 1]) + [m[order[|order| - 1]]]
  {
    var init, last := order[..|order| - 1], order[|order| - 1];
    assert order == init + [last];
    assert last in order && forall k :: k in init ==> k in order;
  }

  ghost predicate IsPrefix<T>(a: seq<T>, b: seq<T>) {
    a <= b
  }

  lemma PrefixTransitive<T>(a: seq<T>, b: seq<T>, c: seq<T>)
    ensures IsPrefix(a, b) && IsPrefix(b, c) ==> IsPrefix(a, c)
  {
  }

  /** Iterate over the keys of a hash map: some order, each key once. */
  method ListKeys<K(==), V>(m: map<K, V>) returns (order: seq<K>)
    ensures IsListing(order, m.Keys)
  {
    order := [];
    var left := m.Keys;
    while left != {}
      invariant left <= m.Keys
      invariant NoDuplicates(order)
      invariant Elements(order) == m.Keys - left
      decreases left
    {
      var k :| k in left;
      assert k !in Elements(order);
      assert Elements(order + [k]) == Elements(order) + {k};
      order := order + [k];
      left := left - {k};
    }
  }

  lemma ListingPrefix<T>(order: seq<T>, i: nat)
    requires NoDuplicates(order) && i < |order|
    ensures order[i] !in order[..i]
    ensures Elements(order[..i + 1]) == Elements(order[..i]) + {order[i]}
  {
    assert order[..i + 1] == order[..i] + [order[i]];
  }

  function Flatten<T>(parts: seq<seq<T>>): seq<T> {
    if parts == [] then [] else Flatten(parts[..|parts| - 1]) + parts[|parts| - 1]
  }

  lemma FlattenNone<T>()
    ensures Flatten<T>([]) == []
  {
  }

  lemma FlattenAppend<T>(parts: seq<seq<T>>, last: seq<T>)
    ensures Flatten(parts + [last]) == Flatten(parts) + last
  {
    assert (parts + [last])[..|parts|] == parts;
  }
}
