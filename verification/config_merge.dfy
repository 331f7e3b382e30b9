/** Layered configuration: recursive merging of TOML tables. */
module ConfigMerge {
  import opened Collections

  /** A TOML value: a table, or anything that is replaced as a whole. */
  datatype Value = Leaf(text: string) | Table(fields: map<string, Value>)

  /** `overlay` on top of `base`: tables merge, everything else is replaced. */
  function Merged(base: Value, overlay: Value): Value
    decreases overlay
  {
    if base.Table? && overlay.Table? then
      Table(map k | k in base.fields.Keys + overlay.fields.Keys ::
        if k in base.fields && k in overlay.fields then Merged(base.fields[k], overlay.fields[k])
        else if k in overlay.fields then overlay.fields[k]
        else base.fields[k])
    else overlay
  }

  /** The loop over the overlay's entries, in the map's order, updating the base in place. */
  method MergeTables(base: Value, overlay: Value) returns (merged: Value)
    requires base.Table? && overlay.Table?
    ensures merged == Merged(base, overlay)
    decreases overlay
  {
    var table := base.fields;
    var order := ListKeys(overlay.fields);
    for i := 0 to |order|
      invariant table.Keys == base.fields.Keys + Elements(order[..i])
      invariant forall k :: k in table ==>
        table[k] == if k in order[..i] then Merged(base, overlay).fields[k] else base.fields[k]
    {
      var key := order[i];
      assert key in Elements(order);
      ListingPrefix(order, i);
      assert order[..i + 1] == order[..i] + [key];
      var val := overlay.fields[key];
      if key in table && table[key].Table? && val.Table? {
        assert val < overlay;
        var inner := MergeTables(table[key], val);
        table := table[key := inner];
      } else {
        table := table[key := val];
      }
    }
    assert order[..|order|] == order;
    assert forall k :: k in order <==> k in Elements(order);
    merged := Table(table);
    assert merged.fields == Merged(base, overlay).fields;
  }

  // ---- lookups ------------------------------------------------------------------------------

  function Lookup(v: Value, path: seq<string>): Option<Value> {
    if path == [] then Some(v)
    else if v.Table? && path[0] in v.fields then Lookup(v.fields[path[0]], path[1..])
    else None
  }

  /** The overlay settles this path: it has a value there, or a non-table on the way. */
  predicate Settles(v: Value, path: seq<string>) {
    v.Leaf? || path == [] || (path[0] in v.fields && Settles(v.fields[path[0]], path[1..]))
  }

  function LeafAt(v: Value, path: seq<string>): Option<string> {
    var found := Lookup(v, path);
    if found.Some? && found.value.Leaf? then Some(found.value.text) else None
  }

  /** At every path the overlay wins where it says anything, and the base shows through elsewhere. */
  lemma {:induction false} LeafOfMerged(base: Value, overlay: Value, path: seq<string>)
    ensures LeafAt(Merged(base, overlay), path) ==
      if Settles(overlay, path) then LeafAt(overlay, path) else LeafAt(base, path)
    decreases path
  {
    if base.Table? && overlay.Table? && path != [] {
      var k := path[0];
      if k in base.fields && k in overlay.fields {
        LeafOfMerged(base.fields[k], overlay.fields[k], path[1..]);
      } else if k in overlay.fields {
        SettledOrAbsent(overlay.fields[k], path[1..]);
      }
    } else if overlay.Table? && path != [] {
      SettledOrAbsent(overlay, path);
    }
  }

  lemma {:induction false} SettledOrAbsent(v: Value, path: seq<string>)
    ensures !Settles(v, path) ==> LeafAt(v, path).None?
  {
    if v.Table? && path != [] && path[0] in v.fields {
      SettledOrAbsent(v.fields[path[0]], path[1..]);
    }
  }

  /** The result has a value exactly where the overlay has one, or the base has one that the
      overlay does not settle. */
  lemma {:induction false} TableOfMerged(base: Value, overlay: Value, path: seq<string>)
    requires base.Table? && overlay.Table?
    ensures Lookup(Merged(base, overlay), path).Some? <==>
      Lookup(overlay, path).Some? || (Lookup(base, path).Some? && !Settles(overlay, path))
    decreases path
  {
    if path != [] {
      var k := path[0];
      if k in base.fields && k in overlay.fields {
        if base.fields[k].Table? && overlay.fields[k].Table? {
          TableOfMerged(base.fields[k], overlay.fields[k], path[1..]);
        } else if path[1..] != [] && overlay.fields[k].Table? {
          assert base.fields[k].Leaf?;
        }
      } else if k in overlay.fields {
        assert Lookup(base, path).None?;
      }
    }
  }

  // ---- laws of layering ------------------------------------------------------------------------

  /** Applying a layer twice changes nothing. */
  lemma {:induction false} ReapplyingIsIdle(base: Value, overlay: Value)
    ensures Merged(Merged(base, overlay), overlay) == Merged(base, overlay)
    decreases overlay
  {
    if overlay.Table? {
      SelfMerge(overlay);
      if base.Table? {
        var m := Merged(base, overlay);
        forall k | k in m.fields
          ensures Merged(m, overlay).fields[k] == m.fields[k]
        {
          if k in overlay.fields {
            if k in base.fields {
              ReapplyingIsIdle(base.fields[k], overlay.fields[k]);
            } else {
              SelfMerge(overlay.fields[k]);
            }
          }
        }
        assert Merged(m, overlay).fields == m.fields;
      }
    }
  }

  lemma {:induction false} SelfMerge(v: Value)
    ensures Merged(v, v) == v
  {
    if v.Table? {
      forall k | k in v.fields
        ensures Merged(v.fields[k], v.fields[k]) == v.fields[k]
      {
        SelfMerge(v.fields[k]);
      }
      assert Merged(v, v).fields == v.fields;
    }
  }

  /** Somewhere `a` has a key that `c` lacks, both being tables all the way there. */
  ghost predicate Shines(a: Value, c: Value)
    decreases c
  {
    a.Table? && c.Table? && exists k :: k in a.fields && (k in c.fields ==> Shines(a.fields[k], c.fields[k]))
  }

  /** A layer shows through under another exactly when it has a key the other lacks. */
  lemma {:induction false} ShinesExactly(a: Value, c: Value)
    ensures Merged(a, c) != c <==> Shines(a, c)
    decreases c
  {
    if a.Table? && c.Table? {
      var m := Merged(a, c);
      forall k | k in a.fields && k in c.fields
        ensures m.fields[k] != c.fields[k] <==> Shines(a.fields[k], c.fields[k])
      {
        ShinesExactly(a.fields[k], c.fields[k]);
      }
      if k :| k in a.fields && (k in c.fields ==> Shines(a.fields[k], c.fields[k])) {
        assert k in m.fields && (k in c.fields ==> m.fields[k] != c.fields[k]);
      } else {
        assert m.fields == c.fields;
      }
    }
  }

  /** Somewhere the three layers are table, non-table, table, and the lowest table has a key that
      the highest lacks. */
  ghost predicate Clash(a: Value, b: Value, c: Value)
    decreases c
  {
    a.Table? && c.Table? &&
    if b.Leaf? then Shines(a, c)
    else exists k :: k in a.fields && k in b.fields && k in c.fields && Clash(a.fields[k], b.fields[k], c.fields[k])
  }

  /** One field of three merged tables, from either end. */
  lemma FieldOfThree(a: Value, b: Value, c: Value, k: string)
    requires a.Table? && b.Table? && c.Table?
    ensures var l, r := Merged(Merged(a, b), c), Merged(a, Merged(b, c));
      && (k in l.fields <==> k in r.fields)
      && (k in l.fields ==> k in a.fields || k in b.fields || k in c.fields)
      && (k in l.fields && !(k in a.fields && k in b.fields && k in c.fields) ==> l.fields[k] == r.fields[k])
      && (k in a.fields && k in b.fields && k in c.fields ==>
           && l.fields[k] == Merged(Merged(a.fields[k], b.fields[k]), c.fields[k])
           && r.fields[k] == Merged(a.fields[k], Merged(b.fields[k], c.fields[k])))
  {
    var ab, bc := Merged(a, b), Merged(b, c);
    assert ab.Table? && bc.Table?;
  }

  /** Three layers merge the same from either end exactly when they do not clash. */
  lemma {:induction false} AssociativeExactly(a: Value, b: Value, c: Value)
    ensures Merged(Merged(a, b), c) == Merged(a, Merged(b, c)) <==> !Clash(a, b, c)
    decreases c
  {
    if a.Table? && b.Leaf? && c.Table? {
      ShinesExactly(a, c);
    } else if a.Table? && b.Table? && c.Table? {
      var l, r := Merged(Merged(a, b), c), Merged(a, Merged(b, c));
      assert l.fields.Keys == r.fields.Keys;
      forall k | k in l.fields
        ensures l.fields[k] == r.fields[k] <==>
          !(k in a.fields && k in b.fields && k in c.fields && Clash(a.fields[k], b.fields[k], c.fields[k]))
      {
        FieldOfThree(a, b, c, k);
        if k in a.fields && k in b.fields && k in c.fields {
          AssociativeExactly(a.fields[k], b.fields[k], c.fields[k]);
        }
      }
      hide Merged;
      if k :| k in a.fields && k in b.fields && k in c.fields && Clash(a.fields[k], b.fields[k], c.fields[k]) {
        assert l.fields[k] != r.fields[k];
      } else {
        assert l.fields == r.fields;
      }
    }
  }
}
