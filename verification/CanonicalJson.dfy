/** JSON values and the key-sorting `canonicalize` applied before hashing. */
module CanonicalJson {
  import opened Prelude
  import opened Text

  datatype Json =
    | Null
    | Bool(flag: bool)
    | Number(literal: string)
    | String(text: string)
    | Array(values: seq<Json>)
    | Object(entries: seq<Entry>)

  datatype Entry = Entry(key: string, value: Json)

  /** The value of a key; of repeated keys the last one counts, as when the
      entries are collected into a map. */
  function Lookup(entries: seq<Entry>, key: string): (r: Option<Json>)
    ensures r.Some? <==> exists i :: 0 <= i < |entries| && entries[i].key == key
    ensures r.Some? ==> exists i :: 0 <= i < |entries| && entries[i] == Entry(key, r.value) && IsLast(entries, key, i)
  {
    if entries == [] then
      None
    else
      var last := entries[|entries| - 1];
      var front := entries[..|entries| - 1];
      if last.key == key then Some(last.value) else Lookup(front, key)
  }

  /** The last entry with this key. */
  ghost predicate IsLast(entries: seq<Entry>, key: string, i: int) {
    && 0 <= i < |entries| && entries[i].key == key
    && forall j :: i < j < |entries| ==> entries[j].key != key
  }

  // ----- canonicalize -----

  function Canonicalize(v: Json): Json
    decreases v, 1
  {
    match v
    case Array(values) => Array(CanonicalizeAll(values))
    case Object(entries) => Object(InKeyOrder(Collected(entries)))
    case _ => v
  }

  function CanonicalizeAll(values: seq<Json>): (r: seq<Json>)
    ensures |r| == |values|
    ensures forall i :: 0 <= i < |r| ==> r[i] == Canonicalize(values[i])
    decreases values, 0
  {
    if values == [] then [] else [Canonicalize(values[0])] + CanonicalizeAll(values[1..])
  }

  /** The entries collected into a map, later ones replacing earlier ones. */
  function Collected(entries: seq<Entry>): (r: map<string, Json>)
    ensures forall k :: k in r <==> Lookup(entries, k).Some?
    ensures forall k :: k in r ==> r[k] == Canonicalize(Lookup(entries, k).value)
    decreases entries, 0
  {
    if entries == [] then
      map[]
    else
      var last := entries[|entries| - 1];
      Collected(entries[..|entries| - 1])[last.key := Canonicalize(last.value)]
  }

  /** A `BTreeMap` written out entry by entry. */
  function InKeyOrder(m: map<string, Json>): (r: seq<Entry>)
    ensures |r| == |m|
  {
    var keys := SortedKeys(m.Keys);
    assert forall k :: k in keys ==> k in Elements(keys);
    seq(|keys|, i requires 0 <= i < |keys| => Entry(keys[i], m[keys[i]]))
  }

  // ----- Same document -----

  /** Two values say the same: scalars are equal, arrays agree element by
      element, objects have the same keys with the same values. */
  ghost predicate Same(v: Json, w: Json)
    decreases v, 1
  {
    match (v, w)
    case (Array(vs), Array(ws)) => |vs| == |ws| && forall i :: 0 <= i < |vs| ==> Same(vs[i], ws[i])
    case (Object(vs), Object(ws)) => SameEntries(vs, ws)
    case _ => v == w
  }

  ghost predicate SameEntries(vs: seq<Entry>, ws: seq<Entry>)
    decreases vs, 0
  {
    && (forall k :: Lookup(vs, k).Some? <==> Lookup(ws, k).Some?)
    && (forall i :: 0 <= i < |vs| && Lookup(vs, vs[i].key) == Some(vs[i].value) ==>
         Same(vs[i].value, Lookup(ws, vs[i].key).value))
  }

  lemma {:induction false} LookupDistinct(entries: seq<Entry>, i: nat)
    requires i < |entries|
    requires forall a, b :: 0 <= a < b < |entries| ==> entries[a].key != entries[b].key
    ensures Lookup(entries, entries[i].key) == Some(entries[i].value)
    decreases |entries|
  {
    if i < |entries| - 1 {
      LookupDistinct(entries[..|entries| - 1], i);
    }
  }

  /** Writing a map out and looking a key up again gives the map's value. */
  lemma LookupInKeyOrder(m: map<string, Json>, key: string)
    ensures Lookup(InKeyOrder(m), key) == if key in m then Some(m[key]) else None
  {
    var entries := InKeyOrder(m);
    var keys := SortedKeys(m.Keys);
    SortedHasNoDuplicates(keys);
    if key in m {
      assert key in Elements(keys);
      var i :| 0 <= i < |keys| && keys[i] == key;
      LookupDistinct(entries, i);
    } else {
      forall i | 0 <= i < |entries|
        ensures entries[i].key in m
      {
        assert keys[i] in Elements(keys);
      }
    }
  }

  /** `canonicalize` preserves every key lookup. */
  lemma CanonicalizePreservesLookups(entries: seq<Entry>, key: string)
    ensures Canonicalize(Object(entries)).Object?
    ensures Lookup(Canonicalize(Object(entries)).entries, key)
            == match Lookup(entries, key) case None => None case Some(v) => Some(Canonicalize(v))
  {
    LookupInKeyOrder(Collected(entries), key);
  }

  function At(m: map<string, Json>, key: string): Option<Json> {
    if key in m then Some(m[key]) else None
  }

  lemma MapsAgree(m: map<string, Json>, n: map<string, Json>)
    requires forall k :: At(m, k) == At(n, k)
    ensures m == n
  {
    forall k
      ensures k in m <==> k in n
      ensures k in m ==> m[k] == n[k]
    {
      assert At(m, k) == At(n, k);
    }
    assert m.Keys == n.Keys;
  }

  lemma InKeyOrderInjective(m: map<string, Json>, n: map<string, Json>)
    ensures InKeyOrder(m) == InKeyOrder(n) ==> m == n
  {
    if InKeyOrder(m) == InKeyOrder(n) {
      forall k
        ensures At(m, k) == At(n, k)
      {
        LookupInKeyOrder(m, k);
        LookupInKeyOrder(n, k);
      }
      MapsAgree(m, n);
    }
  }

  lemma LookupShrinks(entries: seq<Entry>, key: string) returns (i: nat)
    requires Lookup(entries, key).Some?
    ensures i < |entries| && entries[i] == Entry(key, Lookup(entries, key).value)
  {
    i :| 0 <= i < |entries| && entries[i] == Entry(key, Lookup(entries, key).value);
  }

  /** Values that are not both arrays or both objects. */
  lemma ShapesDecide(v: Json, w: Json)
    requires !(v.Array? && w.Array?) && !(v.Object? && w.Object?)
    ensures Canonicalize(v) == Canonicalize(w) <==> Same(v, w)
  {
  }

  lemma ArraysDecide(vs: seq<Json>, ws: seq<Json>)
    requires forall i :: 0 <= i < |vs| && i < |ws| ==>
               (Canonicalize(vs[i]) == Canonicalize(ws[i]) <==> Same(vs[i], ws[i]))
    ensures Canonicalize(Array(vs)) == Canonicalize(Array(ws)) <==> Same(Array(vs), Array(ws))
  {
    var cv, cw := CanonicalizeAll(vs), CanonicalizeAll(ws);
    if cv == cw {
      forall i | 0 <= i < |vs|
        ensures Canonicalize(vs[i]) == Canonicalize(ws[i])
      {
        assert cv[i] == cw[i];
      }
    }
  }

  /** The claim for the values below two objects. */
  ghost predicate ValuesDecide(vs: seq<Entry>, ws: seq<Entry>) {
    forall i, x :: 0 <= i < |vs| && Lookup(ws, vs[i].key) == Some(x) ==>
      (Canonicalize(vs[i].value) == Canonicalize(x) <==> Same(vs[i].value, x))
  }

  lemma EqualCollectionsAreSame(vs: seq<Entry>, ws: seq<Entry>)
    requires ValuesDecide(vs, ws) && Collected(vs) == Collected(ws)
    ensures SameEntries(vs, ws)
  {
    forall k
      ensures Lookup(vs, k).Some? <==> Lookup(ws, k).Some?
    {
      assert k in Collected(vs) <==> k in Collected(ws);
    }
    forall i | 0 <= i < |vs| && Lookup(vs, vs[i].key) == Some(vs[i].value)
      ensures Same(vs[i].value, Lookup(ws, vs[i].key).value)
    {
      var k := vs[i].key;
      assert k in Collected(vs) && Collected(vs)[k] == Collected(ws)[k];
    }
  }

  lemma SameHaveEqualCollections(vs: seq<Entry>, ws: seq<Entry>)
    requires ValuesDecide(vs, ws) && SameEntries(vs, ws)
    ensures Collected(vs) == Collected(ws)
  {
    var cv, cw := Collected(vs), Collected(ws);
    assert cv.Keys == cw.Keys;
    forall k | k in cv
      ensures cv[k] == cw[k]
    {
      var i := LookupShrinks(vs, k);
      assert Same(vs[i].value, Lookup(ws, k).value);
    }
  }

  lemma EntriesDecide(vs: seq<Entry>, ws: seq<Entry>)
    requires ValuesDecide(vs, ws)
    ensures InKeyOrder(Collected(vs)) == InKeyOrder(Collected(ws)) <==> SameEntries(vs, ws)
  {
    InKeyOrderInjective(Collected(vs), Collected(ws));
    if Collected(vs) == Collected(ws) {
      EqualCollectionsAreSame(vs, ws);
    }
    if SameEntries(vs, ws) {
      SameHaveEqualCollections(vs, ws);
    }
  }

  lemma CanonicalObject(entries: seq<Entry>)
    ensures Canonicalize(Object(entries)) == Object(InKeyOrder(Collected(entries)))
  {
  }

  lemma SameObjects(vs: seq<Entry>, ws: seq<Entry>)
    ensures Same(Object(vs), Object(ws)) <==> SameEntries(vs, ws)
  {
  }

  lemma ObjectsDecide(vs: seq<Entry>, ws: seq<Entry>)
    requires ValuesDecide(vs, ws)
    ensures Canonicalize(Object(vs)) == Canonicalize(Object(ws)) <==> Same(Object(vs), Object(ws))
  {
    CanonicalObject(vs);
    CanonicalObject(ws);
    SameObjects(vs, ws);
    EntriesDecide(vs, ws);
  }

  lemma {:induction false} CanonicalDecides(v: Json, w: Json)
    ensures Canonicalize(v) == Canonicalize(w) <==> Same(v, w)
    decreases v
  {
    if v.Array? && w.Array? {
      forall i | 0 <= i < |v.values| && i < |w.values|
        ensures Canonicalize(v.values[i]) == Canonicalize(w.values[i]) <==> Same(v.values[i], w.values[i])
      {
        CanonicalDecides(v.values[i], w.values[i]);
      }
      ArraysDecide(v.values, w.values);
    } else if v.Object? && w.Object? {
      forall i, x | 0 <= i < |v.entries| && Lookup(w.entries, v.entries[i].key) == Some(x)
        ensures Canonicalize(v.entries[i].value) == Canonicalize(x) <==> Same(v.entries[i].value, x)
      {
        CanonicalDecides(v.entries[i].value, x);
      }
      ObjectsDecide(v.entries, w.entries);
    } else {
      ShapesDecide(v, w);
    }
  }

  // ----- Canonical documents -----

  /** Keys strictly sorted at every level. */
  ghost predicate SortedEverywhere(v: Json)
    decreases v, 1
  {
    match v
    case Array(values) => forall i :: 0 <= i < |values| ==> SortedEverywhere(values[i])
    case Object(entries) => SortedEntries(entries)
    case _ => true
  }

  ghost predicate SortedEntries(entries: seq<Entry>)
    decreases entries, 0
  {
    && (forall i, j :: 0 <= i < j < |entries| ==> LexLess(entries[i].key, entries[j].key))
    && (forall i :: 0 <= i < |entries| ==> SortedEverywhere(entries[i].value))
  }

  lemma EntriesStaySame(entries: seq<Entry>)
    requires forall i :: 0 <= i < |entries| ==> Same(entries[i].value, Canonicalize(entries[i].value))
    ensures SameEntries(entries, InKeyOrder(Collected(entries)))
  {
    var m := Collected(entries);
    forall k
      ensures Lookup(entries, k).Some? <==> Lookup(InKeyOrder(m), k).Some?
    {
      LookupInKeyOrder(m, k);
    }
    forall i | 0 <= i < |entries| && Lookup(entries, entries[i].key) == Some(entries[i].value)
      ensures Same(entries[i].value, Lookup(InKeyOrder(m), entries[i].key).value)
    {
      LookupInKeyOrder(m, entries[i].key);
    }
  }

  lemma WrittenValues(m: map<string, Json>)
    ensures forall i :: 0 <= i < |InKeyOrder(m)| ==>
              InKeyOrder(m)[i].key in m && InKeyOrder(m)[i].value == m[InKeyOrder(m)[i].key]
  {
    var keys := SortedKeys(m.Keys);
    forall i | 0 <= i < |keys|
      ensures keys[i] in m
    {
      assert keys[i] in Elements(keys);
    }
  }

  lemma EntriesBecomeSorted(entries: seq<Entry>)
    requires forall i :: 0 <= i < |entries| ==> SortedEverywhere(Canonicalize(entries[i].value))
    ensures SortedEntries(InKeyOrder(Collected(entries)))
  {
    var m := Collected(entries);
    WrittenValues(m);
    forall k | k in m
      ensures SortedEverywhere(m[k])
    {
      var j := LookupShrinks(entries, k);
    }
  }

  lemma {:induction false} CanonicalizeSame(v: Json)
    ensures Same(v, Canonicalize(v))
    ensures SortedEverywhere(Canonicalize(v))
    decreases v
  {
    match v {
      case Array(values) =>
        forall i | 0 <= i < |values|
          ensures Same(values[i], Canonicalize(values[i])) && SortedEverywhere(Canonicalize(values[i]))
        {
          CanonicalizeSame(values[i]);
        }
      case Object(entries) =>
        forall i | 0 <= i < |entries|
          ensures Same(entries[i].value, Canonicalize(entries[i].value))
                  && SortedEverywhere(Canonicalize(entries[i].value))
        {
          CanonicalizeSame(entries[i].value);
        }
        EntriesStaySame(entries);
        EntriesBecomeSorted(entries);
      case _ =>
    }
  }

  /** `canonicalize` picks one representative of each document: it keeps the
      meaning, sorts every level, is idempotent, and maps two documents to the
      same value exactly when they differ in key order (or shadowed entries). */
  lemma CanonicalizeIsCanonical(v: Json, w: Json)
    ensures Canonicalize(v) == Canonicalize(w) <==> Same(v, w)
    ensures Same(v, Canonicalize(v)) && SortedEverywhere(Canonicalize(v))
    ensures Canonicalize(Canonicalize(v)) == Canonicalize(v)
  {
    CanonicalDecides(v, w);
    CanonicalizeSame(v);
    CanonicalDecides(v, Canonicalize(v));
  }
}
