/**
  A Python dict with str keys: a map together with the order in which its keys were first inserted.
  Assigning to an existing key keeps its position; a new key goes to the end.
 */
module OrderedMaps {
  import opened Wrappers

  datatype OrderedMap<V> = OrderedMap(keys: seq<string>, entries: map<string, V>) {

    /** Every key appears once in the order, and the order holds exactly the keys of the map. */
    ghost predicate Valid() {
      && (forall i, j :: 0 <= i < j < |keys| ==> keys[i] != keys[j])
      && (forall k :: k in entries <==> k in keys)
    }

    /** d.get(k) */
    function Get(k: string): Option<V> {
      if k in entries then Some(entries[k]) else None
    }

    /** d[k] = v */
    function Put(k: string, v: V): (r: OrderedMap<V>)
      ensures r.Get(k) == Some(v)
      ensures forall k' :: k' != k ==> r.Get(k') == Get(k')
      ensures |keys| <= |r.keys| && r.keys[..|keys|] == keys
      ensures |r.keys| == if k in entries then |keys| else |keys| + 1
      ensures Valid() ==> r.Valid()
    {
      OrderedMap(if k in entries then keys else keys + [k], entries[k := v])
    }

    /** d.values(), in key order. */
    function Values(): (vs: seq<V>)
      requires Valid()
      ensures |vs| == |keys|
      ensures forall i :: 0 <= i < |keys| ==> keys[i] in entries && vs[i] == entries[keys[i]]
    {
      seq(|keys|, i requires 0 <= i < |keys| => entries[keys[i]])
    }
  }

  /** {} */
  function Empty<V>(): (m: OrderedMap<V>)
    ensures m.Valid() && m.keys == [] && forall k :: m.Get(k) == None
  {
    OrderedMap([], map[])
  }

  /** A sequence without repeats has as many distinct elements as it is long. */
  lemma {:induction false} DistinctCount(s: seq<string>)
    requires forall i, j :: 0 <= i < j < |s| ==> s[i] != s[j]
    ensures |set x | x in s| == |s|
  {
    if s != [] {
      var n := |s|;
      var init := s[..n - 1];
      DistinctCount(init);
      assert (set x | x in s) == (set x | x in init) + {s[n - 1]};
      assert s[n - 1] !in init;
    }
  }

  /** len(d) is the number of keys in the order. */
  lemma SizeIsKeyCount<V>(m: OrderedMap<V>)
    requires m.Valid()
    ensures |m.entries| == |m.keys|
  {
    DistinctCount(m.keys);
    assert m.entries.Keys == set x | x in m.keys;
  }
}
