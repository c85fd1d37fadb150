/** Python's `dict`: a finite map that remembers the order in which its keys
    were first inserted, which is the order `keys()` and `items()` list them. */
module Dicts {
  import opened Seqs

  datatype Dict<K(==, !new), V> = Dict(keys: seq<K>, values: map<K, V>)
  {
    /** Each key is listed once, and the listed keys are the map's keys. */
    ghost predicate Valid()
    {
      NoDuplicates(keys) && forall k :: k in keys <==> k in values
    }

    /** `d[k] = v`: the entry for `k` becomes `v`; a new key is listed last, a
        key already present keeps its place. */
    function Put(k: K, v: V): (r: Dict<K, V>)
      requires Valid()
      ensures r.Valid()
      ensures r.values == values[k := v]
      ensures |r.keys| == |keys| + (if k in values then 0 else 1)
      ensures r.keys[..|keys|] == keys
      ensures k !in values ==> r.keys == keys + [k]
    {
      if k in values then Dict(keys, values[k := v])
      else
        assert forall i :: 0 <= i < |keys| ==> keys[i] in keys;
        Dict(keys + [k], values[k := v])
    }
  }

  /** `{}`. */
  function Empty<K(==, !new), V>(): (d: Dict<K, V>)
    ensures d.Valid() && d.keys == [] && d.values == map[]
  {
    Dict([], map[])
  }

  /** `for k in ks: d[k] = vals[k]`. */
  function PutAll<K(==, !new), V>(d: Dict<K, V>, ks: seq<K>, vals: map<K, V>): (r: Dict<K, V>)
    requires d.Valid()
    requires forall k :: k in ks ==> k in vals
    ensures r.Valid()
    ensures forall k :: k in r.values <==> k in d.values || k in ks
    ensures forall k :: k in r.values ==> r.values[k] == if k in ks then vals[k] else d.values[k]
    ensures |r.keys| >= |d.keys| && r.keys[..|d.keys|] == d.keys
    decreases |ks|
  {
    if ks == [] then d
    else
      var next := d.Put(ks[0], vals[ks[0]]);
      var r := PutAll(next, ks[1..], vals);
      assert forall k :: k in ks <==> k == ks[0] || k in ks[1..];
      assert r.keys[..|d.keys|] == r.keys[..|next.keys|][..|d.keys|];
      r
  }

  /** Storing keys that are new, each once, lists them after the old keys in
      the order they are stored. */
  lemma {:induction false} PutAllAppends<K(!new), V>(d: Dict<K, V>, ks: seq<K>, vals: map<K, V>)
    requires d.Valid()
    requires forall k :: k in ks ==> k in vals
    requires NoDuplicates(ks) && forall k :: k in ks ==> k !in d.values
    ensures PutAll(d, ks, vals).keys == d.keys + ks
    decreases |ks|
  {
    if ks != [] {
      var next := d.Put(ks[0], vals[ks[0]]);
      assert next.keys == d.keys + [ks[0]];
      assert NoDuplicates(ks[1..]) && forall k :: k in ks[1..] ==> k !in next.values by {
        forall k | k in ks[1..] ensures k !in next.values {
          var i :| 0 <= i < |ks[1..]| && ks[1..][i] == k;
          assert ks[i + 1] == k && ks[0] != k;
        }
      }
      calc {
        PutAll(d, ks, vals).keys;
        PutAll(next, ks[1..], vals).keys;
        { PutAllAppends(next, ks[1..], vals); }
        next.keys + ks[1..];
        d.keys + [ks[0]] + ks[1..];
        { assert [ks[0]] + ks[1..] == ks; }
        d.keys + ks;
      }
    }
  }
}
