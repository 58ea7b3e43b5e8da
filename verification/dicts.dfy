/**
 * Python dictionaries remember the order in which their keys were first
 * inserted, and the report code iterates them in that order.  A `Dict` pairs
 * that order with the mapping itself.
 */
module Dicts {
  import opened Seqs

  datatype Dict<K(==,!new), V> = Dict(keys: seq<K>, items: map<K, V>)
  {
    /** Every key is listed exactly once, and exactly the mapped keys are listed. */
    ghost predicate Valid()
    {
      && (forall i, j :: 0 <= i < j < |keys| ==> keys[i] != keys[j])
      && (forall k :: k in items <==> k in keys)
    }

    /** `d[k] = v`: an existing key keeps its place, a new key goes last. */
    function Put(k: K, v: V): (d: Dict<K, V>)
      requires Valid()
      ensures d.Valid()
      ensures d.items == items[k := v]
      ensures k in items ==> d.keys == keys
      ensures k !in items ==> d.keys == keys + [k]
    {
      if k in items then Dict(keys, items[k := v]) else Dict(keys + [k], items[k := v])
    }

    /**
     * `{k: v for k, v in d.items() if keep(k, v)}`: the kept entries, in
     * their original order.
     */
    function Filter(keep: (K, V) -> bool): (d: Dict<K, V>)
      requires Valid()
      ensures d.Valid()
      ensures forall k :: k in d.items <==> k in items && keep(k, items[k])
      ensures forall k :: k in d.items ==> d.items[k] == items[k]
      ensures d.keys == FilterKeys(keys, items, keep)
    {
      var ks := FilterKeys(keys, items, keep);
      Dict(ks, map k | k in ks :: items[k])
    }

    /** `d.get(k, default)`. */
    function GetOr(k: K, default: V): V
    {
      if k in items then items[k] else default
    }
  }

  /** The keys of `ks` whose entry in `m` is kept, in order. */
  function FilterKeys<K(==,!new), V>(ks: seq<K>, m: map<K, V>, keep: (K, V) -> bool): (r: seq<K>)
    requires forall i :: 0 <= i < |ks| ==> ks[i] in m
    ensures (forall i, j :: 0 <= i < j < |ks| ==> ks[i] != ks[j]) ==> forall i, j :: 0 <= i < j < |r| ==> r[i] != r[j]
    ensures forall k :: k in r <==> k in ks && keep(k, m[k])
    ensures |r| <= |ks|
  {
    if ks == [] then []
    else
      var init := FilterKeys(ks[..|ks| - 1], m, keep);
      var k := ks[|ks| - 1];
      assert forall x :: x in ks <==> x in ks[..|ks| - 1] || x == k;
      if keep(k, m[k]) then init + [k] else init
  }

  /** Which keys of `ks` are kept, position by position. */
  function KeptMarks<K(==,!new), V>(ks: seq<K>, m: map<K, V>, keep: (K, V) -> bool): (r: seq<bool>)
    requires forall i :: 0 <= i < |ks| ==> ks[i] in m
    ensures |r| == |ks| && forall i :: 0 <= i < |ks| ==> r[i] == keep(ks[i], m[ks[i]])
  {
    if ks == [] then [] else KeptMarks(ks[..|ks| - 1], m, keep) + [keep(ks[|ks| - 1], m[ks[|ks| - 1]])]
  }

  /** One more key: it is appended exactly when it is kept. */
  lemma FilterKeysSnoc<K(!new), V>(ks: seq<K>, m: map<K, V>, keep: (K, V) -> bool)
    requires ks != []
    requires forall i :: 0 <= i < |ks| ==> ks[i] in m
    ensures var n := |ks| - 1;
      FilterKeys(ks, m, keep) == FilterKeys(ks[..n], m, keep) + (if keep(ks[n], m[ks[n]]) then [ks[n]] else [])
  { }

  /**
   * The kept keys are the keys at the positions whose entry is kept, in the
   * original key order.
   */
  lemma {:induction false} FilterKeysOrder<K(!new), V>(ks: seq<K>, m: map<K, V>, keep: (K, V) -> bool)
    requires forall i :: 0 <= i < |ks| ==> ks[i] in m
    ensures FilterKeys(ks, m, keep) == Select(ks, Positions(KeptMarks(ks, m, keep)))
  {
    if ks != [] {
      var n := |ks| - 1;
      var init, k := ks[..n], ks[n];
      var marks := KeptMarks(ks, m, keep);
      calc {
        FilterKeys(ks, m, keep);
        { FilterKeysSnoc(ks, m, keep); }
        FilterKeys(init, m, keep) + (if marks[n] then [k] else []);
        { FilterKeysOrder(init, m, keep);
          assert marks[..n] == KeptMarks(init, m, keep); }
        Select(init, Positions(marks[..n])) + (if marks[n] then [k] else []);
        { SelectStep(ks, marks); }
        Select(ks, Positions(marks));
      }
    }
  }

  /** `len(d)`: a valid dict lists each of its keys once, so it has as many keys as entries. */
  lemma KeysCount<K(!new), V>(d: Dict<K, V>)
    ensures d.Valid() ==> |d.keys| == |d.items|
  {
    if d.Valid() {
      DistinctCard(d.keys);
      assert d.items.Keys == set k | k in d.keys;
    }
  }

  /** A sequence without repeats has as many distinct elements as positions. */
  lemma {:induction false} DistinctCard<K>(ks: seq<K>)
    requires forall i, j :: 0 <= i < j < |ks| ==> ks[i] != ks[j]
    ensures |set k | k in ks| == |ks|
  {
    if ks != [] {
      var n := |ks| - 1;
      DistinctCard(ks[..n]);
      assert (set k | k in ks) == (set k | k in ks[..n]) + {ks[n]};
      assert ks[n] !in (set k | k in ks[..n]);
    }
  }

  /** `{}`. */
  function Empty<K(==,!new), V>(): (d: Dict<K, V>)
    ensures d.Valid() && d.keys == [] && d.items == map[]
  {
    Dict([], map[])
  }
}
