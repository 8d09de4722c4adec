/** Python's `dict` as a value: the keys in first-insertion order together
    with the value each key currently holds. Assigning to an existing key
    replaces its value and keeps its position; a new key goes last. */
module Dicts {
  import opened Wrappers

  datatype Dict<K(==, !new), V> = Dict(keys: seq<K>, entries: map<K, V>)
  {
    /** Keys are listed once each, and exactly the keys that hold a value. */
    ghost predicate Valid()
    {
      (forall i, j :: 0 <= i < j < |keys| ==> keys[i] != keys[j])
      && (forall k :: k in entries <==> k in keys)
    }

    /** `d.get(k)`. */
    function Get(k: K): Option<V>
    {
      if k in entries then Some(entries[k]) else None
    }

    /** `d[k] = v`. */
    function Put(k: K, v: V): (r: Dict<K, V>)
      requires Valid()
      ensures r.Valid()
      ensures r.entries == entries[k := v]
      ensures r.keys == if k in entries then keys else keys + [k]
    {
      if k in entries then Dict(keys, entries[k := v]) else Dict(keys + [k], entries[k := v])
    }

    /** `list(d.values())`. */
    function Values(): (r: seq<V>)
      requires Valid()
      ensures |r| == |keys|
      ensures forall i :: 0 <= i < |r| ==> r[i] == entries[keys[i]]
    {
      seq(|keys|, i requires 0 <= i < |keys| => entries[keys[i]])
    }
  }

  /** `{k: v for k, v in pairs}`, filled left to right. */
  function FromPairs<K(==, !new), V>(pairs: seq<(K, V)>): (d: Dict<K, V>)
    ensures d.Valid()
    ensures forall k :: k in d.entries <==> exists i :: 0 <= i < |pairs| && pairs[i].0 == k
  {
    if pairs == [] then Dict([], map[])
    else
      var last := pairs[|pairs| - 1];
      var d := FromPairs(pairs[..|pairs| - 1]).Put(last.0, last.1);
      assert forall i :: 0 <= i < |pairs| - 1 ==> pairs[..|pairs| - 1][i] == pairs[i];
      d
  }

  /** The value a key ends up with is the one its last pair gives. */
  lemma {:induction false} FromPairsLastWins<K(!new), V>(pairs: seq<(K, V)>, j: nat)
    requires j < |pairs|
    requires forall l :: j < l < |pairs| ==> pairs[l].0 != pairs[j].0
    ensures pairs[j].0 in FromPairs(pairs).entries
    ensures FromPairs(pairs).entries[pairs[j].0] == pairs[j].1
    decreases |pairs|
  {
    if j < |pairs| - 1 {
      var init := pairs[..|pairs| - 1];
      FromPairsLastWins(init, j);
      assert init[j] == pairs[j];
    }
  }

  /** The number of distinct keys never exceeds the number of pairs. */
  lemma {:induction false} FromPairsSize<K(!new), V>(pairs: seq<(K, V)>)
    ensures |FromPairs(pairs).keys| <= |pairs|
  {
    if pairs != [] {
      FromPairsSize(pairs[..|pairs| - 1]);
    }
  }

  /** No pair after index `i` has key `k`. */
  ghost predicate LastFor<K, V>(pairs: seq<(K, V)>, i: int, k: K)
  {
    forall l :: 0 <= i < l < |pairs| ==> pairs[l].0 != k
  }

  /** Every entry is the value of the last pair with that key. */
  lemma {:induction false} FromPairsFromLast<K(!new), V>(pairs: seq<(K, V)>, k: K)
    requires k in FromPairs(pairs).entries
    ensures exists i :: 0 <= i < |pairs| && pairs[i] == (k, FromPairs(pairs).entries[k]) && LastFor(pairs, i, k)
  {
    var n := |pairs| - 1;
    var init := pairs[..n];
    FromPairsSnoc(pairs);
    if pairs[n].0 == k {
      assert pairs[n] == (k, FromPairs(pairs).entries[k]) && LastFor(pairs, n, k);
    } else {
      FromPairsFromLast(init, k);
      var i :| 0 <= i < |init| && init[i] == (k, FromPairs(init).entries[k]) && LastFor(init, i, k);
      LastForSnoc(pairs, i, k);
    }
  }

  /** The last pair is put on top of the dictionary of the pairs before it. */
  lemma FromPairsSnoc<K(!new), V>(pairs: seq<(K, V)>)
    requires pairs != []
    ensures var n := |pairs| - 1;
      FromPairs(pairs).entries == FromPairs(pairs[..n]).entries[pairs[n].0 := pairs[n].1]
  {
  }

  /** A pair last for its key among all but the final pair stays last when
      the final pair has another key. */
  lemma LastForSnoc<K, V>(pairs: seq<(K, V)>, i: nat, k: K)
    requires i < |pairs| - 1 && pairs[|pairs| - 1].0 != k
    requires LastFor(pairs[..|pairs| - 1], i, k)
    ensures pairs[i] == pairs[..|pairs| - 1][i] && LastFor(pairs, i, k)
  {
    var init := pairs[..|pairs| - 1];
    forall l | i < l < |pairs| ensures pairs[l].0 != k {
      if l < |pairs| - 1 {
        assert pairs[l] == init[l];
      }
    }
  }

  /** The pairs `(key(r), r)` of a list of records. */
  function Keyed<R, K>(rows: seq<R>, key: R -> K): (p: seq<(K, R)>)
    ensures |p| == |rows|
    ensures forall i :: 0 <= i < |rows| ==> p[i] == (key(rows[i]), rows[i])
  {
    seq(|rows|, i requires 0 <= i < |rows| => (key(rows[i]), rows[i]))
  }

  /** `list({key(r): r for r in rows}.values())`: one record per key. */
  function Deduplicated<R, K(==, !new)>(rows: seq<R>, key: R -> K): seq<R>
  {
    FromPairs(Keyed(rows, key)).Values()
  }

  /** Record `i` is the last one with its key. */
  ghost predicate LastOfKey<R, K>(rows: seq<R>, key: R -> K, i: int)
    requires 0 <= i < |rows|
  {
    forall l :: i < l < |rows| ==> key(rows[l]) != key(rows[i])
  }

  /** Record `j` of the de-duplicated list carries key `j` of the dictionary
      and is the last input record with that key. */
  lemma DeduplicatedEntry<R, K(!new)>(rows: seq<R>, key: R -> K, j: nat)
    requires j < |Deduplicated(rows, key)|
    ensures key(Deduplicated(rows, key)[j]) == FromPairs(Keyed(rows, key)).keys[j]
    ensures exists i :: 0 <= i < |rows| && Deduplicated(rows, key)[j] == rows[i] && LastOfKey(rows, key, i)
  {
    var pairs := Keyed(rows, key);
    var dict := FromPairs(pairs);
    var k := dict.keys[j];
    FromPairsFromLast(pairs, k);
    var i :| 0 <= i < |pairs| && pairs[i] == (k, dict.entries[k]) && LastFor(pairs, i, k);
    assert Deduplicated(rows, key)[j] == rows[i];
    assert LastOfKey(rows, key, i) by {
      forall l | i < l < |rows| ensures key(rows[l]) != key(rows[i]) {
        assert pairs[l].0 == key(rows[l]);
      }
    }
  }

  /** De-duplication keeps no more records than it was given, one per key,
      every key of the input, and for each key the last record holding it. */
  lemma DeduplicatedProperties<R, K(!new)>(rows: seq<R>, key: R -> K)
    ensures |Deduplicated(rows, key)| <= |rows|
    ensures var d := Deduplicated(rows, key);
      forall i, j :: 0 <= i < j < |d| ==> key(d[i]) != key(d[j])
    ensures var d := Deduplicated(rows, key);
      forall i :: 0 <= i < |rows| ==> exists j :: 0 <= j < |d| && key(d[j]) == key(rows[i])
    ensures var d := Deduplicated(rows, key);
      forall j :: 0 <= j < |d| ==> exists i :: 0 <= i < |rows| && d[j] == rows[i] && LastOfKey(rows, key, i)
  {
    var pairs := Keyed(rows, key);
    var dict := FromPairs(pairs);
    var d := Deduplicated(rows, key);
    FromPairsSize(pairs);
    forall j | 0 <= j < |d|
      ensures key(d[j]) == dict.keys[j]
      ensures exists i :: 0 <= i < |rows| && d[j] == rows[i] && LastOfKey(rows, key, i)
    {
      DeduplicatedEntry(rows, key, j);
    }
    forall i | 0 <= i < |rows|
      ensures exists j :: 0 <= j < |d| && key(d[j]) == key(rows[i])
    {
      assert pairs[i].0 == key(rows[i]);
      assert key(rows[i]) in dict.entries;
      assert key(rows[i]) in dict.keys;
      var j :| 0 <= j < |dict.keys| && dict.keys[j] == key(rows[i]);
      assert key(d[j]) == dict.keys[j];
    }
  }
}
