/** `INSERT … VALUES %s ON CONFLICT (<key>) DO UPDATE SET …` as used by every
    loader: a table is a map from primary key to row, and each inserted row
    replaces or adds the entry under its key. */
module Upserts {
  import opened Dicts

  /** No two rows of the batch share a primary key; PostgreSQL refuses a batch
      that would update the same row twice. */
  ghost predicate DistinctKeys<R, K>(rows: seq<R>, key: R -> K)
  {
    forall i, j :: 0 <= i < j < |rows| ==> key(rows[i]) != key(rows[j])
  }

  /** The table after upserting `rows`. */
  function Upsert<R, K(!new)>(t: map<K, R>, rows: seq<R>, key: R -> K): (r: map<K, R>)
    requires DistinctKeys(rows, key)
    ensures forall k :: k in r <==> k in t || exists i :: 0 <= i < |rows| && key(rows[i]) == k
    ensures forall i :: 0 <= i < |rows| ==> r[key(rows[i])] == rows[i]
    ensures forall k :: k in t && (forall i :: 0 <= i < |rows| ==> key(rows[i]) != k) ==> r[k] == t[k]
  {
    if rows == [] then t
    else
      var n := |rows| - 1;
      var init := rows[..n];
      assert forall i :: 0 <= i < n ==> init[i] == rows[i];
      Upsert(t, init, key)[key(rows[n]) := rows[n]]
  }

  /** Upserting the de-duplicated batch stores, under every key of the input,
      the last input row with that key, and leaves every other entry alone. */
  lemma UpsertDeduplicated<R, K(!new)>(t: map<K, R>, rows: seq<R>, key: R -> K)
    ensures DistinctKeys(Deduplicated(rows, key), key)
    ensures var r := Upsert(t, Deduplicated(rows, key), key);
      forall k :: k in r <==> k in t || exists i :: 0 <= i < |rows| && key(rows[i]) == k
    ensures var r := Upsert(t, Deduplicated(rows, key), key);
      forall i :: 0 <= i < |rows| && LastOfKey(rows, key, i) ==> key(rows[i]) in r && r[key(rows[i])] == rows[i]
    ensures var r := Upsert(t, Deduplicated(rows, key), key);
      forall k :: k in t && (forall i :: 0 <= i < |rows| ==> key(rows[i]) != k) ==> r[k] == t[k]
  {
    DeduplicatedProperties(rows, key);
    UpsertDeduplicatedKeys(t, rows, key);
    UpsertDeduplicatedLast(t, rows, key);
    UpsertDeduplicatedOthers(t, rows, key);
  }

  lemma UpsertDeduplicatedKeys<R, K(!new)>(t: map<K, R>, rows: seq<R>, key: R -> K)
    requires DistinctKeys(Deduplicated(rows, key), key)
    ensures var r := Upsert(t, Deduplicated(rows, key), key);
      forall k :: k in r <==> k in t || exists i :: 0 <= i < |rows| && key(rows[i]) == k
  {
    var d := Deduplicated(rows, key);
    DeduplicatedProperties(rows, key);
    var r := Upsert(t, d, key);
    forall k | k in r
      ensures k in t || exists i :: 0 <= i < |rows| && key(rows[i]) == k
    {
      if k !in t {
        var j :| 0 <= j < |d| && key(d[j]) == k;
        var i :| 0 <= i < |rows| && d[j] == rows[i] && LastOfKey(rows, key, i);
      }
    }
  }

  lemma UpsertDeduplicatedLast<R, K(!new)>(t: map<K, R>, rows: seq<R>, key: R -> K)
    requires DistinctKeys(Deduplicated(rows, key), key)
    ensures var r := Upsert(t, Deduplicated(rows, key), key);
      forall i :: 0 <= i < |rows| && LastOfKey(rows, key, i) ==> key(rows[i]) in r && r[key(rows[i])] == rows[i]
  {
    var d := Deduplicated(rows, key);
    DeduplicatedProperties(rows, key);
    var r := Upsert(t, d, key);
    UpsertDeduplicatedKeys(t, rows, key);
    forall i | 0 <= i < |rows| && LastOfKey(rows, key, i)
      ensures key(rows[i]) in r && r[key(rows[i])] == rows[i]
    {
      var j :| 0 <= j < |d| && key(d[j]) == key(rows[i]);
      var i' :| 0 <= i' < |rows| && d[j] == rows[i'] && LastOfKey(rows, key, i');
      assert i' == i;
    }
  }

  lemma UpsertDeduplicatedOthers<R, K(!new)>(t: map<K, R>, rows: seq<R>, key: R -> K)
    requires DistinctKeys(Deduplicated(rows, key), key)
    ensures var r := Upsert(t, Deduplicated(rows, key), key);
      forall k :: k in t && (forall i :: 0 <= i < |rows| ==> key(rows[i]) != k) ==> r[k] == t[k]
  {
    var d := Deduplicated(rows, key);
    DeduplicatedProperties(rows, key);
    var r := Upsert(t, d, key);
    forall k | k in t && (forall i :: 0 <= i < |rows| ==> key(rows[i]) != k)
      ensures r[k] == t[k]
    {
      NotInDeduplicated(rows, key, k);
    }
  }

  /** A key no input row has is the key of no de-duplicated row. */
  lemma NotInDeduplicated<R, K(!new)>(rows: seq<R>, key: R -> K, k: K)
    requires forall i :: 0 <= i < |rows| ==> key(rows[i]) != k
    ensures forall j :: 0 <= j < |Deduplicated(rows, key)| ==> key(Deduplicated(rows, key)[j]) != k
  {
    var d := Deduplicated(rows, key);
    forall j | 0 <= j < |d| ensures key(d[j]) != k {
      DeduplicatedEntry(rows, key, j);
    }
  }

  // ---------------------------------------------------------------------
  // Pages

  /** `execute_values` sends its rows in pages of this many (its default
      `page_size`), one INSERT statement per page. */
  const PageSize: nat := 100

  /** How an `execute_values` call ends on a connection in autocommit mode:
      every page is stored, or the statement of page `page` (counting from 0)
      fails after the pages before it have already been stored. */
  datatype Outcome = AllPages | FailsAtPage(page: nat)

  /** Whether sending `n` rows raises: only a page that is sent can fail. */
  predicate Interrupted(o: Outcome, n: nat)
  {
    o.FailsAtPage? && o.page * PageSize < n
  }

  /** The rows whose pages were stored when the call ended: whole pages from
      the front, and all of them exactly when nothing raised. */
  function Sent<R>(rows: seq<R>, o: Outcome): (r: seq<R>)
    ensures r <= rows
    ensures r == rows <==> !Interrupted(o, |rows|)
    ensures Interrupted(o, |rows|) ==> |r| == o.page * PageSize && |r| % PageSize == 0
  {
    if Interrupted(o, |rows|) then rows[..o.page * PageSize] else rows
  }

  /** A slice of a batch with distinct keys has distinct keys. */
  lemma DistinctSlice<R, K>(rows: seq<R>, key: R -> K, i: nat, j: nat)
    requires DistinctKeys(rows, key) && i <= j <= |rows|
    ensures DistinctKeys(rows[i..j], key)
  {
    var s := rows[i..j];
    forall a, b | 0 <= a < b < |s| ensures key(s[a]) != key(s[b]) {
      assert s[a] == rows[i + a] && s[b] == rows[i + b];
    }
  }

  /** The table after `execute_values` of `rows` ends with outcome `o`. */
  function UpsertPages<R, K(!new)>(t: map<K, R>, rows: seq<R>, key: R -> K, o: Outcome): (r: map<K, R>)
    requires DistinctKeys(rows, key)
    ensures !Interrupted(o, |rows|) ==> r == Upsert(t, rows, key)
    ensures Interrupted(o, |rows|) ==> r == Upsert(t, rows[..o.page * PageSize], key)
  {
    DistinctSlice(rows, key, 0, |Sent(rows, o)|);
    assert rows[0..|Sent(rows, o)|] == Sent(rows, o);
    Upsert(t, Sent(rows, o), key)
  }

  /** Upserting a batch page by page: the rows of the first pages, then the
      rest, give the same table as the whole batch at once. So a failed call
      leaves a table from which sending the unsent rows completes the upsert. */
  lemma UpsertResume<R, K(!new)>(t: map<K, R>, rows: seq<R>, key: R -> K, k: nat)
    requires DistinctKeys(rows, key) && k <= |rows|
    ensures DistinctKeys(rows[..k], key) && DistinctKeys(rows[k..], key)
    ensures Upsert(Upsert(t, rows[..k], key), rows[k..], key) == Upsert(t, rows, key)
  {
    SplitDistinct(rows, key, k);
    var a := Upsert(Upsert(t, rows[..k], key), rows[k..], key);
    var b := Upsert(t, rows, key);
    forall x ensures (x in a <==> x in b) && (x in a ==> a[x] == b[x]) {
      ResumeAt(t, rows, key, k, x);
    }
  }

  lemma SplitDistinct<R, K>(rows: seq<R>, key: R -> K, k: nat)
    requires DistinctKeys(rows, key) && k <= |rows|
    ensures DistinctKeys(rows[..k], key) && DistinctKeys(rows[k..], key)
  {
    DistinctSlice(rows, key, 0, k);
    DistinctSlice(rows, key, k, |rows|);
    assert rows[0..k] == rows[..k] && rows[k..|rows|] == rows[k..];
  }

  /** Both sides agree on one key: a row's key holds that row on both, and
      any other key holds what the table held. */
  lemma ResumeAt<R, K(!new)>(t: map<K, R>, rows: seq<R>, key: R -> K, k: nat, x: K)
    requires DistinctKeys(rows, key) && k <= |rows|
    requires DistinctKeys(rows[..k], key) && DistinctKeys(rows[k..], key)
    ensures var a := Upsert(Upsert(t, rows[..k], key), rows[k..], key);
      var b := Upsert(t, rows, key);
      (x in a <==> x in b) && (x in a ==> a[x] == b[x])
  {
    var front := rows[..k];
    var back := rows[k..];
    if i :| 0 <= i < |rows| && key(rows[i]) == x {
      if i < k {
        assert front[i] == rows[i];
        forall j | 0 <= j < |back| ensures key(back[j]) != x {
          assert back[j] == rows[k + j];
        }
      } else {
        assert back[i - k] == rows[i];
      }
    } else {
      forall j | 0 <= j < |front| ensures key(front[j]) != x {
        assert front[j] == rows[j];
      }
      forall j | 0 <= j < |back| ensures key(back[j]) != x {
        assert back[j] == rows[k + j];
      }
    }
  }

  /** What a call that raises at page `p` leaves: every row of the pages
      before it is stored under its key; the key of every later row holds what
      it held before, or is still absent; and sending the later rows would
      give the table of a call that does not raise. */
  lemma FailedPages<R, K(!new)>(t: map<K, R>, rows: seq<R>, key: R -> K, o: Outcome)
    requires DistinctKeys(rows, key) && Interrupted(o, |rows|)
    ensures var p := o.page * PageSize; var r := UpsertPages(t, rows, key, o);
      (forall i :: 0 <= i < p ==> key(rows[i]) in r && r[key(rows[i])] == rows[i])
      && (forall i :: p <= i < |rows| ==> (key(rows[i]) in r <==> key(rows[i]) in t))
      && (forall i :: p <= i < |rows| && key(rows[i]) in t ==> r[key(rows[i])] == t[key(rows[i])])
      && DistinctKeys(rows[p..], key)
      && Upsert(r, rows[p..], key) == UpsertPages(t, rows, key, AllPages)
  {
    var p := o.page * PageSize;
    var sent := rows[..p];
    var r := UpsertPages(t, rows, key, o);
    UpsertResume(t, rows, key, p);
    forall i | 0 <= i < p ensures key(rows[i]) in r && r[key(rows[i])] == rows[i] {
      assert sent[i] == rows[i];
    }
    forall i | p <= i < |rows| ensures key(rows[i]) in r <==> key(rows[i]) in t {
      forall j | 0 <= j < p ensures key(sent[j]) != key(rows[i]) {
        assert sent[j] == rows[j];
      }
    }
  }
}
