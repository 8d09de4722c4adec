/** `_make_key`, the cache key of the TwelveData wrappers: the keyword
    arguments as `name=value` parts in sorted name order, joined by `|`. */
module Cache {
  import opened Text
  import opened Dicts
  import Seqs

  /** Python's `<` on `str`: code point by code point, and a proper prefix
      comes first. */
  predicate Less(a: string, b: string)
    decreases |a|
  {
    if a == [] then b != []
    else if b == [] then false
    else if a[0] != b[0] then a[0] < b[0]
    else Less(a[1..], b[1..])
  }

  lemma {:induction false} LessIrreflexive(a: string)
    ensures !Less(a, a)
    decreases |a|
  {
    if a != [] {
      LessIrreflexive(a[1..]);
    }
  }

  lemma {:induction false} LessTransitive(a: string, b: string, c: string)
    requires Less(a, b) && Less(b, c)
    ensures Less(a, c)
    decreases |a|
  {
    if a != [] && b != [] && c != [] && a[0] == b[0] && b[0] == c[0] {
      LessTransitive(a[1..], b[1..], c[1..]);
    }
  }

  /** Any two different names are ordered one way or the other. */
  lemma {:induction false} LessTotal(a: string, b: string)
    requires a != b
    ensures Less(a, b) || Less(b, a)
    decreases |a|
  {
    if a != [] && b != [] && a[0] == b[0] {
      assert a == [a[0]] + a[1..] && b == [b[0]] + b[1..];
      LessTotal(a[1..], b[1..]);
    }
  }

  lemma {:induction false} LessAsymmetric(a: string, b: string)
    requires Less(a, b)
    ensures !Less(b, a)
    decreases |a|
  {
    if a != [] && b != [] && a[0] == b[0] {
      LessAsymmetric(a[1..], b[1..]);
    }
  }

  predicate StrictlySorted(s: seq<string>)
  {
    forall i, j :: 0 <= i < j < |s| ==> Less(s[i], s[j])
  }

  /** One insertion step of `sorted`. */
  function Insert(sorted: seq<string>, x: string): (r: seq<string>)
    requires StrictlySorted(sorted) && x !in sorted
    ensures StrictlySorted(r)
    ensures multiset(r) == multiset(sorted) + multiset{x}
  {
    if sorted == [] then [x]
    else if Less(x, sorted[0]) then
      InsertFront(sorted, x);
      [x] + sorted
    else
      var rest := Insert(sorted[1..], x);
      InsertBehind(sorted, x, rest);
      [sorted[0]] + rest
  }

  lemma InsertFront(sorted: seq<string>, x: string)
    requires StrictlySorted(sorted) && sorted != [] && Less(x, sorted[0])
    ensures StrictlySorted([x] + sorted)
  {
    forall j | 0 < j < |sorted|
      ensures Less(x, sorted[j])
    {
      LessTransitive(x, sorted[0], sorted[j]);
    }
  }

  lemma InsertBehind(sorted: seq<string>, x: string, rest: seq<string>)
    requires StrictlySorted(sorted) && sorted != [] && x !in sorted && !Less(x, sorted[0])
    requires StrictlySorted(rest) && multiset(rest) == multiset(sorted[1..]) + multiset{x}
    ensures StrictlySorted([sorted[0]] + rest)
    ensures multiset([sorted[0]] + rest) == multiset(sorted) + multiset{x}
  {
    LessTotal(x, sorted[0]);
    forall j | 0 <= j < |rest|
      ensures Less(sorted[0], rest[j])
    {
      assert rest[j] in multiset(rest);
      if rest[j] != x {
        assert rest[j] in multiset(sorted[1..]);
        var k :| 0 <= k < |sorted[1..]| && sorted[1..][k] == rest[j];
        assert sorted[k + 1] == rest[j];
      }
    }
    assert sorted == [sorted[0]] + sorted[1..];
  }

  /** `sorted(names)` for names that are all different. */
  function Sorted(names: seq<string>): (r: seq<string>)
    requires forall i, j :: 0 <= i < j < |names| ==> names[i] != names[j]
    ensures StrictlySorted(r)
    ensures multiset(r) == multiset(names)
  {
    if names == [] then []
    else
      var init := names[..|names| - 1];
      var x := names[|names| - 1];
      assert names == init + [x];
      var s := Sorted(init);
      assert x !in multiset(init);
      Insert(s, x)
  }

  /** Two sorted lists with the same names are the same list. */
  lemma {:induction false} SortedUnique(a: seq<string>, b: seq<string>)
    requires StrictlySorted(a) && StrictlySorted(b)
    requires multiset(a) == multiset(b)
    ensures a == b
    decreases |a|
  {
    if a != [] {
      SortedSameHead(a, b);
      Seqs.TailMultiset(a);
      Seqs.TailMultiset(b);
      SortedUnique(a[1..], b[1..]);
      Seqs.HeadTailEqual(a, b);
    }
  }

  /** Two sorted lists with the same names start with the same name. */
  lemma SortedSameHead(a: seq<string>, b: seq<string>)
    requires StrictlySorted(a) && StrictlySorted(b)
    requires multiset(a) == multiset(b) && a != []
    ensures b != [] && a[0] == b[0]
  {
    assert a[0] in multiset(b);
    assert b[0] in multiset(a);
    if a[0] != b[0] {
      var i :| 0 <= i < |b| && b[i] == a[0];
      var j :| 0 <= j < |a| && a[j] == b[0];
      assert Less(a[0], b[0]) && Less(b[0], a[0]);
      LessAsymmetric(a[0], b[0]);
    }
  }

  /** `[f"{k}={kwargs[k]}" for k in names]`. */
  function Parts(kwargs: map<string, string>, names: seq<string>): (parts: seq<string>)
    requires forall k :: k in names ==> k in kwargs
    ensures |parts| == |names|
    ensures forall i :: 0 <= i < |names| ==> parts[i] == names[i] + "=" + kwargs[names[i]]
  {
    if names == [] then [] else [names[0] + "=" + kwargs[names[0]]] + Parts(kwargs, names[1..])
  }

  /** `_make_key(*args, **kwargs)`; the positional arguments are not read. */
  function MakeKey<A>(args: seq<A>, kwargs: Dict<string, string>): (key: string)
    requires kwargs.Valid()
  {
    var names := Sorted(kwargs.keys);
    assert forall k :: k in names ==> k in multiset(kwargs.keys);
    Join(Parts(kwargs.entries, names), "|")
  }

  /** The key is made of one `name=value` part per keyword argument, in
      sorted name order. */
  lemma MakeKeyParts<A>(args: seq<A>, kwargs: Dict<string, string>)
    requires kwargs.Valid()
    ensures var names := Sorted(kwargs.keys);
      && StrictlySorted(names)
      && (forall k :: k in names <==> k in kwargs.entries)
      && MakeKey(args, kwargs) == Join(Parts(kwargs.entries, names), "|")
  {
    var names := Sorted(kwargs.keys);
    assert forall k :: k in names <==> k in multiset(kwargs.keys);
  }

  /** No keyword arguments give the empty key. */
  lemma MakeKeyEmpty<A>(args: seq<A>, kwargs: Dict<string, string>)
    requires kwargs.Valid() && kwargs.keys == []
    ensures MakeKey(args, kwargs) == ""
  {
  }

  /** The key depends only on which value each keyword holds: neither the
      positional arguments (the client object) nor the order in which the
      keywords were passed change it. */
  lemma MakeKeyDeterminedByKeywords<A, B>(args1: seq<A>, kwargs1: Dict<string, string>,
                                          args2: seq<B>, kwargs2: Dict<string, string>)
    requires kwargs1.Valid() && kwargs2.Valid()
    requires kwargs1.entries == kwargs2.entries
    ensures MakeKey(args1, kwargs1) == MakeKey(args2, kwargs2)
  {
    var n1 := Sorted(kwargs1.keys);
    var n2 := Sorted(kwargs2.keys);
    SameKeys(kwargs1, kwargs2);
    SortedUnique(n1, n2);
  }

  lemma SameKeys(kwargs1: Dict<string, string>, kwargs2: Dict<string, string>)
    requires kwargs1.Valid() && kwargs2.Valid()
    requires kwargs1.entries == kwargs2.entries
    ensures multiset(kwargs1.keys) == multiset(kwargs2.keys)
  {
    DistinctMultiset(kwargs1.keys);
    DistinctMultiset(kwargs2.keys);
    assert forall k :: k in kwargs1.keys <==> k in kwargs2.keys;
  }

  /** The multiset of a list without repeats is the set of its elements. */
  lemma {:induction false} DistinctMultiset(s: seq<string>)
    requires forall i, j :: 0 <= i < j < |s| ==> s[i] != s[j]
    ensures forall k :: multiset(s)[k] == if k in s then 1 else 0
    decreases |s|
  {
    if s != [] {
      var init := s[..|s| - 1];
      DistinctMultiset(init);
      assert s == init + [s[|s| - 1]];
      assert s[|s| - 1] !in init;
    }
  }
}
