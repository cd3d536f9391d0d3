/** Sorting by name, as Go's `slices.Sort` and `slices.SortFunc` do it.  `SortFunc` is not stable,
    so what a caller may rely on is only that the result is a sorted permutation. */
module Sorting {

  /** The order of Go strings. */
  predicate Leq(a: string, b: string) {
    a == "" || (b != "" && (a[0] < b[0] || (a[0] == b[0] && Leq(a[1..], b[1..]))))
  }

  lemma {:induction false} LeqTotal(a: string, b: string)
    ensures Leq(a, b) || Leq(b, a)
    ensures Leq(a, a)
  {
    if a != "" {
      LeqTotal(a[1..], if b == "" then "" else b[1..]);
    }
  }

  lemma {:induction false} LeqAntisymmetric(a: string, b: string)
    requires Leq(a, b) && Leq(b, a)
    ensures a == b
  {
    if a != "" {
      LeqAntisymmetric(a[1..], b[1..]);
      assert a == [a[0]] + a[1..] && b == [b[0]] + b[1..];
    }
  }

  lemma {:induction false} LeqTransitive(a: string, b: string, c: string)
    requires Leq(a, b) && Leq(b, c)
    ensures Leq(a, c)
  {
    if a != "" && a[0] == b[0] == c[0] {
      LeqTransitive(a[1..], b[1..], c[1..]);
    }
  }

  ghost predicate SortedBy<T>(s: seq<T>, key: T -> string) {
    forall i, j :: 0 <= i < j < |s| ==> Leq(key(s[i]), key(s[j]))
  }

  /** t is one of the results that sorting s by key may give. */
  ghost predicate IsSortOf<T>(t: seq<T>, s: seq<T>, key: T -> string) {
    SortedBy(t, key) && multiset(t) == multiset(s)
  }

  function Insert<T>(x: T, s: seq<T>, key: T -> string): seq<T> {
    if s == [] || Leq(key(x), key(s[0])) then [x] + s
    else [s[0]] + Insert(x, s[1..], key)
  }

  function Sort<T>(s: seq<T>, key: T -> string): seq<T> {
    if s == [] then [] else Insert(s[0], Sort(s[1..], key), key)
  }

  lemma {:induction false} InsertElements<T>(x: T, s: seq<T>, key: T -> string)
    ensures multiset(Insert(x, s, key)) == multiset{x} + multiset(s)
  {
    if s != [] {
      assert s == [s[0]] + s[1..];
      InsertElements(x, s[1..], key);
    }
  }

  lemma {:induction false} InsertSorted<T>(x: T, s: seq<T>, key: T -> string)
    requires SortedBy(s, key)
    ensures SortedBy(Insert(x, s, key), key)
  {
    if s == [] {
    } else if Leq(key(x), key(s[0])) {
      forall j | 0 <= j < |s| ensures Leq(key(x), key(s[j])) {
        if j > 0 {
          LeqTransitive(key(x), key(s[0]), key(s[j]));
        }
      }
    } else {
      LeqTotal(key(x), key(s[0]));
      InsertSorted(x, s[1..], key);
      var t := Insert(x, s[1..], key);
      InsertElements(x, s[1..], key);
      forall j | 0 <= j < |t| ensures Leq(key(s[0]), key(t[j])) {
        assert t[j] in multiset(t);
        assert t[j] == x || t[j] in s[1..];
      }
    }
  }

  lemma {:induction false} SortIsSort<T>(s: seq<T>, key: T -> string)
    ensures IsSortOf(Sort(s, key), s, key)
  {
    if s != [] {
      SortIsSort(s[1..], key);
      InsertSorted(s[0], Sort(s[1..], key), key);
      InsertElements(s[0], Sort(s[1..], key), key);
      assert s == [s[0]] + s[1..];
    }
  }

  /** Elements with the same name are the same element. */
  ghost predicate NamesIdentify<T>(s: seq<T>, key: T -> string) {
    forall i, j :: 0 <= i < j < |s| && key(s[i]) == key(s[j]) ==> s[i] == s[j]
  }

  lemma FirstIsLeast<T>(s: seq<T>, key: T -> string, i: nat)
    requires SortedBy(s, key) && i < |s|
    ensures Leq(key(s[0]), key(s[i]))
  {
    LeqTotal(key(s[0]), key(s[i]));
  }

  lemma FirstEqual<T>(a: seq<T>, b: seq<T>, key: T -> string)
    requires SortedBy(a, key) && SortedBy(b, key) && multiset(a) == multiset(b)
    requires NamesIdentify(a, key) && a != [] && b != []
    ensures a[0] == b[0]
  {
    hide Leq;
    assert b[0] in multiset(a) && a[0] in multiset(b);
    var i :| 0 <= i < |a| && a[i] == b[0];
    var j :| 0 <= j < |b| && b[j] == a[0];
    FirstIsLeast(a, key, i);
    FirstIsLeast(b, key, j);
    LeqAntisymmetric(key(a[0]), key(b[0]));
  }

  lemma TailElements<T>(a: seq<T>, b: seq<T>)
    requires a != [] && b != [] && a[0] == b[0] && multiset(a) == multiset(b)
    ensures multiset(a[1..]) == multiset(b[1..])
  {
    assert a == [a[0]] + a[1..] && b == [b[0]] + b[1..];
    assert multiset(a[1..]) == multiset(a) - multiset{a[0]};
  }

  /** When names identify elements, there is only one way to sort. */
  lemma {:induction false} SortUnique<T>(a: seq<T>, b: seq<T>, key: T -> string)
    requires SortedBy(a, key) && SortedBy(b, key) && multiset(a) == multiset(b)
    requires NamesIdentify(a, key)
    ensures a == b
    decreases |a|
  {
    hide Leq;
    assert |multiset(a)| == |a| && |multiset(b)| == |b|;
    if a != [] {
      FirstEqual(a, b, key);
      TailElements(a, b);
      SortUnique(a[1..], b[1..], key);
      assert a == [a[0]] + a[1..] && b == [b[0]] + b[1..];
    }
  }

  // ---------- sorted key lists ----------

  ghost predicate NoRepeats<T>(s: seq<T>) {
    forall i, j :: 0 <= i < j < |s| ==> s[i] != s[j]
  }

  function Elements<T>(s: seq<T>): set<T> {
    set x | x in s
  }

  lemma {:induction false} DistinctElements<T>(s: seq<T>)
    ensures |Elements(s)| <= |s|
    ensures NoRepeats(s) ==> |Elements(s)| == |s| && multiset(s) == multiset(Elements(s))
    ensures |Elements(s)| == |s| ==> NoRepeats(s)
  {
    if s != [] {
      var n := |s| - 1;
      DistinctElements(s[..n]);
      assert s == s[..n] + [s[n]];
      assert Elements(s) == Elements(s[..n]) + {s[n]};
      if s[n] in s[..n] {
        assert Elements(s) == Elements(s[..n]);
      } else {
        assert s[n] !in Elements(s[..n]);
      }
    }
  }

  lemma SameSize<T>(a: set<T>, b: set<T>)
    requires a <= b && |b| <= |a|
    ensures a == b
  {
    assert b == a + (b - a);
    assert |b| == |a| + |b - a|;
  }

  function Same(k: string): string { k }

  /** Sorted lists without repeats are determined by their elements. */
  lemma SortedKeysUnique(a: seq<string>, b: seq<string>)
    requires NoRepeats(a) && NoRepeats(b) && Elements(a) == Elements(b)
    requires SortedBy(a, Same) && SortedBy(b, Same)
    ensures a == b
  {
    DistinctElements(a);
    DistinctElements(b);
    SortUnique(a, b, Same);
  }

  /** The keys of a map, in order.  Go visits map keys in no particular order, so the list that
      is sorted is any listing of them; the result does not depend on which. */
  ghost function SortedKeys(keys: set<string>): (r: seq<string>)
    ensures NoRepeats(r) && Elements(r) == keys && SortedBy(r, Same)
  {
    var listing := Listing(keys);
    SortedListing(listing);
    Sort(listing, Same)
  }

  ghost function Listing(keys: set<string>): (r: seq<string>)
    ensures NoRepeats(r) && Elements(r) == keys
  {
    if keys == {} then []
    else
      var k :| k in keys;
      var rest := Listing(keys - {k});
      assert k !in Elements(rest);
      assert Elements([k] + rest) == {k} + Elements(rest) == keys;
      [k] + rest
  }

  lemma SortedListing(listing: seq<string>)
    requires NoRepeats(listing)
    ensures var r := Sort(listing, Same);
      NoRepeats(r) && Elements(r) == Elements(listing) && SortedBy(r, Same)
  {
    var r := Sort(listing, Same);
    SortIsSort(listing, Same);
    assert forall k :: k in r <==> k in multiset(r);
    assert forall k :: k in listing <==> k in multiset(listing);
    DistinctElements(listing);
    forall i, j | 0 <= i < j < |r| ensures r[i] != r[j] {
      if r[i] == r[j] {
        TwiceInMultiset(r, i, j);
      }
    }
  }

  lemma TwiceInMultiset<T>(s: seq<T>, i: nat, j: nat)
    requires i < j < |s| && s[i] == s[j]
    ensures multiset(s)[s[i]] >= 2
  {
    assert s == s[..i] + [s[i]] + s[i + 1..j] + [s[j]] + s[j + 1..];
  }

  /** Collect the keys of a map in any order, then sort them. */
  method SortKeys(keys: set<string>) returns (r: seq<string>)
    ensures r == SortedKeys(keys)
  {
    var listing: seq<string> := [];
    var todo := keys;
    while todo != {}
      invariant todo <= keys && NoRepeats(listing) && Elements(listing) == keys - todo
      decreases |todo|
    {
      var k :| k in todo;
      assert k !in Elements(listing);
      assert Elements(listing + [k]) == Elements(listing) + {k};
      listing := listing + [k];
      todo := todo - {k};
    }
    r := Sort(listing, Same);
    SortedListing(listing);
    SortedKeysUnique(r, SortedKeys(keys));
  }
}
