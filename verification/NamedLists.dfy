/** Lists of named things (environment variables, volumes, volume mounts), dropped by name or
    replaced by name. */
module NamedLists {

  /** What is left when everything with one of these names goes. */
  function Drop<T>(s: seq<T>, key: T -> string, names: set<string>): seq<T> {
    if s == [] then []
    else
      var x := s[|s| - 1];
      Drop(s[..|s| - 1], key, names) + (if key(x) in names then [] else [x])
  }

  /** Everything with this name. */
  function Keep<T>(s: seq<T>, key: T -> string, name: string): seq<T> {
    if s == [] then []
    else
      var x := s[|s| - 1];
      Keep(s[..|s| - 1], key, name) + (if key(x) == name then [x] else [])
  }

  predicate Holds<T>(s: seq<T>, key: T -> string, name: string) {
    exists i :: 0 <= i < |s| && key(s[i]) == name
  }

  /** The first thing with this name, or -1. */
  function First<T>(s: seq<T>, key: T -> string, name: string): (i: int)
    ensures -1 <= i < |s|
    ensures i >= 0 ==> key(s[i]) == name
    ensures forall j :: 0 <= j < (if i < 0 then |s| else i) ==> key(s[j]) != name
  {
    if s == [] then -1
    else
      var i := First(s[..|s| - 1], key, name);
      if i >= 0 then i else if key(s[|s| - 1]) == name then |s| - 1 else -1
  }

  /** Replace the first thing with x's name, or append x. */
  function Upsert<T>(s: seq<T>, key: T -> string, x: T): seq<T> {
    var i := First(s, key, key(x));
    if i >= 0 then s[i := x] else s + [x]
  }

  lemma {:induction false} DropConcat<T>(s: seq<T>, t: seq<T>, key: T -> string, names: set<string>)
    ensures Drop(s + t, key, names) == Drop(s, key, names) + Drop(t, key, names)
    decreases |t|
  {
    if t == [] {
      assert s + t == s;
    } else {
      var n := |t| - 1;
      assert (s + t)[..|s| + n] == s + t[..n];
      DropConcat(s, t[..n], key, names);
    }
  }

  lemma {:induction false} KeepConcat<T>(s: seq<T>, t: seq<T>, key: T -> string, name: string)
    ensures Keep(s + t, key, name) == Keep(s, key, name) + Keep(t, key, name)
    decreases |t|
  {
    if t == [] {
      assert s + t == s;
    } else {
      var n := |t| - 1;
      assert (s + t)[..|s| + n] == s + t[..n];
      KeepConcat(s, t[..n], key, name);
    }
  }

  lemma KeepOne<T>(x: T, key: T -> string, name: string)
    ensures Keep([x], key, name) == if key(x) == name then [x] else []
    ensures Keep([], key, name) == []
  {
    assert [x][..0] == [];
  }

  /** Dropping more afterwards is dropping more at once. */
  lemma {:induction false} DropTwice<T>(s: seq<T>, key: T -> string, a: set<string>, b: set<string>)
    requires a <= b
    ensures Drop(Drop(s, key, a), key, b) == Drop(s, key, b)
  {
    if s != [] {
      var n := |s| - 1;
      DropTwice(s[..n], key, a, b);
      DropConcat(Drop(s[..n], key, a), [s[n]], key, b);
      assert Drop(s[..n], key, a) + [] == Drop(s[..n], key, a);
    }
  }

  lemma {:induction false} DropAll<T>(s: seq<T>, key: T -> string, names: set<string>)
    requires forall i :: 0 <= i < |s| ==> key(s[i]) in names
    ensures Drop(s, key, names) == []
  {
    if s != [] {
      DropAll(s[..|s| - 1], key, names);
    }
  }

  /** Dropping keeps the other things, in their order. */
  lemma {:induction false} KeepDropped<T>(s: seq<T>, key: T -> string, names: set<string>, name: string)
    ensures Keep(Drop(s, key, names), key, name) == if name in names then [] else Keep(s, key, name)
  {
    if s != [] {
      var n := |s| - 1;
      var left := Drop(s[..n], key, names);
      assert Drop(s, key, names) == left + (if key(s[n]) in names then [] else [s[n]]);
      assert Keep(s, key, name) == Keep(s[..n], key, name) + (if key(s[n]) == name then [s[n]] else []);
      KeepDropped(s[..n], key, names, name);
      hide Drop, Keep;
      KeepConcat(left, [s[n]], key, name);
      KeepOne(s[n], key, name);
      assert left + [] == left;
    }
  }

  lemma {:induction false} KeepExact<T>(s: seq<T>, key: T -> string, name: string)
    ensures Keep(s, key, name) != [] <==> Holds(s, key, name)
  {
    if s != [] {
      var n := |s| - 1;
      KeepExact(s[..n], key, name);
      assert forall i :: 0 <= i < n ==> s[..n][i] == s[i];
      assert Holds(s, key, name) <==> Holds(s[..n], key, name) || key(s[n]) == name;
    }
  }

  lemma HoldsDropped<T>(s: seq<T>, key: T -> string, names: set<string>, name: string)
    ensures Holds(Drop(s, key, names), key, name) <==> Holds(s, key, name) && name !in names
  {
    KeepExact(s, key, name);
    KeepExact(Drop(s, key, names), key, name);
    KeepDropped(s, key, names, name);
  }

  lemma {:induction false} DroppedIsPart<T>(s: seq<T>, key: T -> string, names: set<string>)
    ensures forall x :: x in Drop(s, key, names) <==> x in s && key(x) !in names
  {
    if s != [] {
      var n := |s| - 1;
      assert s == s[..n] + [s[n]];
      DroppedIsPart(s[..n], key, names);
    }
  }

  lemma Cut<T>(s: seq<T>, i: nat, x: T)
    requires i < |s|
    ensures s == s[..i] + [s[i]] + s[i + 1..]
    ensures s[i := x] == s[..i] + [x] + s[i + 1..]
  {
  }

  lemma DropUpsert<T>(s: seq<T>, key: T -> string, x: T, names: set<string>)
    requires key(x) in names
    ensures Drop(Upsert(s, key, x), key, names) == Drop(s, key, names)
  {
    var i := First(s, key, key(x));
    if i >= 0 {
      Cut(s, i, x);
      var a, b := s[..i], s[i + 1..];
      DropConcat(a, [s[i]], key, names);
      DropConcat(a, [x], key, names);
      DropConcat(a + [s[i]], b, key, names);
      DropConcat(a + [x], b, key, names);
    } else {
      DropConcat(s, [x], key, names);
    }
  }

  lemma KeepUpsert<T>(s: seq<T>, key: T -> string, x: T, name: string)
    requires name != key(x)
    ensures Keep(Upsert(s, key, x), key, name) == Keep(s, key, name)
  {
    var i := First(s, key, key(x));
    if i >= 0 {
      Cut(s, i, x);
      var a, b := s[..i], s[i + 1..];
      KeepConcat(a, [s[i]], key, name);
      KeepConcat(a, [x], key, name);
      KeepConcat(a + [s[i]], b, key, name);
      KeepConcat(a + [x], b, key, name);
    } else {
      KeepConcat(s, [x], key, name);
    }
  }

  lemma {:induction false} KeepNone<T>(s: seq<T>, key: T -> string, name: string)
    requires forall j :: 0 <= j < |s| ==> key(s[j]) != name
    ensures Keep(s, key, name) == []
  {
    if s != [] {
      KeepNone(s[..|s| - 1], key, name);
    }
  }

  /** What bears x's name afterwards: x in place of the first one. */
  lemma KeepUpserted<T>(s: seq<T>, key: T -> string, x: T)
    ensures var was := Keep(s, key, key(x));
      Keep(Upsert(s, key, x), key, key(x)) == [x] + (if was == [] then [] else was[1..])
  {
    var i, name := First(s, key, key(x)), key(x);
    if i >= 0 {
      Cut(s, i, x);
      var a, b := s[..i], s[i + 1..];
      assert forall j :: 0 <= j < |a| ==> a[j] == s[j];
      KeepNone(a, key, name);
      KeepOne(s[i], key, name);
      KeepOne(x, key, name);
      KeepConcat(a, [s[i]], key, name);
      KeepConcat(a, [x], key, name);
      KeepConcat(a + [s[i]], b, key, name);
      KeepConcat(a + [x], b, key, name);
      hide Keep;
      assert Keep(s, key, name) == [s[i]] + Keep(b, key, name);
    } else {
      KeepNone(s, key, name);
      KeepOne(x, key, name);
      KeepConcat(s, [x], key, name);
    }
  }

  lemma HoldsUpsert<T>(s: seq<T>, key: T -> string, x: T, name: string)
    ensures Holds(Upsert(s, key, x), key, name) <==> Holds(s, key, name) || name == key(x)
  {
    var r := Upsert(s, key, x);
    var i := First(s, key, key(x));
    assert key(r[if i >= 0 then i else |s|]) == key(x);
    if Holds(s, key, name) {
      var j :| 0 <= j < |s| && key(s[j]) == name;
      assert key(r[j]) == name;
    }
    if Holds(r, key, name) && name != key(x) {
      var j :| 0 <= j < |r| && key(r[j]) == name;
      assert key(s[j]) == name;
    }
  }

  lemma UpsertTwice<T>(s: seq<T>, key: T -> string, x: T, y: T)
    requires key(x) == key(y)
    ensures Upsert(Upsert(s, key, x), key, y) == Upsert(s, key, y)
  {
    var i := First(s, key, key(x));
    var r := Upsert(s, key, x);
    var at := if i >= 0 then i else |s|;
    FirstIs(r, key, at);
  }

  lemma FirstIs<T>(s: seq<T>, key: T -> string, i: nat)
    requires i < |s| && forall j :: 0 <= j < i ==> key(s[j]) != key(s[i])
    ensures First(s, key, key(s[i])) == i
  {
  }

  // ---------- the loops ----------

  /** The filtering loop of every prune operation. */
  method Prune<T>(s: seq<T>, key: T -> string, names: set<string>) returns (r: seq<T>)
    ensures r == Drop(s, key, names)
  {
    r := [];
    for i := 0 to |s|
      invariant r == Drop(s[..i], key, names)
    {
      assert s[..i + 1][..i] == s[..i];
      if key(s[i]) !in names {
        r := r + [s[i]];
      }
    }
    assert s[..|s|] == s;
  }

  /** The loop of every update operation: replace the first match and return, or append. */
  method Update<T>(s: seq<T>, key: T -> string, x: T) returns (r: seq<T>)
    ensures r == Upsert(s, key, x)
  {
    for i := 0 to |s|
      invariant forall j :: 0 <= j < i ==> key(s[j]) != key(x)
    {
      if key(s[i]) == key(x) {
        FirstIs(s, key, i);
        return s[i := x];
      }
    }
    return s + [x];
  }
}
