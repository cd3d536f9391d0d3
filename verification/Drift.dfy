/** Drift comparators: how the operator decides that lists, ports, containers and resource
    quantities of a fetched object equal the desired ones, each against a plain specification. */
module Drift {
  import opened Sorting

  // ---------- order-insensitive comparison of named lists ----------

  /** `slicesEqualUnordered`: sort copies by name, compare. */
  method SlicesEqualUnordered<T(==)>(desired: seq<T>, fetched: seq<T>, key: T -> string) returns (r: bool)
    ensures r ==> multiset(desired) == multiset(fetched)
    ensures NamesIdentify(desired, key) ==> (r <==> multiset(desired) == multiset(fetched))
  {
    assert |multiset(desired)| == |desired| && |multiset(fetched)| == |fetched|;
    if |desired| != |fetched| {
      return false;
    }
    if |desired| == 0 {
      return true;
    }
    var d, f := Sort(desired, key), Sort(fetched, key);
    SortIsSort(desired, key);
    SortIsSort(fetched, key);
    if NamesIdentify(desired, key) && multiset(desired) == multiset(fetched) {
      AnySortsAgree(desired, d, f, key);
    }
    return d == f;
  }

  lemma NamesIdentifyPermuted<T>(s: seq<T>, t: seq<T>, key: T -> string)
    requires multiset(s) == multiset(t) && NamesIdentify(s, key)
    ensures NamesIdentify(t, key)
  {
    forall i, j | 0 <= i < j < |t| && key(t[i]) == key(t[j]) ensures t[i] == t[j] {
      assert t[i] in multiset(s) && t[j] in multiset(s);
      var a :| 0 <= a < |s| && s[a] == t[i];
      var b :| 0 <= b < |s| && s[b] == t[j];
      assert a < b || a == b || b < a;
    }
  }

  lemma AnySortsAgree<T>(s: seq<T>, a: seq<T>, b: seq<T>, key: T -> string)
    requires NamesIdentify(s, key) && IsSortOf(a, s, key) && IsSortOf(b, s, key)
    ensures a == b
  {
    NamesIdentifyPermuted(s, a, key);
    SortUnique(a, b, key);
  }

  /** Whatever permutation of `s` is fetched and however both sides are sorted, they compare equal. */
  ghost predicate AlwaysRecognised<T(!new)>(s: seq<T>, key: T -> string) {
    forall t, a, b :: multiset(t) == multiset(s) && IsSortOf(a, s, key) && IsSortOf(b, t, key) ==> a == b
  }

  lemma SwapInSort<T>(a: seq<T>, i: nat, j: nat, key: T -> string) returns (b: seq<T>)
    requires SortedBy(a, key) && i < j < |a| && key(a[i]) == key(a[j])
    ensures IsSortOf(b, a, key) && |b| == |a| && b[i] == a[j]
  {
    b := a[i := a[j]][j := a[i]];
    assert multiset(b) == multiset(a);
    forall p, q | 0 <= p < q < |b| ensures Leq(key(b[p]), key(b[q])) {
      LeqTotal(key(a[i]), key(a[i]));
      assert forall k :: 0 <= k < |a| ==> key(b[k]) == key(a[k]);
    }
  }

  lemma OneSort<T>(s: seq<T>, key: T -> string) returns (a: seq<T>)
    ensures IsSortOf(a, s, key)
  {
    a := Sort(s, key);
    SortIsSort(s, key);
  }

  /** The comparison recognises every permutation if and only if entries of the same name are
      identical; the sort is not stable, so two different entries with one name can come out in
      either order. */
  lemma SortCompareExact<T(!new)>(s: seq<T>, key: T -> string)
    ensures AlwaysRecognised(s, key) <==> NamesIdentify(s, key)
  {
    if NamesIdentify(s, key) {
      forall t, a, b | multiset(t) == multiset(s) && IsSortOf(a, s, key) && IsSortOf(b, t, key) ensures a == b {
        AnySortsAgree(s, a, b, key);
      }
    } else {
      var a := OneSort(s, key);
      if NamesIdentify(a, key) {
        NamesIdentifyPermuted(a, s, key);
      } else {
        var i, j :| 0 <= i < j < |a| && key(a[i]) == key(a[j]) && a[i] != a[j];
        var b := SwapInSort(a, i, j, key);
        assert IsSortOf(b, s, key) && a != b;
      }
    }
  }

  // ---------- container ports ----------

  datatype Port = Port(number: int, protocol: string, name: string)

  /** An omitted protocol means TCP. */
  function Normal(p: Port): Port {
    if p.protocol == "" then p.(protocol := "TCP") else p
  }

  function Normals(ps: seq<Port>): seq<Port> {
    seq(|ps|, i requires 0 <= i < |ps| => Normal(ps[i]))
  }

  /** What the port loop accepts: equal lengths, and every fetched port has a desired twin. */
  ghost predicate PortsMatch(desired: seq<Port>, fetched: seq<Port>) {
    |desired| == |fetched| && forall i :: 0 <= i < |fetched| ==> Normals(fetched)[i] in Normals(desired)
  }

  method PortsModified(desired: seq<Port>, fetched: seq<Port>) returns (r: bool)
    ensures r == !PortsMatch(desired, fetched)
  {
    if |desired| != |fetched| {
      return true;
    }
    for i := 0 to |fetched|
      invariant forall k :: 0 <= k < i ==> Normals(fetched)[k] in Normals(desired)
    {
      var matched := false;
      for j := 0 to |desired|
        invariant matched <==> exists k :: 0 <= k < j && Normals(desired)[k] == Normals(fetched)[i]
      {
        if Normal(fetched[i]) == Normal(desired[j]) {
          matched := true;
          assert Normals(desired)[j] == Normals(fetched)[i];
        }
      }
      if !matched {
        assert Normals(fetched)[i] !in Normals(desired);
        return true;
      }
    }
    return false;
  }

  /** Pigeonhole: distinct values that all occur in a list of the same length are that list. */
  lemma Pigeonhole<T>(s: seq<T>, t: seq<T>)
    requires NoRepeats(s) && |s| == |t| && Elements(s) <= Elements(t)
    ensures multiset(s) == multiset(t) && NoRepeats(t)
  {
    DistinctElements(s);
    DistinctElements(t);
    SameSize(Elements(s), Elements(t));
  }

  /** A port that no list of these ports contains. */
  lemma FreshPort(ps: seq<Port>) returns (p: Port)
    ensures p !in ps && Normal(p) == p
    decreases |ps|
  {
    var n := 0;
    for i := 0 to |ps|
      invariant forall k :: 0 <= k < i ==> ps[k].number < n
    {
      n := if ps[i].number < n then n else ps[i].number + 1;
    }
    p := Port(n, "TCP", "");
  }

  /** An omitted protocol reads as TCP and as nothing else. */
  lemma OmittedIsTcp(desired: seq<Port>, fetched: seq<Port>, i: nat)
    requires i < |desired| && desired[i].protocol == ""
    ensures PortsMatch(desired, fetched) <==> PortsMatch(desired[i := desired[i].(protocol := "TCP")], fetched)
    ensures forall p: Port :: p.protocol == "" ==> !PortsMatch([p], [p.(protocol := "UDP")])
  {
    var other := desired[i := desired[i].(protocol := "TCP")];
    assert Normals(other) == Normals(desired);
    forall p: Port | p.protocol == "" ensures !PortsMatch([p], [p.(protocol := "UDP")]) {
      assert Normals([p])[0].protocol == "TCP" && Normals([p.(protocol := "UDP")])[0].protocol == "UDP";
      assert "TCP"[0] != "UDP"[0];
    }
  }

  /** For a fetched list, the port loop accepts exactly its permutations if and only if the fetched
      ports are distinct once protocols are defaulted. */
  lemma PortLoopExact(fetched: seq<Port>)
    ensures NoRepeats(Normals(fetched)) <==>
      forall desired :: PortsMatch(desired, fetched) <==> multiset(Normals(desired)) == multiset(Normals(fetched))
  {
    var f := Normals(fetched);
    if NoRepeats(f) {
      forall desired ensures PortsMatch(desired, fetched) <==> multiset(Normals(desired)) == multiset(f) {
        PortsMatchPermutation(desired, fetched);
      }
    } else {
      var i, j :| 0 <= i < j < |f| && f[i] == f[j];
      var p := FreshPort(f);
      var desired := fetched[j := p];
      var d := Normals(desired);
      assert d == f[j := p];
      forall k | 0 <= k < |f| ensures f[k] in d {
        assert f[k] == d[if k == j then i else k];
      }
      assert PortsMatch(desired, fetched);
      assert d[j] in multiset(d) && p !in multiset(f);
    }
  }

  lemma PortsMatchPermutation(desired: seq<Port>, fetched: seq<Port>)
    requires NoRepeats(Normals(fetched))
    ensures PortsMatch(desired, fetched) <==> multiset(Normals(desired)) == multiset(Normals(fetched))
  {
    var d, f := Normals(desired), Normals(fetched);
    if PortsMatch(desired, fetched) {
      Pigeonhole(f, d);
    }
    if multiset(d) == multiset(f) {
      assert |multiset(d)| == |d| && |multiset(f)| == |f|;
      forall i | 0 <= i < |f| ensures f[i] in d {
        assert f[i] in multiset(d);
      }
    }
  }

  // ---------- containers, matched by name ----------

  datatype Container = Container(name: string, body: string)

  /** Some fetched container has c's name and compares equal to it. */
  ghost predicate Matched(c: Container, fetched: seq<Container>, same: (Container, Container) -> bool) {
    exists j :: 0 <= j < |fetched| && fetched[j].name == c.name && same(c, fetched[j])
  }

  /** `containersModified`, with `same` standing for the comparison of two containers. */
  method ContainersModified(desired: seq<Container>, fetched: seq<Container>, same: (Container, Container) -> bool)
      returns (r: bool)
    ensures !r ==> |desired| == |fetched| && forall i :: 0 <= i < |desired| ==> Matched(desired[i], fetched, same)
    ensures r && DistinctNames(fetched) && |desired| == |fetched| ==>
      exists i :: 0 <= i < |desired| && !Matched(desired[i], fetched, same)
  {
    if |desired| != |fetched| {
      return true;
    }
    var byName: map<string, nat> := map[];
    for i := 0 to |fetched|
      invariant forall n :: n in byName ==> byName[n] < i && fetched[byName[n]].name == n
      invariant forall k :: 0 <= k < i ==> fetched[k].name in byName
    {
      byName := byName[fetched[i].name := i];
    }
    for i := 0 to |desired|
      invariant forall k :: 0 <= k < i ==> Matched(desired[k], fetched, same)
    {
      if desired[i].name !in byName {
        return true;
      }
      var j := byName[desired[i].name];
      if !same(desired[i], fetched[j]) {
        return true;
      }
      assert Matched(desired[i], fetched, same);
    }
    return false;
  }

  ghost predicate DistinctNames(cs: seq<Container>) {
    forall i, j :: 0 <= i < j < |cs| ==> cs[i].name != cs[j].name
  }

  function Names(cs: seq<Container>): seq<string> {
    seq(|cs|, i requires 0 <= i < |cs| => cs[i].name)
  }

  /** What the loop over desired containers says about fetched ones: with distinct desired names no
      fetched container goes unmatched. */
  lemma EveryFetchedMatched(desired: seq<Container>, fetched: seq<Container>, same: (Container, Container) -> bool, j: nat)
    requires DistinctNames(desired) && |desired| == |fetched| && j < |fetched|
    requires forall i :: 0 <= i < |desired| ==> Matched(desired[i], fetched, same)
    ensures exists i :: 0 <= i < |desired| && desired[i].name == fetched[j].name && same(desired[i], fetched[j])
    ensures DistinctNames(fetched)
  {
    var d, f := Names(desired), Names(fetched);
    forall n | n in Elements(d) ensures n in Elements(f) {
      var i :| 0 <= i < |d| && d[i] == n;
      var k :| 0 <= k < |fetched| && fetched[k].name == desired[i].name && same(desired[i], fetched[k]);
      assert f[k] == n;
    }
    Pigeonhole(d, f);
    forall p, q | 0 <= p < q < |fetched| ensures fetched[p].name != fetched[q].name {
      assert f[p] != f[q];
    }
    assert f[j] in multiset(d);
    var i :| 0 <= i < |d| && d[i] == f[j];
    var k :| 0 <= k < |fetched| && fetched[k].name == desired[i].name && same(desired[i], fetched[k]);
    assert f[k] == f[j];
    assert k == j;
  }

  // ---------- resource quantities ----------

  /** mantissa * 10^scale */
  datatype Quantity = Quantity(mantissa: int, scale: int)

  function Pow10(n: nat): int {
    if n == 0 then 1 else 10 * Pow10(n - 1)
  }

  /** `Quantity.Equal`: bring both to the smaller scale and compare mantissas. */
  predicate SameQuantity(a: Quantity, b: Quantity) {
    var s := if a.scale <= b.scale then a.scale else b.scale;
    a.mantissa * Pow10(a.scale - s) == b.mantissa * Pow10(b.scale - s)
  }

  function Power(s: int): (r: real)
    ensures r > 0.0
    decreases if s < 0 then -s else s
  {
    if s == 0 then 1.0 else if s > 0 then 10.0 * Power(s - 1) else Power(s + 1) / 10.0
  }

  /** The number a quantity denotes. */
  function Value(q: Quantity): real {
    q.mantissa as real * Power(q.scale)
  }

  lemma {:induction false} PowerSplit(s: int, n: nat)
    ensures Power(s + n) == Pow10(n) as real * Power(s)
  {
    if n > 0 {
      PowerSplit(s, n - 1);
      assert Power(s + n) == 10.0 * Power(s + n - 1);
      assert Pow10(n) as real == 10.0 * (Pow10(n - 1) as real);
    }
  }

  lemma ValueAt(q: Quantity, s: int)
    requires s <= q.scale
    ensures Value(q) == (q.mantissa * Pow10(q.scale - s)) as real * Power(s)
  {
    hide Pow10, Power;
    PowerSplit(s, q.scale - s);
    Regroup(q.mantissa, Pow10(q.scale - s), Power(s));
  }

  lemma Regroup(m: int, p: int, f: real)
    ensures m as real * (p as real * f) == (m * p) as real * f
  {
    assert (m * p) as real == m as real * p as real;
  }

  /** The comparison of mantissas and scales is equality of the numbers. */
  lemma SameQuantityIsSameValue(a: Quantity, b: Quantity)
    ensures SameQuantity(a, b) <==> Value(a) == Value(b)
  {
    hide Value, Power;
    var s := if a.scale <= b.scale then a.scale else b.scale;
    ValueAt(a, s);
    ValueAt(b, s);
    var m, n := a.mantissa * Pow10(a.scale - s), b.mantissa * Pow10(b.scale - s);
    assert SameQuantity(a, b) <==> m == n;
    hide *;
    CancelFactor(m as real, n as real, Power(s));
  }

  lemma CancelFactor(x: real, y: real, f: real)
    requires f > 0.0
    ensures x == y <==> x * f == y * f
  {
    if x * f == y * f {
      assert x == x * f / f && y == y * f / f;
    }
  }

  type ResourceList = map<string, Quantity>

  /** `resourceListEqual`, which visits the desired side only. */
  method ResourceListEqual(desired: ResourceList, fetched: ResourceList) returns (r: bool)
    ensures r == SameResources(desired, fetched)
  {
    if |desired| == 0 && |fetched| == 0 {
      return true;
    }
    if |desired| != |fetched| {
      return false;
    }
    var todo := desired.Keys;
    while todo != {}
      invariant todo <= desired.Keys
      invariant forall n :: n in desired && n !in todo ==> n in fetched && SameQuantity(desired[n], fetched[n])
      decreases |todo|
    {
      var n :| n in todo;
      if n !in fetched || !SameQuantity(desired[n], fetched[n]) {
        return false;
      }
      todo := todo - {n};
    }
    return true;
  }

  predicate SameResources(desired: ResourceList, fetched: ResourceList) {
    |desired| == |fetched| && forall n :: n in desired ==> n in fetched && SameQuantity(desired[n], fetched[n])
  }

  /** The one-sided walk decides equality of the two lists as functions from names to numbers. */
  lemma SameResourcesExact(desired: ResourceList, fetched: ResourceList)
    ensures SameResources(desired, fetched) <==>
      desired.Keys == fetched.Keys && forall n :: n in desired ==> n in fetched && Value(desired[n]) == Value(fetched[n])
  {
    hide SameQuantity, Value;
    assert |desired| == |desired.Keys| && |fetched| == |fetched.Keys|;
    forall n | n in desired && n in fetched {
      SameQuantityIsSameValue(desired[n], fetched[n]);
    }
    if SameResources(desired, fetched) {
      SameSize(desired.Keys, fetched.Keys);
    }
  }

  /** It is an equivalence relation. */
  lemma SameResourcesEquivalence(a: ResourceList, b: ResourceList, c: ResourceList)
    ensures SameResources(a, a)
    ensures SameResources(a, b) ==> SameResources(b, a)
    ensures SameResources(a, b) && SameResources(b, c) ==> SameResources(a, c)
  {
    hide SameResources, Value;
    SameResourcesExact(a, a);
    SameResourcesExact(a, b);
    SameResourcesExact(b, a);
    SameResourcesExact(b, c);
    SameResourcesExact(a, c);
  }

  /** It does not see how a quantity is written: replacing any quantities by other mantissa and
      scale forms of the same values changes no verdict. */
  lemma RepresentationIrrelevant(a: ResourceList, a': ResourceList, b: ResourceList)
    requires a.Keys == a'.Keys && forall n :: n in a ==> n in a' && Value(a[n]) == Value(a'[n])
    ensures SameResources(a, b) <==> SameResources(a', b)
    ensures SameResources(b, a) <==> SameResources(b, a')
  {
    hide SameResources, Value;
    SameResourcesExact(a, a');
    SameResourcesEquivalence(a, a', b);
    SameResourcesEquivalence(a', a, b);
    SameResourcesEquivalence(b, a, a');
    SameResourcesEquivalence(b, a', a);
  }
}
