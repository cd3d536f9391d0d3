/** Labels and annotations that the operator puts on every operand resource, and the list of
    annotation keys it keeps on its own custom resource. */
module ResourceMetadata {
  import opened Text
  import opened Sorting

  type StringMap = map<string, string>

  /** A Go map lookup: a missing key reads as the empty string. */
  function Lookup(m: StringMap, k: string): string {
    if k in m then m[k] else ""
  }

  /** `maps.Copy(into, from)`. */
  function Copy(into: StringMap, from: StringMap): StringMap {
    into + from
  }

  // ---------- labels ----------

  const ManagedLabel := "app"
  const ManagedValue := "external-secrets"
  const NameLabel := "app.kubernetes.io/name"
  const InstanceLabel := "app.kubernetes.io/instance"

  /** A regular expression without operators: an unescaped dot matches any character but a line
      feed, everything else matches itself. */
  predicate MatchesAt(pattern: string, s: string) {
    |pattern| <= |s| && forall i :: 0 <= i < |pattern| ==>
      s[i] == pattern[i] || (pattern[i] == '.' && s[i] != '\n')
  }

  /** `disallowedLabelMatcher`: three prefixes and two whole keys. */
  predicate Disallowed(key: string) {
    || MatchesAt("app.kubernetes.io/", key)
    || MatchesAt("external-secrets.io/", key)
    || MatchesAt("rbac.authorization.k8s.io/", key)
    || (MatchesAt("servicebinding.io/controller", key) && |key| == |"servicebinding.io/controller"|)
    || key == "app"
  }

  // The same patterns with their dots taken literally.

  const DottedPrefixes: set<string> := {"app.kubernetes.io/", "external-secrets.io/", "rbac.authorization.k8s.io/"}
  const DottedKey := "servicebinding.io/controller"

  /** What the pattern would reject if its dots were escaped. */
  predicate DisallowedLiterally(key: string) {
    (exists p :: p in DottedPrefixes && p <= key) || key == DottedKey || key == "app"
  }

  /** The key matches the pattern, with some other character where the pattern has a dot. */
  predicate LooseMatch(pattern: string, key: string) {
    MatchesAt(pattern, key) && exists i :: 0 <= i < |pattern| && pattern[i] == '.' && key[i] != '.'
  }

  lemma MatchIsPrefixOrLoose(pattern: string, key: string)
    ensures MatchesAt(pattern, key) <==> pattern <= key || LooseMatch(pattern, key)
    ensures !(pattern <= key && LooseMatch(pattern, key))
  {
    if MatchesAt(pattern, key) && !LooseMatch(pattern, key) {
      assert forall i :: 0 <= i < |pattern| ==> key[i] == pattern[i];
    }
  }

  /** The patterns begin differently, so a key matches at most one of them. */
  lemma FirstLetters(key: string)
    ensures MatchesAt("app.kubernetes.io/", key) ==> key[0] == 'a' && |key| > 3
    ensures MatchesAt("external-secrets.io/", key) ==> key[0] == 'e'
    ensures MatchesAt("rbac.authorization.k8s.io/", key) ==> key[0] == 'r'
    ensures MatchesAt(DottedKey, key) ==> key[0] == 's'
  {
    assert "app.kubernetes.io/"[0] == 'a' && "external-secrets.io/"[0] == 'e';
    assert "rbac.authorization.k8s.io/"[0] == 'r' && DottedKey[0] == 's';
  }

  /** Exactly which keys are rejected only because the dots are not escaped. */
  lemma LooseDotsExact(key: string)
    ensures DisallowedLiterally(key) ==> Disallowed(key)
    ensures Disallowed(key) && !DisallowedLiterally(key) <==>
      || (exists p :: p in DottedPrefixes && LooseMatch(p, key))
      || (LooseMatch(DottedKey, key) && |key| == |DottedKey|)
  {
    hide MatchesAt, LooseMatch;
    FirstLetters(key);
    MatchIsPrefixOrLoose("app.kubernetes.io/", key);
    MatchIsPrefixOrLoose("external-secrets.io/", key);
    MatchIsPrefixOrLoose("rbac.authorization.k8s.io/", key);
    MatchIsPrefixOrLoose(DottedKey, key);
    assert "app"[0] == 'a';
    assert DottedKey <= key && |key| == |DottedKey| <==> key == DottedKey;
  }

  /** Such keys exist: any other character but a line feed in place of the first dot. */
  lemma LooseDotRejects(c: char, rest: string)
    requires c != '.' && c != '\n'
    ensures var key := "app" + [c] + "kubernetes.io/" + rest;
      Disallowed(key) && !DisallowedLiterally(key)
  {
    var key := "app" + [c] + "kubernetes.io/" + rest;
    var p := "app.kubernetes.io/";
    assert p == "app" + "." + "kubernetes.io/";
    assert key[3] == c && p[3] == '.';
    assert forall i :: 0 <= i < |p| && i != 3 ==> key[i] == p[i];
    assert LooseMatch(p, key);
    LooseDotsExact(key);
  }

  /** `controllerDefaultResourceLabels`; the version comes from the environment. */
  function DefaultLabels(version: string): StringMap {
    map["app" := ManagedValue,
        "app.kubernetes.io/version" := version,
        "app.kubernetes.io/managed-by" := "external-secrets-operator",
        "app.kubernetes.io/part-of" := "external-secrets-operator"]
  }

  function Allowed(labels: StringMap): (r: StringMap)
    ensures forall k :: k in r <==> k in labels && !Disallowed(k)
    ensures forall k :: k in r ==> r[k] == labels[k]
  {
    map k | k in labels && !Disallowed(k) :: labels[k]
  }

  /** The labels of every produced object: defaults over those of ExternalSecretsConfig over those
      of ExternalSecretsManager, user labels with a reserved key skipped. */
  function ResourceLabels(esm: StringMap, esc: StringMap, version: string): StringMap {
    Copy(Copy(Allowed(esm), Allowed(esc)), DefaultLabels(version))
  }

  /** The copy loop of `getResourceLabels`, which visits the labels in no particular order. */
  method CopyAllowed(into: StringMap, labels: StringMap) returns (r: StringMap)
    ensures r == Copy(into, Allowed(labels))
  {
    hide Disallowed;
    r := into;
    var todo := labels.Keys;
    assert r == Copy(into, Allowed(labels - todo));
    while todo != {}
      invariant todo <= labels.Keys
      invariant r == Copy(into, Allowed(labels - todo))
      decreases |todo|
    {
      var k :| k in todo;
      AllowedStep(into, labels, todo, k);
      if !Disallowed(k) {
        r := r[k := labels[k]];
      }
      todo := todo - {k};
    }
    assert labels - {} == labels;
  }

  lemma AllowedStep(into: StringMap, labels: StringMap, todo: set<string>, k: string)
    requires k in todo && todo <= labels.Keys
    ensures Copy(into, Allowed(labels - (todo - {k}))) ==
      if Disallowed(k) then Copy(into, Allowed(labels - todo))
      else Copy(into, Allowed(labels - todo))[k := labels[k]]
  {
    hide Disallowed;
    var a, b := Allowed(labels - todo), Allowed(labels - (todo - {k}));
    assert Disallowed(k) ==> b == a;
    assert !Disallowed(k) ==> b == a[k := labels[k]];
  }

  /** `getResourceLabels`. */
  method GetResourceLabels(esm: Option<StringMap>, esc: StringMap, version: string) returns (r: StringMap)
    ensures r == ResourceLabels(if esm.Some? then esm.value else map[], esc, version)
  {
    hide Disallowed;
    r := map[];
    if esm.Some? {
      r := CopyAllowed(r, esm.value);
    }
    assert r == Allowed(if esm.Some? then esm.value else map[]);
    r := CopyAllowed(r, esc);
    r := Copy(r, DefaultLabels(version));
  }

  /** For all user labels: the four labels of the operator survive, and the value of any other key is the
      default's, else the configuration's, else the manager's, reserved keys never coming from a
      user. */
  lemma LabelPrecedence(esm: StringMap, esc: StringMap, version: string, k: string)
    ensures var r, d := ResourceLabels(esm, esc, version), DefaultLabels(version);
      && Lookup(r, "app") == "external-secrets" && Lookup(r, "app.kubernetes.io/version") == version
      && Lookup(r, "app.kubernetes.io/managed-by") == "external-secrets-operator"
      && Lookup(r, "app.kubernetes.io/part-of") == "external-secrets-operator"
      && (k in r <==> k in d || (!Disallowed(k) && (k in esc || k in esm)))
      && (k in r ==> r[k] == if k in d then d[k] else if k in esc then esc[k] else esm[k])
  {
    hide Disallowed;
  }

  lemma ReservedKeys()
    ensures Disallowed(NameLabel) && Disallowed(InstanceLabel)
    ensures forall version :: NameLabel !in DefaultLabels(version) && InstanceLabel !in DefaultLabels(version)
  {
    var n, i := NameLabel, InstanceLabel;
    assert MatchesAt("app.kubernetes.io/", n);
    assert MatchesAt("app.kubernetes.io/", i);
    assert n[|n| - 1] == 'e' && n[|n| - 2] == 'm' && |n| == 22;
    assert |"app.kubernetes.io/version"| == 25 && |"app.kubernetes.io/managed-by"| == 28;
    assert |"app.kubernetes.io/part-of"| == 25 && |"app"| == 3;
    assert |i| == 26;
  }

  /** A label selector of equalities. */
  predicate Selects(selector: StringMap, labels: StringMap) {
    forall k :: k in selector ==> k in labels && labels[k] == selector[k]
  }

  /** A deployment whose pods matched its selector on name and instance still matches after its
      template labels are rewritten, whatever labels the users ask for. */
  lemma SelectorStillMatches(selector: StringMap, template: StringMap, esm: StringMap, esc: StringMap, version: string)
    requires selector.Keys <= {NameLabel, InstanceLabel}
    requires Selects(selector, template)
    ensures Selects(selector, Copy(template, ResourceLabels(esm, esc, version)))
  {
    hide Disallowed;
    ReservedKeys();
    forall k | k in selector ensures k !in ResourceLabels(esm, esc, version) {
      LabelPrecedence(esm, esc, version, k);
    }
  }

  // ---------- annotations and their tracking ----------

  /** The tracked keys that the spec no longer has. */
  function Deleted(tracked: seq<string>, spec: StringMap): (r: seq<string>)
    ensures forall k :: k in r <==> k in tracked && k !in spec
  {
    if tracked == [] then []
    else
      var rest := Deleted(tracked[1..], spec);
      assert tracked == [tracked[0]] + tracked[1..];
      if tracked[0] in spec then rest else [tracked[0]] + rest
  }

  /** The loop of `getResourceAnnotations`. */
  method GetDeletedKeys(tracked: seq<string>, spec: StringMap) returns (r: seq<string>)
    ensures r == Deleted(tracked, spec)
  {
    r := [];
    assert tracked[0..] == tracked;
    for i := 0 to |tracked|
      invariant r + Deleted(tracked[i..], spec) == Deleted(tracked, spec)
    {
      assert tracked[i..][1..] == tracked[i + 1..];
      if tracked[i] !in spec {
        r := r + [tracked[i]];
      }
    }
  }

  /** The test of `AddManagedMetadataAnnotation`: it compares lengths only. */
  predicate TrackingNeedsUpdate(tracked: seq<string>, spec: StringMap) {
    |tracked| != |spec| || Deleted(tracked, spec) != []
  }

  lemma NothingDeleted(tracked: seq<string>, spec: StringMap)
    ensures Deleted(tracked, spec) == [] <==> Elements(tracked) <= spec.Keys
  {
    var d := Deleted(tracked, spec);
    if d != [] {
      assert d[0] in d;
    }
    if Elements(tracked) <= spec.Keys {
      assert forall k :: k in tracked ==> k in Elements(tracked);
    }
  }

  /** The length test is exact on every list without repeats: an update is due if and only if the
      tracked keys are not the keys of the spec. */
  lemma LengthTestExact(tracked: seq<string>, spec: StringMap)
    requires NoRepeats(tracked)
    ensures TrackingNeedsUpdate(tracked, spec) <==> Elements(tracked) != spec.Keys
  {
    DistinctElements(tracked);
    NothingDeleted(tracked, spec);
    if Elements(tracked) <= spec.Keys && |tracked| == |spec| {
      SameSize(Elements(tracked), spec.Keys);
    }
  }

  /** A map with these keys. */
  ghost function Keyed(keys: set<string>): (m: StringMap)
    ensures m.Keys == keys && |m| == |keys|
  {
    var m := map k | k in keys :: "";
    assert m.Keys == keys;
    m
  }

  /** A set of a given size that contains another. */
  lemma Larger(keys: set<string>, n: nat) returns (more: set<string>)
    requires |keys| <= n
    ensures keys <= more && |more| == n
    decreases n - |keys|
  {
    if |keys| == n {
      more := keys;
    } else {
      var k := LongerThanAll(keys);
      assert k !in keys;
      more := Larger(keys + {k}, n);
    }
  }

  lemma LongerThanAll(keys: set<string>) returns (k: string)
    ensures forall x :: x in keys ==> |x| < |k|
    decreases |keys|
  {
    if keys == {} {
      k := "";
    } else {
      var x :| x in keys;
      var longer := LongerThanAll(keys - {x});
      k := longer + x + "x";
      assert forall y :: y in keys ==> y == x || y in keys - {x};
    }
  }

  /** The length test is exact for every spec if and only if the tracked list has no repeats: with a
      repeat some spec with more keys is taken for the tracked one. */
  lemma LengthTestExactOnly(tracked: seq<string>)
    ensures (forall spec :: TrackingNeedsUpdate(tracked, spec) <==> Elements(tracked) != spec.Keys) <==> NoRepeats(tracked)
  {
    hide TrackingNeedsUpdate;
    if NoRepeats(tracked) {
      forall spec ensures TrackingNeedsUpdate(tracked, spec) <==> Elements(tracked) != spec.Keys {
        LengthTestExact(tracked, spec);
      }
    } else {
      DistinctElements(tracked);
      var more := Larger(Elements(tracked), |tracked|);
      var spec := Keyed(more);
      NothingDeleted(tracked, spec);
      LengthTestPasses(tracked, spec);
    }
  }

  lemma LengthTestPasses(tracked: seq<string>, spec: StringMap)
    requires |tracked| == |spec| && Deleted(tracked, spec) == []
    ensures !TrackingNeedsUpdate(tracked, spec)
  {
  }
}
