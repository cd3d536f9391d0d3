/** What advancedOverrides does, read from the user's document: which values of it arrive in the
    deployment, which are deleted, and which documents are turned away. */
module Effect {
  import opened Text
  import opened Args
  import opened Overrides

  // ---------- the strategic merge patch, along a path of keys ----------

  function Walk(j: Json, path: seq<string>): Option<Json> {
    if path == [] then Some(j)
    else if Has(j, path[0]) then Walk(j.fields[path[0]], path[1..])
    else None
  }

  /** Down to the last key of the path, both sides have objects, and the patch no directive. */
  ghost predicate Meets(o: Json, p: Json, path: seq<string>) {
    && path != [] && o.Obj? && p.Obj? && !HasDirective(p)
    && (|path| > 1 ==> Has(o, path[0]) && Has(p, path[0]) && Meets(o.fields[path[0]], p.fields[path[0]], path[1..]))
  }

  /** What is given replaces what was there, an explicit null deletes it, and what is not given stays.
      (An object or list over one of its own kind is merged instead.) */
  predicate Took(given: Option<Json>, was: Option<Json>, now: Option<Json>) {
    match given
    case None => now == was
    case Some(v) =>
      if v == Null then now == None
      else if v.Obj? then true
      else if v.Arr? && was.Some? && was.value.Arr? then true
      else now == given
  }

  /** Every scalar of the patch arrives at its path, every null deletes, and everything else stays. */
  lemma {:induction false} PatchTakes(lib: Library, o: Json, p: Json, path: seq<string>)
    requires Meets(o, p, path)
    ensures PatchObject(lib, o, p).Obj?
    ensures Took(Walk(p, path), Walk(o, path), Walk(PatchObject(lib, o, p), path))
    decreases |path|
  {
    var k, r := path[0], PatchObject(lib, o, p);
    if |path| > 1 {
      var rest := path[1..];
      hide Took;
      PatchTakes(lib, o.fields[k], p.fields[k], rest);
      assert r.fields[k] == PatchObject(lib, o.fields[k], p.fields[k]);
    } else {
      WalkOne(o, k);
      WalkOne(p, k);
      WalkOne(r, k);
      assert path == [k];
      hide Walk;
    }
  }

  lemma WalkOne(j: Json, k: string)
    ensures Walk(j, [k]) == if Has(j, k) then Some(j.fields[k]) else None
  {
    assert [k][1..] == [];
  }

  // ---------- from the document to the patch ----------

  /** Completing names changes nothing of the document but the container list, and there only names. */
  lemma InjectKeeps(j: Json, name: string)
    requires j.Obj?
    ensures Inject(j, name).Obj?
    ensures Pod(j).Obj? ==> Pod(Inject(j, name)).Obj? && Pod(Inject(j, name)).fields.Keys == Pod(j).fields.Keys
    ensures forall k :: k != "containers" ==> Field(Pod(Inject(j, name)), k) == Field(Pod(j), k)
    ensures Containers(Inject(j, name)) == InjectAll(Containers(j), name)
  {
    if Field(Pod(j), "containers").Arr? {
      var pod := WithField(Pod(j), "containers", Arr(InjectAll(Containers(j), name)));
      WithPodTwice(j, pod, Null);
    } else {
      assert InjectAll([], name) == [];
    }
  }

  /** A document that is no JSON or no object is turned away, none at all changes nothing. */
  lemma RawCases(lib: Library, d: Json, raw: Raw, name: string)
    requires Typed(d)
    ensures raw.Absent? ==> Overridden(lib, d, raw, name) == Ok(d)
    ensures raw.Unparsable? || (raw.Document? && !raw.json.Obj? && !raw.json.Null?) ==>
      Overridden(lib, d, raw, name) == Err(InvalidJson)
    ensures raw.Document? && raw.json.Obj? ==> PatchOf(raw, name) == Some(Inject(raw.json, name))
  {
    hide Typed, ApplyPatch, Check, Inject;
  }

  /** A document whose entries name another container is turned away. */
  lemma NamesDecide(lib: Library, d: Json, j: Json, name: string, i: nat)
    requires Typed(d) && j.Obj? && Overridden(lib, d, Document(j), name).Ok?
    requires i < |Containers(j)|
    ensures Containers(j)[i].Obj?
    ensures Has(Containers(j)[i], "name") ==> Containers(j)[i].fields["name"] == Str(name)
  {
    Accepted(lib, d, j, name);
    InjectKeeps(j, name);
    hide Typed, Inject, Overridden;
    var p := Inject(j, name);
    assert Containers(p)[i] == InjectEntry(Containers(j)[i], name);
    assert AllowedEntry(Containers(p)[i], name);
  }

  lemma Accepted(lib: Library, d: Json, j: Json, name: string)
    requires Typed(d) && j.Obj? && Overridden(lib, d, Document(j), name).Ok?
    ensures var p := Inject(j, name);
      && p.Obj? && Allowed(p, name) && Decodes(lib, p) && Patchable(p)
      && Typed(PatchObject(lib, d, p))
      && Overridden(lib, d, Document(j), name).value == Remerge(d, PatchObject(lib, d, p), name)
  {
    hide Typed, Inject, Check, Remerge, PatchObject, Allowed, Decodes, Patchable;
    RawCases(lib, d, Document(j), name);
    PatchOfIsObject(Document(j), name);
    CheckExact(lib, Inject(j, name), name);
  }

  // ---------- from the document to the deployment ----------

  /** Re-merging arguments touches nothing of the pod but its container list. */
  lemma SetArgsKeepsPod(d: Json, name: string, args: seq<string>)
    requires Typed(d)
    ensures Pod(SetArgs(d, name, args)).Obj?
    ensures forall k :: k != "containers" ==> Has(Pod(SetArgs(d, name, args)), k) == Has(Pod(d), k)
    ensures forall k :: k != "containers" ==> Field(Pod(SetArgs(d, name, args)), k) == Field(Pod(d), k)
  {
    hide TypedContainer;
    var cs := Containers(d);
    var i := Index(cs, name);
    if i >= 0 {
      assert TypedContainer(cs[i]);
      ArgsOfWithArgs(cs[i], args);
      var list := cs[i := WithArgs(cs[i], args)];
      WithPodTwice(d, WithField(Pod(d), "containers", Arr(list)), Null);
    }
  }

  lemma WalkSame(a: Json, b: Json, path: seq<string>)
    requires path != [] && Has(a, path[0]) == Has(b, path[0]) && Field(a, path[0]) == Field(b, path[0])
    ensures Walk(a, path) == Walk(b, path)
  {
  }

  lemma MeetsSame(o: Json, a: Json, b: Json, path: seq<string>)
    requires Meets(o, a, path) && b.Obj? && a.fields.Keys == b.fields.Keys && Field(a, path[0]) == Field(b, path[0])
    ensures Meets(o, b, path)
  {
  }

  /** The four pod fields, from the user's document to the deployment: below affinity, tolerations,
      nodeSelector and topologySpreadConstraints, what the document gives arrives, a null deletes, and
      what it does not mention stays. */
  lemma OverridesTakeEffect(lib: Library, d: Json, j: Json, name: string, path: seq<string>)
    requires Typed(d) && j.Obj? && Overridden(lib, d, Document(j), name).Ok?
    requires path != [] && path[0] in PodFields && Meets(Pod(d), Pod(j), path)
    ensures Took(Walk(Pod(j), path), Walk(Pod(d), path), Walk(Pod(Overridden(lib, d, Document(j), name).value), path))
  {
    hide Meets, Took, Typed, Inject, Remerge, Allowed, Decodes, Patchable, Overridden, PatchObject, SetArgs;
    Accepted(lib, d, j, name);
    InjectKeeps(j, name);
    var p := Inject(j, name);
    MeetsObjects(Pod(d), Pod(j), path);
    MeetsSame(Pod(d), Pod(j), Pod(p), path);
    WalkSame(Pod(j), Pod(p), path);
    PatchTakes(lib, Pod(d), Pod(p), path);
    var patched := PatchObject(lib, d, p);
    PatchedPodIs(lib, d, p, name);
    RemergeKeepsPod(d, patched, name);
    WalkSame(Pod(patched), Pod(Remerge(d, patched, name)), path);
  }

  lemma MeetsObjects(o: Json, p: Json, path: seq<string>)
    requires Meets(o, p, path)
    ensures o.Obj? && p.Obj?
  {
  }

  lemma PatchedPodIs(lib: Library, d: Json, p: Json, name: string)
    requires Typed(d) && Allowed(p, name) && Pod(p).Obj?
    ensures Pod(d).Obj? && Pod(PatchObject(lib, d, p)) == PatchObject(lib, Pod(d), Pod(p))
  {
    hide Allowed, PatchObject, TypedContainer;
    PatchSpine(lib, d, p, name);
    PatchPod(lib, d, p, name);
    WithPodTwice(d, PatchLevel(lib, Pod(d), Pod(p)), Null);
  }

  lemma RemergeKeepsPod(d: Json, patched: Json, name: string)
    requires Typed(patched)
    ensures Pod(Remerge(d, patched, name)).Obj?
    ensures forall k :: k != "containers" ==> Has(Pod(Remerge(d, patched, name)), k) == Has(Pod(patched), k)
    ensures forall k :: k != "containers" ==> Field(Pod(Remerge(d, patched, name)), k) == Field(Pod(patched), k)
  {
    hide Typed, SetArgs, Merge;
    SetArgsKeepsPod(patched, name, Merge(ArgsAt(d, name), ArgsAt(patched, name)));
  }

  // ---------- the named container ----------

  lemma {:induction false} InjectedArgs(es: seq<Json>, name: string)
    ensures LastArgs(InjectAll(es, name), Null) == LastArgs(es, Null)
    ensures MentionsArgs(InjectAll(es, name)) <==> MentionsArgs(es)
  {
    var r := InjectAll(es, name);
    assert forall i :: 0 <= i < |es| ==> Has(r[i], "args") == Has(es[i], "args") && Field(r[i], "args") == Field(es[i], "args");
    if es != [] {
      var n := |es| - 1;
      InjectedArgs(es[..n], name);
      assert InjectAll(es[..n], name) == r[..n];
    }
  }

  /** The arguments, from the user's document to the deployment: those of the last container entry that
      mentions arguments are merged into the container's, and without one the container's stay. */
  lemma ArgumentsTakeEffect(lib: Library, d: Json, j: Json, name: string)
    requires Typed(d) && j.Obj? && HasContainer(d, name) && Overridden(lib, d, Document(j), name).Ok?
    ensures ArgsAt(Overridden(lib, d, Document(j), name).value, name) ==
      if MentionsArgs(Containers(j)) then Merge(ArgsAt(d, name), Texts(Items(LastArgs(Containers(j), Null))))
      else ArgsAt(d, name)
  {
    OverridesAreFramed(lib, d, Document(j), name);
    RawCases(lib, d, Document(j), name);
    InjectKeeps(j, name);
    InjectedArgs(Containers(j), name);
    hide *;
    DocumentArgs(ArgsAt(d, name), j, name);
  }

  lemma DocumentArgs(args: seq<string>, j: Json, name: string)
    requires PatchOf(Document(j), name) == Some(Inject(j, name))
    requires Containers(Inject(j, name)) == InjectAll(Containers(j), name)
    requires LastArgs(InjectAll(Containers(j), name), Null) == LastArgs(Containers(j), Null)
    requires MentionsArgs(InjectAll(Containers(j), name)) <==> MentionsArgs(Containers(j))
    ensures OverriddenArgs(args, Document(j), name) ==
      if MentionsArgs(Containers(j)) then Merge(args, Texts(Items(LastArgs(Containers(j), Null)))) else args
  {
    hide PatchOf, Inject, InjectAll, LastArgs, MentionsArgs, Merge, Containers;
  }

  lemma InjectedMeets(c: Json, e: Json, name: string, path: seq<string>)
    requires e.Obj? && Meets(c, e, path) && path[0] != "name"
    ensures InjectEntry(e, name).Obj?
    ensures Meets(c, InjectEntry(e, name), path) && Walk(InjectEntry(e, name), path) == Walk(e, path)
  {
    var r := InjectEntry(e, name);
    assert "name"[0] == 'n';
    assert !HasDirective(r);
    WalkSame(e, r, path);
  }

  /** Both have the same resources. */
  ghost predicate SameResources(a: Json, b: Json) {
    a.Obj? && b.Obj? && Has(a, "resources") == Has(b, "resources") && Field(a, "resources") == Field(b, "resources")
  }

  lemma MeetsFrom(a: Json, b: Json, e: Json, path: seq<string>)
    requires Meets(a, e, path) && path[0] == "resources" && SameResources(a, b)
    ensures Meets(b, e, path) && Walk(b, path) == Walk(a, path)
  {
    WalkSame(a, b, path);
  }

  /** An entry that does not mention resources leaves them. */
  lemma OtherEntry(lib: Library, c: Json, e: Json, name: string)
    requires TypedContainer(c) && TypedContainer(e) && NameOf(c) == name && AllowedEntry(e, name) && !Has(e, "resources")
    ensures c.Obj? && e.Obj? && SameResources(c, PatchObject(lib, c, e))
  {
    PatchOneContainer(lib, c, e, name);
    AllowedKeysAreNoDirectives();
    NoDirective(e, ContainerFields);
  }

  /** The container after the first n entries, of which only entry q mentions resources. */
  lemma {:induction false} ResourcesAfter(lib: Library, cs: seq<Json>, p: Json, n: nat, name: string, q: nat, path: seq<string>)
    requires Index(cs, name) >= 0 && TypedContainer(cs[Index(cs, name)])
    requires p.Arr? && n <= |p.items| && GoodEntries(p.items, name) && q < |p.items|
    requires forall k :: 0 <= k < |p.items| && k != q ==> !Has(p.items[k], "resources")
    requires path != [] && path[0] == "resources" && Meets(cs[Index(cs, name)], p.items[q], path)
    ensures var i, r := Index(cs, name), PatchContainers(lib, cs, p, n);
      && |r| == |cs| && Index(r, name) == i && r[i].Obj?
      && (n <= q ==> SameResources(cs[i], r[i]))
      && (n > q ==> Took(Walk(p.items[q], path), Walk(cs[i], path), Walk(r[i], path)))
    decreases n
  {
    hide *;
    var i := Index(cs, name);
    PatchNamed(lib, cs, p, n, name);
    OnlyContainerAt(cs, PatchContainers(lib, cs, p, n), i, name, LastArgs(p.items[..n], Field(cs[i], "args")));
    if n == 0 {
      NoEntries(lib, cs, p, name);
    } else {
      ResourcesAfter(lib, cs, p, n - 1, name, q, path);
      var done, e := PatchContainers(lib, cs, p, n - 1), p.items[n - 1];
      PatchNamed(lib, cs, p, n - 1, name);
      DoneContainer(cs, done, i, name, LastArgs(p.items[..n - 1], Field(cs[i], "args")));
      GoodEntryAt(p.items, n - 1, name);
      PatchContainersStep(lib, cs, p, n, name);
      var c := done[i];
      if n - 1 == q {
        MeetsFrom(cs[i], c, e, path);
        PatchTakes(lib, c, e, path);
      } else {
        OtherEntry(lib, c, e, name);
        SameResourcesWalk(c, PatchObject(lib, c, e), cs[i], path);
      }
    }
  }

  lemma NoEntries(lib: Library, cs: seq<Json>, p: Json, name: string)
    requires Index(cs, name) >= 0 && TypedContainer(cs[Index(cs, name)]) && p.Arr?
    ensures PatchContainers(lib, cs, p, 0) == cs && SameResources(cs[Index(cs, name)], cs[Index(cs, name)])
  {
  }

  lemma DoneContainer(cs: seq<Json>, done: seq<Json>, i: nat, name: string, args: Json)
    requires i < |cs| && OnlyContainer(cs, done, i, name, args)
    ensures |done| == |cs| && Index(done, name) == i && TypedContainer(done[i]) && NameOf(done[i]) == name && done[i].Obj?
  {
  }

  lemma SameResourcesWalk(c: Json, c': Json, start: Json, path: seq<string>)
    requires SameResources(c, c') && path != [] && path[0] == "resources"
    ensures Walk(c', path) == Walk(c, path)
    ensures SameResources(start, c) ==> SameResources(start, c')
  {
    WalkSame(c, c', path);
  }

  /** The container's resources, from the user's document to the deployment: entry q of the document is
      the one that mentions resources. */
  lemma ResourcesTakeEffect(lib: Library, d: Json, j: Json, name: string, q: nat, path: seq<string>)
    requires Typed(d) && j.Obj? && HasContainer(d, name) && Overridden(lib, d, Document(j), name).Ok?
    requires q < |Containers(j)| && forall k :: 0 <= k < |Containers(j)| && k != q ==> !Has(Containers(j)[k], "resources")
    requires path != [] && path[0] == "resources" && Meets(At(d, name), Containers(j)[q], path)
    ensures var d' := Overridden(lib, d, Document(j), name).value;
      HasContainer(d', name) && Took(Walk(Containers(j)[q], path), Walk(At(d, name), path), Walk(At(d', name), path))
  {
    hide Meets, Took, Typed, Inject, Remerge, Allowed, Decodes, Patchable, Overridden, PatchObject, SetArgs, AllowedEntry, TypedContainer, Walk;
    Accepted(lib, d, j, name);
    InjectKeeps(j, name);
    var p, e := Inject(j, name), Containers(j)[q];
    MeetsObjects(At(d, name), e, path);
    assert "resources"[0] != "name"[0];
    InjectedMeets(At(d, name), e, name, path);
    forall k | 0 <= k < |Containers(p)| && k != q ensures !Has(Containers(p)[k], "resources") {
      assert Containers(p)[k] == InjectEntry(Containers(j)[k], name);
    }
    PatchedContainer(lib, d, p, name, q, path);
    var patched := PatchObject(lib, d, p);
    RemergedContainer(d, patched, name);
    WalkSame(At(patched, name), At(Remerge(d, patched, name), name), path);
  }

  lemma PatchedContainer(lib: Library, d: Json, p: Json, name: string, q: nat, path: seq<string>)
    requires Typed(d) && Allowed(p, name) && Decodes(lib, p) && Patchable(p) && HasContainer(d, name) && q < |Containers(p)|
    requires forall k :: 0 <= k < |Containers(p)| && k != q ==> !Has(Containers(p)[k], "resources")
    requires path != [] && path[0] == "resources" && Meets(At(d, name), Containers(p)[q], path)
    ensures HasContainer(PatchObject(lib, d, p), name)
    ensures Took(Walk(Containers(p)[q], path), Walk(At(d, name), path), Walk(At(PatchObject(lib, d, p), name), path))
  {
    hide TypedContainer, AllowedEntry, Meets, Took, Walk, PatchContainers, PatchObject;
    var cs, i := Containers(d), Index(Containers(d), name);
    PatchedDeployment(lib, d, p, name);
    EntriesAreGood(lib, p, name);
    ResourcesAfter(lib, cs, Field(Pod(p), "containers"), |Containers(p)|, name, q, path);
  }

  lemma IndexUpdated(cs: seq<Json>, i: nat, c: Json, name: string)
    requires i < |cs| && Index(cs, name) == i && NameOf(c) == name
    ensures Index(cs[i := c], name) == i
  {
    hide NameOf;
    var list := cs[i := c];
    assert forall k :: 0 <= k < i ==> list[k] == cs[k];
    assert list[i] == c;
  }

  lemma WithArgsKeeps(c: Json, args: seq<string>)
    requires c.Obj?
    ensures WithArgs(c, args).Obj?
    ensures forall k :: k != "args" ==> Has(WithArgs(c, args), k) == Has(c, k) && Field(WithArgs(c, args), k) == Field(c, k)
  {
  }

  /** Re-merging arguments touches nothing of the container but its arguments. */
  lemma RemergedContainer(d: Json, patched: Json, name: string)
    requires Typed(patched) && HasContainer(patched, name)
    ensures HasContainer(Remerge(d, patched, name), name)
    ensures At(Remerge(d, patched, name), name).Obj? && At(patched, name).Obj?
    ensures forall k :: k != "args" ==> Has(At(Remerge(d, patched, name), name), k) == Has(At(patched, name), k)
    ensures forall k :: k != "args" ==> Field(At(Remerge(d, patched, name), name), k) == Field(At(patched, name), k)
  {
    hide Merge, ArgsAt, TypedContainer, WithArgs, WithContainers, Rest;
    var args := Merge(ArgsAt(d, name), ArgsAt(patched, name));
    var cs, i := Containers(patched), Index(Containers(patched), name);
    WithArgsIsFramed(cs[i], args);
    ArgsOfWithArgs(cs[i], args);
    var c := WithArgs(cs[i], args);
    WithContainersIsFramed(patched, cs[i := c]);
    IndexUpdated(cs, i, c, name);
    WithArgsKeeps(cs[i], args);
  }

  // ---------- what a reported problem means ----------

  /** The keys that may stand below a level. */
  function AllowedBelow(path: seq<string>): set<string> {
    if path == [] then {"spec"}
    else if path == ["spec"] then {"template"}
    else if path == ["spec", "template"] then {"spec"}
    else {"affinity", "tolerations", "nodeSelector", "topologySpreadConstraints", "containers"}
  }

  /** The problem is there, where the report says. */
  ghost predicate IsThere(problem: Problem, p: Json, name: string) {
    match problem
    case Forbidden(path) =>
      Walk(p, path).Some? && Walk(p, path).value.Obj? && !(Walk(p, path).value.fields.Keys <= AllowedBelow(path))
    case Malformed(path) =>
      Walk(p, path).Some? && if |path| == 4 then !Walk(p, path).value.Arr? else !Walk(p, path).value.Obj?
    case NameRequired(i) => i < |Containers(p)| && Containers(p)[i].Obj? && NameOf(Containers(p)[i]) == ""
    case NameMismatch(i) => i < |Containers(p)| && Containers(p)[i].Obj? && NameOf(Containers(p)[i]) !in {"", name}
    case ForbiddenInContainer(i) =>
      i < |Containers(p)| && Containers(p)[i].Obj? && !(Containers(p)[i].fields.Keys <= {"name", "args", "resources"})
    case _ => true
  }

  lemma {:induction false} EntryProblemIsThere(p: Json, name: string, i: nat)
    requires i <= |Containers(p)| && CheckEntries(Containers(p), name, i).Some?
    ensures IsThere(CheckEntries(Containers(p), name, i).value, p, name)
    decreases |Containers(p)| - i
  {
    hide Walk;
    if CheckEntry(Containers(p)[i], name, i).None? {
      EntryProblemIsThere(p, name, i + 1);
    }
  }

  /** The route to the pod, level by level. */
  lemma RouteWalks(p: Json)
    ensures Walk(p, []) == Some(p)
    ensures Has(p, "spec") ==> Walk(p, ["spec"]) == Some(Field(p, "spec"))
    ensures Has(Field(p, "spec"), "template") ==> Walk(p, ["spec", "template"]) == Some(Field(Field(p, "spec"), "template"))
    ensures Has(Field(Field(p, "spec"), "template"), "spec") ==> Walk(p, ["spec", "template", "spec"]) == Some(Pod(p))
    ensures Has(Pod(p), "containers") ==>
      Walk(p, ["spec", "template", "spec", "containers"]) == Some(Field(Pod(p), "containers"))
  {
    var s, t := Field(p, "spec"), Field(Field(p, "spec"), "template");
    WalkOne(p, "spec");
    WalkOne(s, "template");
    WalkOne(t, "spec");
    WalkOne(Pod(p), "containers");
    assert ["spec", "template", "spec", "containers"][1..] == ["template", "spec", "containers"];
    assert ["template", "spec", "containers"][1..] == ["spec", "containers"];
    assert ["spec", "containers"][1..] == ["containers"];
    assert ["spec", "template", "spec"][1..] == ["template", "spec"];
    assert ["template", "spec"][1..] == ["spec"];
    assert ["spec", "template"][1..] == ["template"];
    if Has(Pod(p), "containers") {
      assert Walk(t, ["spec", "containers"]) == Some(Field(Pod(p), "containers"));
      assert Walk(s, ["template", "spec", "containers"]) == Walk(t, ["spec", "containers"]);
    }
  }

  /** A report names a place in the document and what is wrong there. */
  lemma ProblemIsThere(lib: Library, p: Json, name: string)
    requires p.Obj? && Check(lib, p, name).Some?
    ensures Decodes(lib, p) ==> IsThere(Check(lib, p, name).value, p, name)
    ensures Check(lib, p, name).value.InvalidFields? <==> !Decodes(lib, p)
  {
    hide Walk, Decodes, CheckEntry;
    RouteWalks(p);
    EntriesReport(Containers(p), name, 0);
    if CheckEntries(Containers(p), name, 0).Some? {
      EntryProblemIsThere(p, name, 0);
    }
    hide CheckEntries;
  }

  lemma {:induction false} EntriesReport(es: seq<Json>, name: string, i: nat)
    requires i <= |es|
    ensures CheckEntries(es, name, i).Some? ==> !CheckEntries(es, name, i).value.InvalidFields?
    decreases |es| - i
  {
    if i < |es| {
      EntriesReport(es, name, i + 1);
    }
  }
}
