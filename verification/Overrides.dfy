/** advancedOverrides: a user's JSON patch is checked against an allowlist, applied to a deployment
    as a strategic merge patch, and the container arguments are merged back.

    A deployment is its JSON tree.  What the operator takes from libraries is a `Library`: strict
    decoding, and those parts of the strategic merge patch that the claims do not depend on. */
module Overrides {
  import opened Text
  import opened Args

  datatype Json =
    | Null
    | Bool(flag: bool)
    | Num(text: string)
    | Str(text: string)
    | Arr(items: seq<Json>)
    | Obj(fields: map<string, Json>)

  /** strict: does strict decoding accept the patch, beyond what `Decodes` says;
      lists: a list patched over a list, other than `containers` and `args`;
      created: an object patched where the original has nothing;
      directive: an object whose patch holds a `$` directive;
      patches, decodes: do the patch itself and the decoding of its result succeed. */
  datatype Library = Library(
    strict: Json -> bool,
    lists: (string, seq<Json>, seq<Json>) -> seq<Json>,
    created: (string, Json) -> Json,
    directive: (Json, Json) -> Json,
    patches: (Json, Json) -> bool,
    decodes: Json -> bool)

  /** What is found under a key; an absent key and an explicit null both read as null. */
  function Field(j: Json, key: string): Json {
    if j.Obj? && key in j.fields then j.fields[key] else Null
  }

  predicate Has(j: Json, key: string) {
    j.Obj? && key in j.fields
  }

  function WithField(j: Json, key: string, v: Json): Json
    requires j.Obj?
  {
    Obj(j.fields[key := v])
  }

  function Pod(d: Json): Json {
    Field(Field(Field(d, "spec"), "template"), "spec")
  }

  /** The path to the pod specification consists of objects. */
  predicate Spine(d: Json) {
    d.Obj? && Field(d, "spec").Obj? && Field(Field(d, "spec"), "template").Obj? && Pod(d).Obj?
  }

  function WithPod(d: Json, pod: Json): Json
    requires Spine(d)
  {
    var spec := Field(d, "spec");
    WithField(d, "spec", WithField(spec, "template", WithField(Field(spec, "template"), "spec", pod)))
  }

  function Items(j: Json): seq<Json> {
    if j.Arr? then j.items else []
  }

  function Containers(d: Json): seq<Json> {
    Items(Field(Pod(d), "containers"))
  }

  function WithContainers(d: Json, cs: seq<Json>): Json
    requires Spine(d)
  {
    WithPod(d, WithField(Pod(d), "containers", Arr(cs)))
  }

  function TextOf(j: Json): string {
    if j.Str? then j.text else ""
  }

  function NameOf(c: Json): string {
    TextOf(Field(c, "name"))
  }

  /** A null inside a list of strings decodes to the empty string. */
  function Texts(js: seq<Json>): (r: seq<string>)
    ensures |r| == |js|
  {
    seq(|js|, i requires 0 <= i < |js| => TextOf(js[i]))
  }

  function ArgsOf(c: Json): seq<string> {
    Texts(Items(Field(c, "args")))
  }

  function Strings(ss: seq<string>): (r: seq<Json>)
    ensures |r| == |ss|
  {
    seq(|ss|, i requires 0 <= i < |ss| => Str(ss[i]))
  }

  /** An empty argument list is left out of the JSON form. */
  function WithArgs(c: Json, args: seq<string>): Json
    requires c.Obj?
  {
    if args == [] then Obj(c.fields - {"args"}) else WithField(c, "args", Arr(Strings(args)))
  }

  lemma ArgsOfWithArgs(c: Json, args: seq<string>)
    requires TypedContainer(c)
    ensures c.Obj?
    ensures ArgsOf(WithArgs(c, args)) == args
  {
    if args != [] {
      assert Texts(Strings(args)) == args;
    }
  }

  predicate TypedContainer(c: Json) {
    && c.Obj?
    && (Field(c, "name").Null? || Field(c, "name").Str?)
    && (Field(c, "args").Null? || Field(c, "args").Arr?)
    && forall i :: 0 <= i < |Items(Field(c, "args"))| ==> var a := Items(Field(c, "args"))[i]; a.Null? || a.Str?
  }

  /** The shape every decoded deployment has. */
  predicate Typed(d: Json) {
    && Spine(d)
    && (Field(Pod(d), "containers").Null? || Field(Pod(d), "containers").Arr?)
    && forall i :: 0 <= i < |Containers(d)| ==> TypedContainer(Containers(d)[i])
  }

  /** The first container with this name, or -1. */
  function Index(cs: seq<Json>, name: string): (i: int)
    ensures -1 <= i < |cs|
    ensures i >= 0 ==> NameOf(cs[i]) == name
    ensures forall j :: 0 <= j < (if i < 0 then |cs| else i) ==> NameOf(cs[j]) != name
  {
    if cs == [] then -1
    else if NameOf(cs[0]) == name then 0
    else
      var i := Index(cs[1..], name);
      if i < 0 then -1 else i + 1
  }

  predicate HasContainer(d: Json, name: string) {
    Index(Containers(d), name) >= 0
  }

  /** The arguments of the named container, none when there is no such container. */
  function ArgsAt(d: Json, name: string): seq<string> {
    var i := Index(Containers(d), name);
    if i < 0 then [] else ArgsOf(Containers(d)[i])
  }

  function SetArgs(d: Json, name: string, args: seq<string>): Json
    requires Typed(d)
  {
    var cs := Containers(d);
    var i := Index(cs, name);
    if i < 0 then d else WithContainers(d, cs[i := WithArgs(cs[i], args)])
  }

  // ---------- the name a user may leave out ----------

  function InjectEntry(e: Json, name: string): Json {
    if e.Obj? && "name" !in e.fields then WithField(e, "name", Str(name)) else e
  }

  function InjectAll(es: seq<Json>, name: string): (r: seq<Json>)
    ensures |r| == |es|
  {
    seq(|es|, i requires 0 <= i < |es| => InjectEntry(es[i], name))
  }

  function Inject(p: Json, name: string): Json {
    if Field(Pod(p), "containers").Arr? then WithContainers(p, InjectAll(Containers(p), name)) else p
  }

  // ---------- the allowlist ----------

  datatype Problem =
    | InvalidJson
    | InvalidFields
    | Forbidden(path: seq<string>)
    | Malformed(path: seq<string>)
    | NameRequired(index: nat)
    | NameMismatch(index: nat)
    | ForbiddenInContainer(index: nat)
    | PatchFailed

  const PodFields: set<string> := {"affinity", "tolerations", "nodeSelector", "topologySpreadConstraints"}
  const ContainerFields: set<string> := {"name", "args", "resources"}

  /** One level of the walk: an absent level is fine, a null or any other non-object is not. */
  function CheckLevel(parent: Json, key: string, allowed: set<string>, path: seq<string>): Option<Problem> {
    if !Has(parent, key) then None
    else if !parent.fields[key].Obj? then Some(Malformed(path))
    else if !(parent.fields[key].fields.Keys <= allowed) then Some(Forbidden(path))
    else None
  }

  function CheckEntry(e: Json, name: string, i: nat): Option<Problem> {
    if !e.Obj? then None
    else if NameOf(e) == "" then Some(NameRequired(i))
    else if NameOf(e) != name then Some(NameMismatch(i))
    else if !(e.fields.Keys <= ContainerFields) then Some(ForbiddenInContainer(i))
    else None
  }

  function CheckEntries(es: seq<Json>, name: string, i: nat): Option<Problem>
    requires i <= |es|
    decreases |es| - i
  {
    if i == |es| then None
    else if CheckEntry(es[i], name, i).Some? then CheckEntry(es[i], name, i)
    else CheckEntries(es, name, i + 1)
  }

  /** Strict decoding of the patch into a deployment: names are strings, arguments lists of strings. */
  predicate Decodes(lib: Library, p: Json) {
    lib.strict(p) && forall i :: 0 <= i < |Containers(p)| && Containers(p)[i].Obj? ==> TypedContainer(Containers(p)[i])
  }

  function Check(lib: Library, p: Json, name: string): Option<Problem>
    requires p.Obj?
  {
    if !Decodes(lib, p) then Some(InvalidFields)
    else if !(p.fields.Keys <= {"spec"}) then Some(Forbidden([]))
    else
      var spec := CheckLevel(p, "spec", {"template"}, ["spec"]);
      if spec.Some? then spec
      else
        var template := CheckLevel(Field(p, "spec"), "template", {"spec"}, ["spec", "template"]);
        if template.Some? then template
        else
          var pod := CheckLevel(Field(Field(p, "spec"), "template"), "spec", PodFields + {"containers"},
                                ["spec", "template", "spec"]);
          if pod.Some? then pod
          else if !Has(Pod(p), "containers") then None
          else if !Field(Pod(p), "containers").Arr? then Some(Malformed(["spec", "template", "spec", "containers"]))
          else CheckEntries(Containers(p), name, 0)
  }

  // ---------- the strategic merge patch ----------

  predicate HasDirective(p: Json)
    requires p.Obj?
  {
    exists k :: k in p.fields && HasPrefix(k, "$")
  }

  /** Objects merge key by key and a null deletes. */
  function PatchObject(lib: Library, o: Json, p: Json): Json
    requires o.Obj? && p.Obj?
    decreases p, 0
  {
    if HasDirective(p) then lib.directive(o, p)
    else Obj(map k | k in o.fields.Keys + p.fields.Keys && (k in p.fields ==> p.fields[k] != Null) ::
      if k !in p.fields then o.fields[k]
      else if k in o.fields then PatchValue(lib, k, o.fields[k], p.fields[k])
      else if p.fields[k].Obj? then lib.created(k, p.fields[k])
      else p.fields[k])
  }

  /** Containers merge by name, an argument list is replaced, values of different kinds are replaced. */
  function PatchValue(lib: Library, key: string, o: Json, p: Json): Json
    decreases p, 1
  {
    if o.Obj? && p.Obj? then PatchObject(lib, o, p)
    else if o.Arr? && p.Arr? && key == "containers" then Arr(PatchContainers(lib, o.items, p, |p.items|))
    else if o.Arr? && p.Arr? && key != "args" then Arr(lib.lists(key, o.items, p.items))
    else p
  }

  /** The first n entries of the patch, applied in order. */
  function PatchContainers(lib: Library, cs: seq<Json>, p: Json, n: nat): seq<Json>
    requires p.Arr? && n <= |p.items|
    decreases p, 0, n
  {
    if n == 0 then cs
    else
      var done := PatchContainers(lib, cs, p, n - 1);
      var e := p.items[n - 1];
      var i := Index(done, NameOf(e));
      if !e.Obj? then done
      else if i < 0 then done + [lib.created("containers", e)]
      else if done[i].Obj? then done[i := PatchObject(lib, done[i], e)]
      else done
  }

  /** A list of containers holds objects only, or the patch fails. */
  predicate Patchable(p: Json) {
    forall i :: 0 <= i < |Containers(p)| ==> Containers(p)[i].Obj?
  }

  function ApplyPatch(lib: Library, d: Json, p: Json): Result<Json, Problem>
    requires d.Obj? && p.Obj?
  {
    if !Patchable(p) || !lib.patches(d, p) then Err(PatchFailed)
    else
      var patched := PatchObject(lib, d, p);
      if Typed(patched) && lib.decodes(patched) then Ok(patched) else Err(PatchFailed)
  }

  // ---------- the whole operation ----------

  datatype Raw = Absent | Unparsable | Document(json: Json)

  /** The patch a document stands for: a top-level null counts as an empty patch. */
  function PatchOf(raw: Raw, name: string): Option<Json> {
    match raw
    case Document(Null) => Some(Obj(map[]))
    case Document(Obj(fields)) => Some(Inject(Obj(fields), name))
    case _ => None
  }

  function Remerge(d: Json, patched: Json, name: string): Json
    requires Typed(patched)
  {
    SetArgs(patched, name, Merge(ArgsAt(d, name), ArgsAt(patched, name)))
  }

  function Overridden(lib: Library, d: Json, raw: Raw, name: string): Result<Json, Problem>
    requires Typed(d)
  {
    if raw.Absent? then Ok(d)
    else
      match PatchOf(raw, name)
      case None => Err(InvalidJson)
      case Some(p) =>
        PatchOfIsObject(raw, name);
        if Check(lib, p, name).Some? then Err(Check(lib, p, name).value)
        else
          match ApplyPatch(lib, d, p)
          case Err(e) => Err(e)
          case Ok(patched) => Ok(Remerge(d, patched, name))
  }

  lemma PatchOfIsObject(raw: Raw, name: string)
    ensures PatchOf(raw, name).Some? ==> PatchOf(raw, name).value.Obj?
  {
  }

  // ---------- the allowlist, stated path by path ----------

  predicate AllowedEntry(e: Json, name: string) {
    e.Obj? ==> NameOf(e) == name != "" && e.fields.Keys <= ContainerFields
  }

  /** A level that is left out, or an object with allowed keys only. */
  predicate AllowedLevel(parent: Json, key: string, allowed: set<string>) {
    Has(parent, key) ==> parent.fields[key].Obj? && parent.fields[key].fields.Keys <= allowed
  }

  predicate Allowed(p: Json, name: string) {
    && p.Obj? && p.fields.Keys <= {"spec"}
    && AllowedLevel(p, "spec", {"template"})
    && AllowedLevel(Field(p, "spec"), "template", {"spec"})
    && AllowedLevel(Field(Field(p, "spec"), "template"), "spec", PodFields + {"containers"})
    && (Has(Pod(p), "containers") ==> Field(Pod(p), "containers").Arr?)
    && forall i :: 0 <= i < |Containers(p)| ==> AllowedEntry(Containers(p)[i], name)
  }

  lemma {:induction false} CheckEntriesExact(es: seq<Json>, name: string, i: nat)
    requires i <= |es|
    ensures CheckEntries(es, name, i).None? <==> forall j :: i <= j < |es| ==> AllowedEntry(es[j], name)
    decreases |es| - i
  {
    if i < |es| {
      CheckEntriesExact(es, name, i + 1);
    }
  }

  lemma CheckExact(lib: Library, p: Json, name: string)
    requires p.Obj?
    ensures Check(lib, p, name).None? <==> Decodes(lib, p) && Allowed(p, name)
  {
    hide CheckEntries, AllowedEntry, Decodes;
    CheckEntriesExact(Containers(p), name, 0);
  }

  // ---------- what a patch cannot touch ----------

  /** Everything outside the four pod fields and the container list. */
  function Rest(d: Json): Json
    requires Spine(d)
  {
    WithPod(d, Obj(Pod(d).fields - (PodFields + {"containers"})))
  }

  function Erase(c: Json): Json {
    if c.Obj? then Obj(c.fields - {"args", "resources"}) else c
  }

  /** The container list without the arguments and resources of the named container. */
  function Others(cs: seq<Json>, name: string): seq<Json> {
    var i := Index(cs, name);
    if i < 0 then cs else cs[i := Erase(cs[i])]
  }

  ghost predicate Framed(d: Json, d': Json, name: string)
    requires Spine(d) && Spine(d')
  {
    Rest(d') == Rest(d) && Others(Containers(d'), name) == Others(Containers(d), name)
  }

  lemma NoDirective(p: Json, allowed: set<string>)
    requires p.Obj? && p.fields.Keys <= allowed
    requires forall k :: k in allowed ==> !HasPrefix(k, "$")
    ensures !HasDirective(p)
  {
  }

  /** The patch of an object where the document has a level, the object itself where it has none. */
  function PatchLevel(lib: Library, o: Json, p: Json): Json
    requires o.Obj?
  {
    if p.Obj? then PatchObject(lib, o, p) else o
  }

  lemma PatchOneLevel(lib: Library, o: Json, p: Json, key: string)
    requires o.Obj? && Field(o, key).Obj? && p.Obj? && p.fields.Keys <= {key} && !HasPrefix(key, "$")
    requires Has(p, key) ==> Field(p, key).Obj?
    ensures PatchObject(lib, o, p) == WithField(o, key, PatchLevel(lib, Field(o, key), Field(p, key)))
  {
    NoDirective(p, {key});
    assert PatchObject(lib, o, p).fields == o.fields[key := PatchLevel(lib, Field(o, key), Field(p, key))];
  }

  lemma PatchSpine(lib: Library, d: Json, p: Json, name: string)
    requires Spine(d) && Allowed(p, name)
    ensures PatchObject(lib, d, p) == WithPod(d, PatchLevel(lib, Pod(d), Pod(p)))
  {
    hide PatchObject, AllowedEntry;
    assert "spec"[0] == 's' && "template"[0] == 't';
    var ds, ps := Field(d, "spec"), Field(p, "spec");
    PatchOneLevel(lib, d, p, "spec");
    if ps.Obj? {
      PatchOneLevel(lib, ds, ps, "template");
      var dt, pt := Field(ds, "template"), Field(ps, "template");
      if pt.Obj? {
        PatchOneLevel(lib, dt, pt, "spec");
      } else {
        assert WithField(dt, "spec", Pod(d)) == dt;
      }
    } else {
      var dt := Field(ds, "template");
      assert WithField(dt, "spec", Pod(d)) == dt;
      assert WithField(ds, "template", dt) == ds;
    }
  }

  lemma AllowedKeysAreNoDirectives()
    ensures forall k :: k in PodFields + {"containers"} + ContainerFields ==> !HasPrefix(k, "$")
  {
    assert "affinity"[0] == 'a' && "tolerations"[0] == 't' && "nodeSelector"[0] == 'n';
    assert "topologySpreadConstraints"[0] == 't' && "containers"[0] == 'c';
    assert "name"[0] == 'n' && "args"[0] == 'a' && "resources"[0] == 'r';
  }

  /** Keys that the patch does not mention keep their values. */
  lemma PatchKeepsUnmentioned(lib: Library, o: Json, p: Json, mentioned: set<string>)
    requires o.Obj? && p.Obj? && !HasDirective(p) && p.fields.Keys <= mentioned
    ensures PatchObject(lib, o, p).Obj?
    ensures PatchObject(lib, o, p).fields - mentioned == o.fields - mentioned
  {
    hide PatchValue;
    var r := PatchObject(lib, o, p).fields;
    assert (r - mentioned).Keys == (o.fields - mentioned).Keys;
  }

  /** A container patched by an allowed entry keeps its name and everything but arguments and
      resources. */
  lemma PatchOneContainer(lib: Library, c: Json, e: Json, name: string)
    requires TypedContainer(c) && TypedContainer(e) && NameOf(c) == name && AllowedEntry(e, name)
    ensures PatchObject(lib, c, e).Obj? && NameOf(PatchObject(lib, c, e)) == name
    ensures Erase(PatchObject(lib, c, e)) == Erase(c)
    ensures Field(PatchObject(lib, c, e), "args") == if Has(e, "args") then e.fields["args"] else Field(c, "args")
  {
    AllowedKeysAreNoDirectives();
    NoDirective(e, ContainerFields);
    var r := PatchObject(lib, c, e).fields;
    assert e.fields["name"] == Str(name) && c.fields["name"] == Str(name);
    assert r["name"] == PatchValue(lib, "name", Str(name), Str(name)) == Str(name);
    PatchKeepsUnmentioned(lib, c, e, ContainerFields);
    assert (r - {"args", "resources"}) == (c.fields - {"args", "resources"}) by {
      var x, y := r - {"args", "resources"}, c.fields - {"args", "resources"};
      assert forall k :: k in x <==> k == "name" || k in r - ContainerFields;
      assert forall k :: k in y <==> k == "name" || k in c.fields - ContainerFields;
    }
  }

  /** The argument list that the entries of a patch leave: the last entry that mentions it decides. */
  function LastArgs(es: seq<Json>, args: Json): Json {
    if es == [] then args
    else if Has(es[|es| - 1], "args") then es[|es| - 1].fields["args"]
    else LastArgs(es[..|es| - 1], args)
  }

  predicate GoodEntries(es: seq<Json>, name: string) {
    forall i :: 0 <= i < |es| ==> TypedContainer(es[i]) && AllowedEntry(es[i], name)
  }

  /** Patching the containers changed container i only, and of it arguments and resources only. */
  ghost predicate OnlyContainer(cs: seq<Json>, r: seq<Json>, i: nat, name: string, args: Json)
    requires i < |cs|
  {
    && |r| == |cs| && r == cs[i := r[i]]
    && Index(r, name) == i
    && Erase(r[i]) == Erase(cs[i])
    && TypedContainer(r[i])
    && Field(r[i], "args") == args
  }

  lemma OnlyContainerStep(lib: Library, cs: seq<Json>, r: seq<Json>, i: nat, name: string, args: Json, e: Json)
    requires i < |cs| && OnlyContainer(cs, r, i, name, args)
    requires TypedContainer(e) && AllowedEntry(e, name)
    ensures r[i].Obj?
    ensures OnlyContainer(cs, r[i := PatchObject(lib, r[i], e)], i, name, if Has(e, "args") then e.fields["args"] else args)
  {
    hide PatchObject, AllowedEntry, Erase;
    PatchOneContainer(lib, r[i], e, name);
    var c := PatchObject(lib, r[i], e);
    var r' := r[i := c];
    assert Field(c, "name").Str? by {
      PatchedNameIsText(c, name, e);
    }
    assert r' == cs[i := r'[i]];
    assert Index(r', name) == i by {
      assert forall j :: 0 <= j < i ==> NameOf(r'[j]) != name;
    }
  }

  lemma PatchedNameIsText(c: Json, name: string, e: Json)
    requires NameOf(c) == name && e.Obj? && AllowedEntry(e, name)
    ensures Field(c, "name").Str?
  {
  }

  lemma {:induction false} PatchNamed(lib: Library, cs: seq<Json>, p: Json, n: nat, name: string)
    requires Index(cs, name) >= 0 && TypedContainer(cs[Index(cs, name)])
    requires p.Arr? && n <= |p.items| && GoodEntries(p.items, name)
    ensures var i := Index(cs, name);
      OnlyContainer(cs, PatchContainers(lib, cs, p, n), i, name, LastArgs(p.items[..n], Field(cs[i], "args")))
  {
    hide *;
    var i := Index(cs, name);
    var args := Field(cs[i], "args");
    if n == 0 {
      Untouched(lib, cs, p, name);
      assert p.items[..0] == [];
    } else {
      PatchNamed(lib, cs, p, n - 1, name);
      var done := PatchContainers(lib, cs, p, n - 1);
      var e := p.items[n - 1];
      assert TypedContainer(e) && AllowedEntry(e, name) by {
        GoodEntryAt(p.items, n - 1, name);
      }
      OnlyContainerAt(cs, done, i, name, LastArgs(p.items[..n - 1], args));
      OnlyContainerStep(lib, cs, done, i, name, LastArgs(p.items[..n - 1], args), e);
      PatchContainersStep(lib, cs, p, n, name);
      assert p.items[..n] == p.items[..n - 1] + [e];
      LastArgsStep(p.items[..n - 1], e, args);
    }
  }

  lemma GoodEntryAt(es: seq<Json>, i: nat, name: string)
    requires GoodEntries(es, name) && i < |es|
    ensures TypedContainer(es[i]) && AllowedEntry(es[i], name)
  {
  }

  lemma PatchContainersStep(lib: Library, cs: seq<Json>, p: Json, n: nat, name: string)
    requires p.Arr? && 0 < n <= |p.items| && TypedContainer(p.items[n - 1]) && AllowedEntry(p.items[n - 1], name)
    requires var done := PatchContainers(lib, cs, p, n - 1);
      Index(done, name) >= 0 && done[Index(done, name)].Obj?
    ensures var done := PatchContainers(lib, cs, p, n - 1);
      p.items[n - 1].Obj? &&
      PatchContainers(lib, cs, p, n) ==
        done[Index(done, name) := PatchObject(lib, done[Index(done, name)], p.items[n - 1])]
  {
    hide PatchObject;
    GoodEntryName(p.items[n - 1], name);
  }

  lemma LastArgsStep(es: seq<Json>, e: Json, args: Json)
    ensures LastArgs(es + [e], args) == if Has(e, "args") then e.fields["args"] else LastArgs(es, args)
  {
    assert (es + [e])[..|es|] == es;
  }

  lemma Untouched(lib: Library, cs: seq<Json>, p: Json, name: string)
    requires Index(cs, name) >= 0 && TypedContainer(cs[Index(cs, name)]) && p.Arr?
    ensures PatchContainers(lib, cs, p, 0) == cs
    ensures var args := Field(cs[Index(cs, name)], "args");
      LastArgs([], args) == args && OnlyContainer(cs, cs, Index(cs, name), name, args)
  {
  }

  lemma OnlyContainerAt(cs: seq<Json>, r: seq<Json>, i: nat, name: string, args: Json)
    requires i < |cs| && OnlyContainer(cs, r, i, name, args)
    ensures |r| == |cs| && Index(r, name) == i && Others(r, name) == cs[i := Erase(cs[i])]
    ensures r[i].Obj? && Field(r[i], "args") == args
  {
  }

  lemma GoodEntryName(e: Json, name: string)
    requires TypedContainer(e) && AllowedEntry(e, name)
    ensures e.Obj? && NameOf(e) == name
  {
  }

  /** Patching never shortens the container list, and an entry for a missing container extends it. */
  lemma {:induction false} PatchExtends(lib: Library, cs: seq<Json>, p: Json, n: nat, name: string)
    requires p.Arr? && n <= |p.items| && GoodEntries(p.items, name) && Index(cs, name) < 0
    ensures |PatchContainers(lib, cs, p, n)| >= |cs| + if n > 0 then 1 else 0
  {
    hide PatchObject, TypedContainer, AllowedEntry;
    if n > 0 {
      PatchExtends(lib, cs, p, n - 1, name);
      GoodEntryName(p.items[n - 1], name);
    }
  }

  lemma WithPodTwice(d: Json, x: Json, y: Json)
    requires Spine(d) && x.Obj?
    ensures Spine(WithPod(d, x)) && Pod(WithPod(d, x)) == x
    ensures WithPod(WithPod(d, x), y) == WithPod(d, y)
  {
    var dx, dy := WithPod(d, x), WithPod(d, y);
    var t := Field(Field(d, "spec"), "template");
    assert t.fields["spec" := x]["spec" := y] == t.fields["spec" := y];
    var sx := Field(dx, "spec");
    assert sx.fields["template" := WithField(t, "spec", y)] == Field(d, "spec").fields["template" := WithField(t, "spec", y)];
    assert WithPod(dx, y).fields == dy.fields;
  }

  /** The container list after the patch. */
  function NewContainers(lib: Library, d: Json, p: Json): seq<Json> {
    if !Field(Pod(d), "containers").Arr? then Containers(p)
    else if !Field(Pod(p), "containers").Arr? then Containers(d)
    else PatchContainers(lib, Containers(d), Field(Pod(p), "containers"), |Containers(p)|)
  }

  lemma PatchPod(lib: Library, d: Json, p: Json, name: string)
    requires Typed(d) && Allowed(p, name)
    ensures var pod := PatchLevel(lib, Pod(d), Pod(p));
      && pod.Obj?
      && pod.fields - (PodFields + {"containers"}) == Pod(d).fields - (PodFields + {"containers"})
      && Items(Field(pod, "containers")) == NewContainers(lib, d, p)
  {
    hide TypedContainer, AllowedEntry, PatchContainers;
    if Pod(p).Obj? {
      AllowedKeysAreNoDirectives();
      NoDirective(Pod(p), PodFields + {"containers"});
      PatchKeepsUnmentioned(lib, Pod(d), Pod(p), PodFields + {"containers"});
    }
  }

  lemma PatchedDeployment(lib: Library, d: Json, p: Json, name: string)
    requires Typed(d) && Allowed(p, name)
    ensures var patched := PatchObject(lib, d, p);
      Spine(patched) && Rest(patched) == Rest(d) && Containers(patched) == NewContainers(lib, d, p)
  {
    hide PatchObject, PatchLevel, Allowed, NewContainers, TypedContainer;
    PatchSpine(lib, d, p, name);
    PatchPod(lib, d, p, name);
    var pod := PatchLevel(lib, Pod(d), Pod(p));
    WithPodTwice(d, pod, Obj(pod.fields - (PodFields + {"containers"})));
  }

  lemma EntriesAreGood(lib: Library, p: Json, name: string)
    requires Allowed(p, name) && Decodes(lib, p) && Patchable(p)
    ensures GoodEntries(Containers(p), name)
  {
    hide TypedContainer, AllowedEntry;
  }

  /** The patch itself changes only what it may, exactly when it has a container to address. */
  lemma PatchIsFramed(lib: Library, d: Json, p: Json, name: string)
    requires Typed(d) && Allowed(p, name) && Decodes(lib, p) && Patchable(p)
    ensures var patched := PatchObject(lib, d, p);
      && Spine(patched)
      && (Framed(d, patched, name) <==> HasContainer(d, name) || Containers(p) == [])
      && (HasContainer(d, name) ==> HasContainer(patched, name))
      && (HasContainer(d, name) ==>
        Field(At(patched, name), "args") == LastArgs(Containers(p), Field(At(d, name), "args")))
  {
    hide PatchObject, TypedContainer, AllowedEntry, Rest;
    PatchedDeployment(lib, d, p, name);
    EntriesAreGood(lib, p, name);
    var patched := PatchObject(lib, d, p);
    var cs := Containers(d);
    var list := Field(Pod(p), "containers");
    hide Allowed, Decodes, Patchable, GoodEntries;
    if list.Arr? && Field(Pod(d), "containers").Arr? {
      assert list.items[..|list.items|] == list.items;
      if HasContainer(d, name) {
        PatchNamed(lib, cs, list, |list.items|, name);
        OnlyContainerAt(cs, Containers(patched), Index(cs, name), name, LastArgs(Containers(p), Field(At(d, name), "args")));
      } else {
        PatchExtends(lib, cs, list, |list.items|, name);
      }
    }
  }

  /** The named container. */
  function At(d: Json, name: string): Json
    requires HasContainer(d, name)
  {
    Containers(d)[Index(Containers(d), name)]
  }

  lemma SetArgsIsFramed(d: Json, name: string, args: seq<string>)
    requires Typed(d)
    ensures Typed(SetArgs(d, name, args)) && Framed(d, SetArgs(d, name, args), name)
    ensures HasContainer(d, name) ==>
      HasContainer(SetArgs(d, name, args), name) && ArgsAt(SetArgs(d, name, args), name) == args
  {
    hide WithContainers, Rest, WithPod, WithArgs, ArgsOf, TypedContainer, Erase;
    var cs := Containers(d);
    var i := Index(cs, name);
    if i >= 0 {
      WithArgsIsFramed(cs[i], args);
      ArgsOfWithArgs(cs[i], args);
      var cs' := cs[i := WithArgs(cs[i], args)];
      assert Index(cs', name) == i by {
        assert forall j :: 0 <= j < i ==> NameOf(cs'[j]) != name;
      }
      WithContainersIsFramed(d, cs');
      assert cs'[i := Erase(cs'[i])] == cs[i := Erase(cs[i])];
    }
  }

  lemma WithContainersIsFramed(d: Json, cs: seq<Json>)
    requires Spine(d)
    ensures var r := WithContainers(d, cs);
      Spine(r) && Field(Pod(r), "containers").Arr? && Rest(r) == Rest(d) && Containers(r) == cs
  {
    var pod := WithField(Pod(d), "containers", Arr(cs));
    var k := PodFields + {"containers"};
    assert pod.fields - k == Pod(d).fields - k;
    WithPodTwice(d, pod, Obj(pod.fields - k));
  }

  lemma WithArgsIsFramed(c: Json, args: seq<string>)
    requires TypedContainer(c)
    ensures var r := WithArgs(c, args);
      TypedContainer(r) && NameOf(r) == NameOf(c) && Erase(r) == Erase(c)
  {
    var r := WithArgs(c, args);
    assert r.fields - {"args", "resources"} == c.fields - {"args", "resources"};
    assert Field(r, "name") == Field(c, "name");
  }

  lemma PatchStaysTyped(lib: Library, d: Json, p: Json, name: string)
    requires Typed(d) && Allowed(p, name) && Decodes(lib, p) && Patchable(p) && HasContainer(d, name)
    ensures Typed(PatchObject(lib, d, p))
  {
    hide PatchObject, TypedContainer, AllowedEntry, Rest;
    PatchedDeployment(lib, d, p, name);
    EntriesAreGood(lib, p, name);
    PatchedContainersKey(lib, d, p, name);
    hide Allowed, Decodes, Patchable, GoodEntries;
    var list := Field(Pod(p), "containers");
    if list.Arr? {
      PatchNamed(lib, Containers(d), list, |list.items|, name);
    }
  }

  lemma PatchedContainersKey(lib: Library, d: Json, p: Json, name: string)
    requires Typed(d) && Allowed(p, name) && HasContainer(d, name)
    ensures Field(Pod(PatchObject(lib, d, p)), "containers").Arr?
  {
    hide PatchObject, Allowed, TypedContainer, PatchLevel;
    PatchSpine(lib, d, p, name);
    PatchPodKey(lib, d, p, name);
    WithPodTwice(d, PatchLevel(lib, Pod(d), Pod(p)), Null);
  }

  lemma PatchPodKey(lib: Library, d: Json, p: Json, name: string)
    requires Typed(d) && Allowed(p, name) && HasContainer(d, name)
    ensures PatchLevel(lib, Pod(d), Pod(p)).Obj? && Field(PatchLevel(lib, Pod(d), Pod(p)), "containers").Arr?
  {
    hide TypedContainer, AllowedEntry, PatchContainers;
    var list := Field(Pod(d), "containers");
    assert list.Arr?;
    if Pod(p).Obj? {
      AllowedKeysAreNoDirectives();
      NoDirective(Pod(p), PodFields + {"containers"});
      if Has(Pod(p), "containers") {
        assert PatchValue(lib, "containers", list, Field(Pod(p), "containers")).Arr?;
      }
    }
  }

  // ---------- the whole operation ----------

  /** The container entries of the patch a document stands for. */
  function Entries(raw: Raw, name: string): seq<Json> {
    var p := PatchOf(raw, name);
    if p.Some? then Containers(p.value) else []
  }

  predicate MentionsArgs(es: seq<Json>) {
    exists i :: 0 <= i < |es| && Has(es[i], "args")
  }

  /** The argument list the user's document gives. */
  function GivenArgs(raw: Raw, name: string): seq<string> {
    Texts(Items(LastArgs(Entries(raw, name), Null)))
  }

  function OverriddenArgs(args: seq<string>, raw: Raw, name: string): seq<string> {
    if MentionsArgs(Entries(raw, name)) then Merge(args, GivenArgs(raw, name)) else args
  }

  lemma {:induction false} LastArgsDecides(es: seq<Json>, args: Json)
    ensures LastArgs(es, args) == if MentionsArgs(es) then LastArgs(es, Null) else args
  {
    if es != [] && !Has(es[|es| - 1], "args") {
      LastArgsDecides(es[..|es| - 1], args);
      assert MentionsArgs(es) <==> MentionsArgs(es[..|es| - 1]) by {
        assert forall i :: 0 <= i < |es| - 1 ==> es[i] == es[..|es| - 1][i];
      }
    }
  }

  /** When the container exists, overriding succeeds exactly on the documents that decode, stay
      within the allowlist and that the libraries accept. */
  lemma OverridesAcceptExactly(lib: Library, d: Json, raw: Raw, name: string)
    requires Typed(d) && HasContainer(d, name) && !raw.Absent?
    ensures Overridden(lib, d, raw, name).Ok? <==>
      && PatchOf(raw, name).Some?
      && var p := PatchOf(raw, name).value;
        && Decodes(lib, p) && Allowed(p, name) && Patchable(p)
        && lib.patches(d, p) && lib.decodes(PatchObject(lib, d, p))
  {
    hide Decodes, Allowed, Patchable, Typed, PatchObject, PatchOf, Check;
    PatchOfIsObject(raw, name);
    if PatchOf(raw, name).Some? {
      var p := PatchOf(raw, name).value;
      CheckExact(lib, p, name);
      if Decodes(lib, p) && Allowed(p, name) && Patchable(p) {
        PatchStaysTyped(lib, d, p, name);
      }
    }
  }

  /** What the whole operation may change, for every document and every library.

      Only the four pod fields and the named container's arguments and resources change, exactly
      when the container exists or the document has no container entry; otherwise a container is
      added.  The arguments are the old ones merged with those of the document. */
  lemma OverridesAreFramed(lib: Library, d: Json, raw: Raw, name: string)
    requires Typed(d) && Overridden(lib, d, raw, name).Ok?
    ensures var d' := Overridden(lib, d, raw, name).value;
      && Typed(d')
      && (Framed(d, d', name) <==> HasContainer(d, name) || Entries(raw, name) == [])
      && (HasContainer(d, name) ==> HasContainer(d', name) && ArgsAt(d', name) == OverriddenArgs(ArgsAt(d, name), raw, name))
  {
    assert d.Obj?;
    hide Decodes, Allowed, Patchable, Typed, PatchObject, PatchOf, Check, Rest, Others, Containers, Merge;
    if raw.Absent? {
      AbsentHasNoEntries(name);
    } else {
      PatchOfIsObject(raw, name);
      var p := PatchOf(raw, name).value;
      CheckExact(lib, p, name);
      PatchIsFramed(lib, d, p, name);
      var patched := PatchObject(lib, d, p);
      var merged := Merge(ArgsAt(d, name), ArgsAt(patched, name));
      SetArgsIsFramed(patched, name, merged);
      if HasContainer(d, name) {
        LastArgsDecides(Entries(raw, name), Field(At(d, name), "args"));
        MergeSelf(ArgsAt(d, name));
      }
    }
  }

  lemma AbsentHasNoEntries(name: string)
    ensures Entries(Absent, name) == [] && !MentionsArgs([])
  {
  }
}
