/** The arguments of an operand's container, from the built-in list through the OPERAND_*_ARGS
    variable to advancedOverrides. */
module Operand {
  import opened Text
  import opened Args
  import opened Overrides
  import ArgsParser

  // ---------- the loops of advancedOverrides ----------

  method ContainerIndex(d: Json, name: string) returns (r: int)
    ensures r == Index(Containers(d), name)
  {
    hide NameOf;
    var cs := Containers(d);
    for i := 0 to |cs|
      invariant forall j :: 0 <= j < i ==> NameOf(cs[j]) != name
    {
      if NameOf(cs[i]) == name {
        return i;
      }
    }
    return -1;
  }

  /** `injectContainerName`; the flag says whether any entry was completed. */
  method InjectContainerName(p: Json, name: string) returns (r: Json, injected: bool)
    ensures r == Inject(p, name)
    ensures !injected ==> r == p
  {
    injected := false;
    r := p;
    if Field(Pod(p), "containers").Arr? {
      var es := Containers(p);
      var out: seq<Json> := [];
      for i := 0 to |es|
        invariant |out| == i && forall j :: 0 <= j < i ==> out[j] == InjectEntry(es[j], name)
        invariant !injected ==> out == es[..i]
      {
        if es[i].Obj? && "name" !in es[i].fields {
          out := out + [WithField(es[i], "name", Str(name))];
          injected := true;
        } else {
          out := out + [es[i]];
        }
      }
      assert out == InjectAll(es, name);
      r := WithContainers(p, out);
      if !injected {
        assert out == es;
        SameContainers(p);
      }
    }
  }

  lemma SameContainers(p: Json)
    requires Field(Pod(p), "containers").Arr?
    ensures WithContainers(p, Containers(p)) == p
  {
    var s, t := Field(p, "spec"), Field(Field(p, "spec"), "template");
    assert WithField(Pod(p), "containers", Arr(Containers(p))) == Pod(p);
    assert WithField(t, "spec", Pod(p)) == t && WithField(s, "template", t) == s;
  }

  /** `validateOverridePaths`: nothing when the patch decodes and stays within the allowlist,
      otherwise the first problem met. */
  method ValidateOverridePaths(lib: Library, p: Json, name: string) returns (r: Option<Problem>)
    requires p.Obj?
    ensures r == Check(lib, p, name)
    ensures r.None? <==> Decodes(lib, p) && Allowed(p, name)
  {
    hide CheckEntry, Decodes, Allowed;
    CheckExact(lib, p, name);
    if !Decodes(lib, p) {
      return Some(InvalidFields);
    }
    if !(p.fields.Keys <= {"spec"}) {
      return Some(Forbidden([]));
    }
    var template, pod := Field(p, "spec"), Field(Field(p, "spec"), "template");
    r := CheckLevel(p, "spec", {"template"}, ["spec"]);
    if r.Some? {
      return;
    }
    r := CheckLevel(template, "template", {"spec"}, ["spec", "template"]);
    if r.Some? {
      return;
    }
    r := CheckLevel(pod, "spec", PodFields + {"containers"}, ["spec", "template", "spec"]);
    if r.Some? {
      return;
    }
    if !Has(Pod(p), "containers") {
      return;
    }
    if !Pod(p).fields["containers"].Arr? {
      return Some(Malformed(["spec", "template", "spec", "containers"]));
    }
    var es := Pod(p).fields["containers"].items;
    for i := 0 to |es|
      invariant CheckEntries(es, name, 0) == CheckEntries(es, name, i)
    {
      r := CheckEntry(es[i], name, i);
      if r.Some? {
      return;
    }
    }
    return None;
  }

  /** The part of `applyAdvancedOverrides` that follows validation: the container's arguments are put
      aside, the patch is applied, and the patched arguments are merged into those put aside. */
  method PatchAndRemerge(lib: Library, d: Json, p: Json, name: string) returns (r: Result<Json, Problem>)
    requires Typed(d) && p.Obj?
    ensures r == match ApplyPatch(lib, d, p) case Err(e) => Err(e) case Ok(patched) => Ok(Remerge(d, patched, name))
  {
    hide PatchObject, Merge;
    var originalArgs := [];
    var i := ContainerIndex(d, name);
    if i >= 0 {
      originalArgs := ArgsOf(Containers(d)[i]);
    }
    r := ApplyPatch(lib, d, p);
    if r.Err? {
      return;
    }
    var patched := r.value;
    i := ContainerIndex(patched, name);
    if i >= 0 {
      var merged := MergeContainerArgs(originalArgs, ArgsOf(Containers(patched)[i]));
      r := Ok(SetArgs(patched, name, merged));
    }
  }

  // ---------- the OPERAND_*_ARGS variable ----------

  datatype EnvProblem = BadFlag(text: string) | NoContainer

  function EnvApplied(d: Json, name: string, env: string): Result<Json, EnvProblem>
    requires Typed(d)
  {
    if TrimSpace(env) == "" then Ok(d)
    else match ArgsParser.Parse(TrimSpace(env))
      case Err(text) => Err(BadFlag(text))
      case Ok(flags) =>
        if !HasContainer(d, name) then Err(NoContainer)
        else Ok(SetArgs(d, name, Merge(ArgsAt(d, name), flags)))
  }

  /** Trimming before parsing makes no difference, and a blank variable gives no flags. */
  lemma ParseTrims(env: string)
    ensures ArgsParser.Parse(TrimSpace(env)) == ArgsParser.Parse(env)
    ensures TrimSpace(env) == "" ==> ArgsParser.Parse(env) == Ok([])
  {
    hide ArgsParser.ParseParts, ArgsParser.Split;
    assert TrimSpace(TrimSpace(env)) == TrimSpace(env) by {
      hide *;
    }
  }

  /** When the variable is accepted, and what is reported otherwise. */
  lemma EnvAcceptsExactly(d: Json, name: string, env: string)
    requires Typed(d)
    ensures var r, flags := EnvApplied(d, name, env), ArgsParser.Parse(env);
      && (r.Ok? <==> TrimSpace(env) == "" || (flags.Ok? && HasContainer(d, name)))
      && (flags.Err? ==> r == Err(BadFlag(flags.error)))
      && (TrimSpace(env) == "" ==> r == Ok(d))
  {
    hide ArgsParser.Parse, TrimSpace, HasContainer, SetArgs, Typed;
    ParseTrims(env);
  }

  // ---------- the deployment being built ----------

  class Deployment {
    var tree: Json

    ghost predicate Valid()
      reads this
    {
      Typed(tree)
    }

    constructor (manifest: Json)
      requires Typed(manifest)
      ensures Valid() && tree == manifest
    {
      tree := manifest;
    }

    /** The built-in arguments, cluster TLS flags included, become the container's arguments. */
    method SetDefaultArgs(name: string, args: seq<string>)
      requires Valid()
      modifies this
      ensures Valid() && tree == SetArgs(old(tree), name, args)
    {
      SetArgsIsFramed(tree, name, args);
      tree := SetArgs(tree, name, args);
    }

    /** `applyOperandArgsFromEnv`: an error leaves the deployment as it was. */
    method ApplyOperandArgsFromEnv(name: string, env: string) returns (problem: Option<EnvProblem>)
      requires Valid()
      modifies this
      ensures Valid()
      ensures match EnvApplied(old(tree), name, env)
        case Ok(d) => problem == None && tree == d
        case Err(e) => problem == Some(e) && tree == old(tree)
    {
      hide ArgsParser.Parse, TrimSpace, SetArgs, Typed, Framed, Merge;
      var raw := TrimSpace(env);
      if raw == "" {
        return None;
      }
      var overrides := ArgsParser.ParseOperandArgsEnv(raw);
      if overrides.Err? {
        return Some(BadFlag(overrides.error));
      }
      var i := ContainerIndex(tree, name);
      if i < 0 {
        return Some(NoContainer);
      }
      var merged := MergeContainerArgs(ArgsOf(Containers(tree)[i]), overrides.value);
      SetArgsIsFramed(tree, name, merged);
      tree := SetArgs(tree, name, merged);
      return None;
    }

    /** `applyAdvancedOverrides`: an error leaves the deployment as it was; success changes only what
        the allowlist names, when the container exists. */
    method ApplyAdvancedOverrides(lib: Library, raw: Raw, name: string) returns (problem: Option<Problem>)
      requires Valid()
      modifies this
      ensures Valid()
      ensures problem == match Overridden(lib, old(tree), raw, name) case Ok(_) => None case Err(e) => Some(e)
      ensures problem.Some? ==> tree == old(tree)
      ensures problem.None? ==> tree == Overridden(lib, old(tree), raw, name).value
      ensures problem.None? && HasContainer(old(tree), name) ==> Framed(old(tree), tree, name)
    {
      hide Check, Decodes, Allowed, ApplyPatch, Remerge;
      if raw.Absent? {
        return None;
      }
      if raw.Unparsable? || !(raw.json.Obj? || raw.json.Null?) {
        return Some(InvalidJson);
      }
      var p, _ := InjectContainerName(if raw.json.Null? then Obj(map[]) else raw.json, name);
      assert PatchOf(raw, name) == Some(p);
      PatchOfIsObject(raw, name);
      problem := ValidateOverridePaths(lib, p, name);
      if problem.Some? {
        return;
      }
      var result := PatchAndRemerge(lib, tree, p, name);
      if result.Err? {
        return Some(result.error);
      }
      OverridesAreFramed(lib, tree, raw, name);
      tree := result.value;
      return None;
    }
  }

  // ---------- precedence through the whole pipeline ----------

  /** A rewriting step of the pipeline that has nothing to do with arguments: it may change anything
      but those of the named container. */
  ghost predicate KeepsArgs(rewrite: Json -> Json, name: string) {
    forall d :: Typed(d) ==>
      && Typed(rewrite(d)) && ArgsAt(rewrite(d), name) == ArgsAt(d, name)
      && (HasContainer(d, name) <==> HasContainer(rewrite(d), name))
  }

  datatype BuildProblem = EnvFailed(env: EnvProblem) | OverridesFailed(overrides: Problem)

  /** `getDeploymentObject` as far as arguments go: the defaults, the variable, other rewriting, the
      overrides, and the rewriting for the proxy. */
  ghost function Built(lib: Library, d: Json, defaults: seq<string>, env: string, rewrite: Json -> Json,
                       raw: Raw, proxy: Json -> Json, name: string): Result<Json, BuildProblem>
    requires Typed(d) && KeepsArgs(rewrite, name)
  {
    SetArgsIsFramed(d, name, defaults);
    var base := SetArgs(d, name, defaults);
    match EnvApplied(base, name, env)
    case Err(e) => Err(EnvFailed(e))
    case Ok(withEnv) =>
      EnvAppliedTyped(base, name, env);
      match Overridden(lib, rewrite(withEnv), raw, name)
      case Err(e) => Err(OverridesFailed(e))
      case Ok(result) => Ok(proxy(result))
  }

  lemma EnvAppliedTyped(d: Json, name: string, env: string)
    requires Typed(d) && EnvApplied(d, name, env).Ok?
    ensures Typed(EnvApplied(d, name, env).value)
  {
    hide Typed, HasContainer, ArgsAt, SetArgs, Framed, ArgsParser.Parse, TrimSpace;
    ParseTrims(env);
    if TrimSpace(env) != "" {
      SetArgsIsFramed(d, name, Merge(ArgsAt(d, name), ArgsParser.Parse(env).value));
    }
  }

  /** The pipeline as the operator runs it, one step after the other on one deployment. */
  method BuildDeployment(lib: Library, manifest: Json, defaults: seq<string>, env: string, rewrite: Json -> Json,
                         raw: Raw, proxy: Json -> Json, name: string) returns (r: Result<Json, BuildProblem>)
    requires Typed(manifest) && KeepsArgs(rewrite, name)
    ensures r == Built(lib, manifest, defaults, env, rewrite, raw, proxy, name)
  {
    hide Typed, SetArgs, EnvApplied, Overridden, Framed, HasContainer, ArgsAt;
    var deployment := new Deployment(manifest);
    deployment.SetDefaultArgs(name, defaults);
    var badEnv := deployment.ApplyOperandArgsFromEnv(name, env);
    if badEnv.Some? {
      return Err(EnvFailed(badEnv.value));
    }
    deployment.tree := rewrite(deployment.tree);
    var badOverrides := deployment.ApplyAdvancedOverrides(lib, raw, name);
    if badOverrides.Some? {
      return Err(OverridesFailed(badOverrides.value));
    }
    return Ok(proxy(deployment.tree));
  }

  /** The arguments the overrides give; none when they do not mention arguments. */
  function GivenFlags(raw: Raw, name: string): seq<string> {
    if MentionsArgs(Entries(raw, name)) then GivenArgs(raw, name) else []
  }

  lemma EnvAppliedArgs(d: Json, name: string, env: string)
    requires Typed(d) && HasContainer(d, name) && EnvApplied(d, name, env).Ok?
    ensures ArgsParser.Parse(env).Ok?
    ensures var d' := EnvApplied(d, name, env).value;
      && Typed(d') && HasContainer(d', name)
      && ArgsAt(d', name) == Merge(ArgsAt(d, name), ArgsParser.Parse(env).value)
  {
    hide Typed, HasContainer, ArgsAt, SetArgs, Framed, ArgsParser.Parse, TrimSpace;
    ParseTrims(env);
    if TrimSpace(env) != "" {
      SetArgsIsFramed(d, name, Merge(ArgsAt(d, name), ArgsParser.Parse(env).value));
    }
  }

  /** The arguments that come out of the pipeline. */
  lemma BuiltArgs(lib: Library, d: Json, defaults: seq<string>, env: string, rewrite: Json -> Json,
                  raw: Raw, proxy: Json -> Json, name: string)
    requires Typed(d) && HasContainer(d, name) && KeepsArgs(rewrite, name) && KeepsArgs(proxy, name)
    requires Built(lib, d, defaults, env, rewrite, raw, proxy, name).Ok?
    ensures ArgsParser.Parse(env).Ok?
    ensures ArgsAt(Built(lib, d, defaults, env, rewrite, raw, proxy, name).value, name) ==
      Merge(Merge(defaults, ArgsParser.Parse(env).value), GivenFlags(raw, name))
  {
    hide Typed, HasContainer, ArgsAt, SetArgs, Overridden, EnvApplied, Framed, KeepsArgs, GivenFlags, Merge, ArgsParser.Parse;
    SetArgsIsFramed(d, name, defaults);
    var base := SetArgs(d, name, defaults);
    EnvAppliedArgs(base, name, env);
    var withEnv := EnvApplied(base, name, env).value;
    ArgsKept(rewrite, name, withEnv);
    OverriddenGives(lib, rewrite(withEnv), raw, name);
    ArgsKept(proxy, name, Overridden(lib, rewrite(withEnv), raw, name).value);
  }

  lemma ArgsKept(rewrite: Json -> Json, name: string, d: Json)
    requires KeepsArgs(rewrite, name) && Typed(d)
    ensures Typed(rewrite(d)) && ArgsAt(rewrite(d), name) == ArgsAt(d, name)
    ensures HasContainer(d, name) <==> HasContainer(rewrite(d), name)
  {
    hide Typed, HasContainer, ArgsAt;
  }

  lemma OverriddenGives(lib: Library, d: Json, raw: Raw, name: string)
    requires Typed(d) && HasContainer(d, name) && Overridden(lib, d, raw, name).Ok?
    ensures var d' := Overridden(lib, d, raw, name).value;
      Typed(d') && ArgsAt(d', name) == Merge(ArgsAt(d, name), GivenFlags(raw, name))
  {
    hide Typed, HasContainer, ArgsAt, Overridden, Framed, MentionsArgs, Entries, GivenArgs;
    OverridesAreFramed(lib, d, raw, name);
  }

  /** Every flag takes its value from advancedOverrides, else from the variable, else from the
      defaults; no default flag is lost, and the default positional tokens stay where they are. */
  lemma ArgumentPrecedence(lib: Library, d: Json, defaults: seq<string>, env: string, rewrite: Json -> Json,
                           raw: Raw, proxy: Json -> Json, name: string, key: string)
    requires Typed(d) && HasContainer(d, name) && KeepsArgs(rewrite, name) && KeepsArgs(proxy, name) && key != ""
    requires Built(lib, d, defaults, env, rewrite, raw, proxy, name).Ok?
    ensures ArgsParser.Parse(env).Ok?
    ensures var result := Built(lib, d, defaults, env, rewrite, raw, proxy, name).value;
      var args, given, flags := ArgsAt(result, name), GivenFlags(raw, name), ArgsParser.Parse(env).value;
      && Effective(args, key) == (
        if Sets(given, key) then Effective(given, key)
        else if Sets(flags, key) then Effective(flags, key)
        else Effective(defaults, key))
      && (Sets(defaults, key) ==> Sets(args, key))
      && |defaults| <= |args|
      && forall j :: 0 <= j < |defaults| && FlagKey(defaults[j]) == "" ==> args[j] == defaults[j]
  {
    hide *;
    BuiltArgs(lib, d, defaults, env, rewrite, raw, proxy, name);
    TwoMerges(defaults, ArgsParser.Parse(env).value, GivenFlags(raw, name), key);
  }

  lemma TwoMerges(defaults: seq<string>, flags: seq<string>, given: seq<string>, key: string)
    requires key != ""
    ensures var args := Merge(Merge(defaults, flags), given);
      && Effective(args, key) == (
        if Sets(given, key) then Effective(given, key)
        else if Sets(flags, key) then Effective(flags, key)
        else Effective(defaults, key))
      && (Sets(defaults, key) ==> Sets(args, key))
      && |defaults| <= |args|
      && forall j :: 0 <= j < |defaults| && FlagKey(defaults[j]) == "" ==> args[j] == defaults[j]
  {
    hide Merge, FlagKey, LastIndex;
    MergeEffect(defaults, flags, key);
    MergeEffect(Merge(defaults, flags), given, key);
  }
}
