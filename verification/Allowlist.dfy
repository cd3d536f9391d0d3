/** The allowlist of advancedOverrides read as a condition on JSON paths: what it means, for any
    document, that no path leads anywhere the user may not go. */
module Allowlist {
  import opened Text
  import opened Overrides

  datatype Step = Key(key: string) | Item(index: nat)

  function Child(j: Json, step: Step): Option<Json> {
    match step
    case Key(k) => if Has(j, k) then Some(j.fields[k]) else None
    case Item(i) => if j.Arr? && i < |j.items| then Some(j.items[i]) else None
  }

  /** The value at the end of a path, explicit nulls included. */
  function Follow(j: Json, path: seq<Step>): Option<Json> {
    if path == [] then Some(j)
    else
      var parent := Follow(j, path[..|path| - 1]);
      if parent.None? then None else Child(parent.value, path[|path| - 1])
  }

  const Route: seq<Step> := [Key("spec"), Key("template"), Key("spec")]

  /** What may stand at the end of a path: objects along spec.template.spec, below them one of the
      four pod fields with any value or a list of containers, whose object entries bear the
      component's name and only allowed keys. */
  predicate MayStand(path: seq<Step>, v: Json, name: string) {
    && (0 < |path| <= 3 ==> path == Route[..|path|] && v.Obj?)
    && (|path| == 4 ==> path[3].Key? && path[3].key in PodFields + {"containers"})
    && (|path| == 4 && path[3] == Key("containers") ==> v.Arr?)
    && (|path| == 5 && path[3] == Key("containers") && v.Obj? ==> NameOf(v) == name != "")
    && (|path| == 6 && path[3] == Key("containers") && path[5].Key? ==> path[5].key in ContainerFields)
  }

  ghost predicate AllPathsMayStand(p: Json, name: string) {
    forall path :: Follow(p, path).Some? ==> MayStand(path, Follow(p, path).value, name)
  }

  /** Where an allowed document leads. */
  ghost predicate Lands(p: Json, path: seq<Step>, v: Json) {
    && (|path| == 0 ==> v == p)
    && (|path| == 1 ==> v == Field(p, "spec"))
    && (|path| == 2 ==> v == Field(Field(p, "spec"), "template"))
    && (|path| == 3 ==> v == Pod(p))
    && (|path| == 4 && path[3] == Key("containers") ==> v == Field(Pod(p), "containers"))
    && (|path| == 5 && path[3] == Key("containers") ==> v in Containers(p))
  }

  lemma {:induction false} AllowedPath(p: Json, path: seq<Step>, name: string)
    requires Allowed(p, name) && Follow(p, path).Some?
    ensures MayStand(path, Follow(p, path).value, name) && Lands(p, path, Follow(p, path).value)
  {
    if path != [] {
      var n := |path| - 1;
      AllowedPath(p, path[..n], name);
      AllowedStep(p, path[..n], path[n], Follow(p, path[..n]).value, name);
      assert path == path[..n] + [path[n]];
    }
  }

  lemma AllowedStep(p: Json, path: seq<Step>, step: Step, parent: Json, name: string)
    requires Allowed(p, name) && MayStand(path, parent, name) && Lands(p, path, parent)
    requires Child(parent, step).Some?
    ensures MayStand(path + [step], Child(parent, step).value, name) && Lands(p, path + [step], Child(parent, step).value)
  {
    var v := Child(parent, step).value;
    var next := path + [step];
    if |path| <= 2 {
      assert step == Route[|path|];
      assert next == Route[..|next|];
    } else if |path| == 4 && path[3] == Key("containers") {
      assert next[3] == Key("containers") && step.Item?;
      var i := step.index;
      assert v == Containers(p)[i] && AllowedEntry(Containers(p)[i], name);
    } else if |path| == 5 && path[3] == Key("containers") {
      assert next[3] == Key("containers");
      var i :| 0 <= i < |Containers(p)| && Containers(p)[i] == parent;
      assert AllowedEntry(Containers(p)[i], name);
    }
  }

  lemma PathsExtend(p: Json, path: seq<Step>, step: Step)
    requires Follow(p, path).Some?
    ensures Follow(p, path + [step]) == Child(Follow(p, path).value, step)
  {
    assert (path + [step])[..|path|] == path;
  }

  lemma RouteLeads(p: Json)
    ensures Follow(p, []) == Some(p)
    ensures Has(p, "spec") ==> Follow(p, Route[..1]) == Some(Field(p, "spec"))
    ensures Has(p, "spec") && Has(Field(p, "spec"), "template") ==>
      Follow(p, Route[..2]) == Some(Field(Field(p, "spec"), "template"))
    ensures Has(p, "spec") && Has(Field(p, "spec"), "template") && Has(Field(Field(p, "spec"), "template"), "spec") ==>
      Follow(p, Route) == Some(Pod(p))
  {
    assert Route[..1] == [] + [Key("spec")];
    assert Route[..2] == Route[..1] + [Key("template")];
    assert Route == Route[..2] + [Key("spec")];
    PathsExtend(p, [], Key("spec"));
    if Has(p, "spec") {
      PathsExtend(p, Route[..1], Key("template"));
      if Has(Field(p, "spec"), "template") {
        PathsExtend(p, Route[..2], Key("spec"));
      }
    }
  }

  /** What the paths one step below a value say. */
  lemma StepBelow(p: Json, path: seq<Step>, step: Step, name: string)
    requires AllPathsMayStand(p, name) && Follow(p, path).Some? && Child(Follow(p, path).value, step).Some?
    ensures MayStand(path + [step], Child(Follow(p, path).value, step).value, name)
    ensures Follow(p, path + [step]) == Child(Follow(p, path).value, step)
  {
    hide MayStand;
    PathsExtend(p, path, step);
  }

  /** All keys below a place on the route are allowed, and the next place is an object. */
  lemma LevelAllowed(p: Json, n: nat, name: string)
    requires AllPathsMayStand(p, name) && n <= 2 && Follow(p, Route[..n]).Some? && Follow(p, Route[..n]).value.Obj?
    ensures var v := Follow(p, Route[..n]).value;
      && v.fields.Keys <= {Route[n].key}
      && (Has(v, Route[n].key) ==> v.fields[Route[n].key].Obj?)
  {
    hide Follow, AllPathsMayStand;
    var v := Follow(p, Route[..n]).value;
    forall k | k in v.fields ensures k == Route[n].key && v.fields[k].Obj? {
      StepBelow(p, Route[..n], Key(k), name);
      assert (Route[..n] + [Key(k)])[n] == Key(k);
    }
  }

  lemma PodAllowed(p: Json, name: string)
    requires AllPathsMayStand(p, name) && Follow(p, Route) == Some(Pod(p)) && Pod(p).Obj?
    ensures Pod(p).fields.Keys <= PodFields + {"containers"}
    ensures Has(Pod(p), "containers") ==> Pod(p).fields["containers"].Arr?
    ensures forall i :: 0 <= i < |Containers(p)| ==> AllowedEntry(Containers(p)[i], name)
  {
    hide Follow, AllPathsMayStand;
    forall k | k in Pod(p).fields
      ensures k in PodFields + {"containers"} && (k == "containers" ==> Pod(p).fields[k].Arr?)
    {
      StepBelow(p, Route, Key(k), name);
      assert (Route + [Key(k)])[3] == Key(k);
    }
    if Has(Pod(p), "containers") {
      var list := Route + [Key("containers")];
      StepBelow(p, Route, Key("containers"), name);
      forall i | 0 <= i < |Containers(p)| ensures AllowedEntry(Containers(p)[i], name) {
        StepBelow(p, list, Item(i), name);
        EntryAllowed(p, list + [Item(i)], Containers(p)[i], name);
      }
    }
  }

  lemma EntryAllowed(p: Json, path: seq<Step>, e: Json, name: string)
    requires AllPathsMayStand(p, name) && Follow(p, path) == Some(e)
    requires |path| == 5 && path[3] == Key("containers") && MayStand(path, e, name)
    ensures AllowedEntry(e, name)
  {
    hide Follow, AllPathsMayStand;
    if e.Obj? {
      forall k | k in e.fields ensures k in ContainerFields {
        StepBelow(p, path, Key(k), name);
        assert (path + [Key(k)])[5] == Key(k) && (path + [Key(k)])[3] == Key("containers");
      }
    }
  }

  /** A document passes the allowlist if and only if every path in it, to any depth and whatever
      stands at its end, is one that may stand. */
  lemma AllowedIsPathwise(p: Json, name: string)
    requires p.Obj?
    ensures Allowed(p, name) <==> AllPathsMayStand(p, name)
  {
    hide Follow, MayStand;
    if Allowed(p, name) {
      hide Allowed;
      forall path | Follow(p, path).Some? ensures MayStand(path, Follow(p, path).value, name) {
        AllowedPath(p, path, name);
      }
    }
    if AllPathsMayStand(p, name) {
      PathwiseIsAllowed(p, name);
    }
  }

  lemma PathwiseIsAllowed(p: Json, name: string)
    requires p.Obj? && AllPathsMayStand(p, name)
    ensures Allowed(p, name)
  {
    hide Follow, AllPathsMayStand, AllowedEntry;
    RouteLeads(p);
    assert Route[..0] == [] && Route[..3] == Route;
    LevelAllowed(p, 0, name);
    if Has(p, "spec") {
      LevelAllowed(p, 1, name);
      if Has(Field(p, "spec"), "template") {
        LevelAllowed(p, 2, name);
        if Has(Field(Field(p, "spec"), "template"), "spec") {
          PodAllowed(p, name);
        }
      }
    }
  }
}
