/** One reconcile pass of the operator: it compares desired objects with what the label-filtered
    cache shows, writes where they differ, and only then advances the list of tracked annotation
    keys on its custom resource.  Any client call may fail and stop the pass. */
module Reconcile {
  import opened Text
  import opened Sorting
  import opened ResourceMetadata

  datatype Key = Key(kind: string, name: string)

  /** What the operator reads and writes of an object.  `template` holds the pod-template
      annotations of a Deployment and is empty for other kinds; `spec` stands for the compared
      fields, and for the data of a kind whose data belongs to someone else. */
  datatype Object = Object(labels: StringMap, annotations: StringMap, template: StringMap, spec: string)

  /** How a kind is written: replaced as a whole, metadata only (Secret, ConfigMap), or merged into
      what is there (Namespace). */
  datatype Mode = Replace | MetadataOnly | MergeInto

  /** An operand resource: its manifest before labels and annotations are applied, and whether the
      cache of its kind is filtered by the managed label. */
  datatype Resource = Resource(key: Key, mode: Mode, filtered: bool, hasTemplate: bool, manifest: Object)

  /** The Namespace is built without a manifest and its cache is not filtered; only Deployments,
      which are replaced as a whole, have a pod template. */
  predicate ValidResource(r: Resource) {
    && (r.mode == MergeInto ==> !r.filtered && r.manifest.labels == map[] && r.manifest.annotations == map[])
    && (r.hasTemplate ==> r.mode == Replace)
  }

  /** The part of both custom resources that a pass reads here. */
  datatype Spec = Spec(managerLabels: StringMap, configLabels: StringMap, version: string, annotations: StringMap)

  datatype Metadata = Metadata(labels: StringMap, annotations: StringMap, deleted: seq<string>)

  function MetadataFor(spec: Spec, tracked: seq<string>): Metadata {
    Metadata(ResourceLabels(spec.managerLabels, spec.configLabels, spec.version), spec.annotations,
             Deleted(tracked, spec.annotations))
  }

  // ---------- comparing and writing one object ----------

  function Without(m: StringMap, keys: seq<string>): StringMap {
    map k | k in m && k !in keys :: m[k]
  }

  function Desired(r: Resource, m: Metadata): Object {
    Object(Copy(r.manifest.labels, m.labels), Copy(r.manifest.annotations, m.annotations),
           if r.hasTemplate then Copy(r.manifest.template, m.annotations) else map[], r.manifest.spec)
  }

  /** `annotationMapsModified`: a desired key differs, a missing key counting as empty, or a
      deleted key is still there. */
  predicate AnnotationsModified(desired: StringMap, fetched: StringMap, deleted: seq<string>) {
    || (exists k :: k in desired && Lookup(fetched, k) != desired[k])
    || (exists k :: k in deleted && k in fetched)
  }

  /** `annotationMapsModified` as it runs: one loop over each side's keys. */
  method AnnotationMapsModified(desired: StringMap, fetched: StringMap, deleted: seq<string>) returns (r: bool)
    ensures r == AnnotationsModified(desired, fetched, deleted)
  {
    var todo := desired.Keys;
    while todo != {}
      invariant todo <= desired.Keys
      invariant forall k :: k in desired && k !in todo ==> Lookup(fetched, k) == desired[k]
      decreases |todo|
    {
      var k :| k in todo;
      if Lookup(fetched, k) != desired[k] {
        return true;
      }
      todo := todo - {k};
    }
    for i := 0 to |deleted|
      invariant forall j :: 0 <= j < i ==> deleted[j] !in fetched
    {
      if deleted[i] in fetched {
        return true;
      }
    }
    return false;
  }

  predicate MetadataModified(d: Object, f: Object, deleted: seq<string>) {
    d.labels != f.labels || AnnotationsModified(d.annotations, f.annotations, deleted)
  }

  /** A desired entry that the namespace lacks; a namespace without any entry lacks all of them. */
  predicate NamespaceNeeds(existing: StringMap, desired: StringMap) {
    || (existing == map[] && desired != map[])
    || exists k :: k in desired && Lookup(existing, k) != desired[k]
  }

  /** Whether a visible object is reported as changed. */
  predicate Drifted(r: Resource, m: Metadata, f: Object) {
    var d := Desired(r, m);
    match r.mode
    case Replace =>
      || d.spec != f.spec
      || (r.hasTemplate && AnnotationsModified(d.template, f.template, m.deleted))
      || MetadataModified(d, f, m.deleted)
    case MetadataOnly => MetadataModified(d, f, m.deleted)
    case MergeInto =>
      NamespaceNeeds(f.labels, m.labels) || NamespaceNeeds(f.annotations, m.annotations) || m.deleted != []
  }

  /** What a write leaves on the server. */
  function Written(r: Resource, m: Metadata, f: Object): Object {
    var d := Desired(r, m);
    match r.mode
    case Replace => d.(annotations := Without(d.annotations, m.deleted), template := Without(d.template, m.deleted))
    case MetadataOnly => f.(labels := d.labels, annotations := Without(d.annotations, m.deleted))
    case MergeInto =>
      f.(labels := if NamespaceNeeds(f.labels, m.labels) then Copy(f.labels, m.labels) else f.labels,
         annotations := if NamespaceNeeds(f.annotations, m.annotations) || m.deleted != []
                        then Without(Copy(f.annotations, m.annotations), m.deleted) else f.annotations)
  }

  predicate Visible(r: Resource, f: Object) {
    r.filtered ==> Lookup(f.labels, ManagedLabel) == ManagedValue
  }

  /** The object after the resource was applied: created when absent, restored when it exists but
      the cache hides it, written when it drifted. */
  function AppliedTo(r: Resource, m: Metadata, found: Option<Object>): Object {
    if found == None then Desired(r, m)
    else if !Visible(r, found.value) || Drifted(r, m, found.value) then Written(r, m, found.value)
    else found.value
  }

  // ---------- a pass over the server's store ----------

  type Store = map<Key, Object>

  function Get(store: Store, key: Key): Option<Object> {
    if key in store then Some(store[key]) else None
  }

  function Apply(store: Store, r: Resource, m: Metadata): Store {
    store[r.key := AppliedTo(r, m, Get(store, r.key))]
  }

  /** The resource is present, the cache shows it, and it is not reported as changed: applying it
      issues no write. */
  predicate Settled(store: Store, r: Resource, m: Metadata) {
    r.key in store && Visible(r, store[r.key]) && !Drifted(r, m, store[r.key])
  }

  function ApplyAll(store: Store, rs: seq<Resource>, m: Metadata): Store
    decreases |rs|
  {
    if rs == [] then store else ApplyAll(Apply(store, rs[0], m), rs[1..], m)
  }

  ghost function NextTracked(tracked: seq<string>, spec: Spec): seq<string> {
    if TrackingNeedsUpdate(tracked, spec.annotations) then SortedKeys(spec.annotations.Keys) else tracked
  }

  /** The outcome of a client call: served, refused, or carried out with the reply lost. */
  datatype Outcome = Served | Refused | Lost

  /** The API server, the tracking list on the custom resource, and a count of write calls.  `net`
      decides the outcome of every client call of a pass, so a pass may stop anywhere. */
  class Cluster {
    var store: Store
    var tracked: seq<string>
    var processed: bool
    var writes: nat

    constructor (store: Store, tracked: seq<string>)
      ensures this.store == store && this.tracked == tracked && !processed && writes == 0
    {
      this.store, this.tracked, this.processed, this.writes := store, tracked, false, 0;
    }

    /** Look the object up in the cache, then create, restore or update it as needed.  A create
        that finds the object hidden from the cache falls back to the uncached write. */
    method ApplyResource(r: Resource, m: Metadata, net: nat -> Outcome, start: nat) returns (ok: bool, calls: nat)
      requires ValidResource(r)
      modifies this`store, this`writes
      ensures store == old(store) || store == Apply(old(store), r, m)
      ensures ok ==> store == Apply(old(store), r, m)
      ensures (forall i: nat :: net(i) == Served) ==> ok
      ensures writes >= old(writes) && (ok && writes == old(writes) ==> Settled(old(store), r, m))
      ensures Settled(old(store), r, m) ==> writes == old(writes) && store == old(store)
    {
      hide Drifted, Written, Desired;
      calls := start + 1;
      if net(start) != Served {
        return false, calls;
      }
      var cached := r.key in store && Visible(r, store[r.key]);
      if cached && !Drifted(r, m, store[r.key]) {
        assert store == Apply(store, r, m);
        return true, calls;
      }
      writes, calls := writes + 1, calls + 1;
      if !cached && r.key in store {
        // The create is answered with AlreadyExists; restore with a second call.
        if net(start + 1) != Served {
          return false, calls;
        }
        writes, calls := writes + 1, calls + 1;
      }
      var outcome := net(calls - 1);
      if outcome != Refused {
        store := Apply(store, r, m);
      }
      ok := outcome == Served;
    }

    /** A pass: every resource in order, then the tracking list, stopping at the first failure. */
    method Pass(rs: seq<Resource>, spec: Spec, net: nat -> Outcome) returns (ok: bool)
      requires forall i :: 0 <= i < |rs| ==> ValidResource(rs[i])
      modifies this
      ensures var m := MetadataFor(spec, old(tracked));
        exists n :: 0 <= n <= |rs| && store == ApplyAll(old(store), rs[..n], m)
          && (tracked == old(tracked) || (n == |rs| && tracked == NextTracked(old(tracked), spec)))
      ensures ok ==> && store == ApplyAll(old(store), rs, MetadataFor(spec, old(tracked)))
                     && tracked == NextTracked(old(tracked), spec) && processed
      ensures (forall i: nat :: net(i) == Served) ==> ok
      ensures (forall i :: 0 <= i < |rs| ==> Settled(old(store), rs[i], MetadataFor(spec, old(tracked))))
        && !TrackingNeedsUpdate(old(tracked), spec.annotations) && old(processed)
        ==> writes == old(writes) && store == old(store) && tracked == old(tracked)
      ensures writes >= old(writes)
      ensures ok && writes == old(writes) ==>
        forall i :: 0 <= i < |rs| ==> Settled(old(store), rs[i], MetadataFor(spec, old(tracked)))
    {
      hide Settled, Apply, ResourceLabels;
      var deleted := GetDeletedKeys(tracked, spec.annotations);
      var m := Metadata(ResourceLabels(spec.managerLabels, spec.configLabels, spec.version), spec.annotations, deleted);
      ghost var quiet := forall i :: 0 <= i < |rs| ==> Settled(old(store), rs[i], m);
      var calls := 0;
      for i := 0 to |rs|
        invariant store == ApplyAll(old(store), rs[..i], m)
        invariant tracked == old(tracked) && processed == old(processed)
        invariant quiet ==> store == old(store) && writes == old(writes)
        invariant writes >= old(writes)
        invariant writes == old(writes) ==>
          store == old(store) && forall k :: 0 <= k < i ==> Settled(old(store), rs[k], m)
      {
        ApplyAllSnoc(old(store), rs[..i + 1], m);
        assert rs[..i + 1][..i] == rs[..i];
        ok, calls := ApplyResource(rs[i], m, net, calls);
        if !ok {
          return false;
        }
      }
      assert rs[..|rs|] == rs;
      var changed := TrackingNeedsUpdate(tracked, spec.annotations);
      if !changed && processed {
        return true;
      }
      writes := writes + 1;
      if net(calls) != Refused {
        if changed {
          tracked := SortKeys(spec.annotations.Keys);
        }
        processed := true;
      }
      ok := net(calls) == Served;
    }
  }

  lemma {:induction false} ApplyAllSnoc(store: Store, rs: seq<Resource>, m: Metadata)
    requires rs != []
    ensures ApplyAll(store, rs, m) == Apply(ApplyAll(store, rs[..|rs| - 1], m), rs[|rs| - 1], m)
    decreases |rs|
  {
    hide Apply;
    if |rs| > 1 {
      ApplyAllSnoc(Apply(store, rs[0], m), rs[1..], m);
      assert rs[1..][..|rs| - 2] == rs[..|rs| - 1][1..];
    }
  }

  // ---------- one object: settled after it was applied, and clean ----------

  /** The annotation keys an object of this resource carries, pod template included. */
  function Carried(r: Resource, o: Object): set<string> {
    o.annotations.Keys + if r.hasTemplate then o.template.Keys else {}
  }

  /** Metadata as every pass builds it: the managed label is set, and a deleted key is neither in
      the spec nor in the manifest. */
  ghost predicate FitsResource(r: Resource, m: Metadata) {
    && ValidResource(r)
    && Lookup(m.labels, ManagedLabel) == ManagedValue
    && forall k :: k in m.deleted ==> k !in m.annotations && k !in Carried(r, r.manifest)
  }

  lemma WithoutUnmodified(d: StringMap, deleted: seq<string>)
    requires forall k :: k in deleted ==> k !in d
    ensures Without(d, deleted) == d
    ensures !AnnotationsModified(d, d, deleted)
  {
  }

  /** Once applied, an object is visible and, as soon as the deleted keys are no longer tracked, not
      reported as changed.  While they are, only the Namespace still is: it counts as due as long as
      any key is deleted. */
  lemma AppliedIsSettled(r: Resource, m: Metadata, found: Option<Object>)
    requires FitsResource(r, m)
    ensures Visible(r, AppliedTo(r, m, found)) && !Drifted(r, m.(deleted := []), AppliedTo(r, m, found))
    ensures Drifted(r, m, AppliedTo(r, m, found)) <==> r.mode == MergeInto && m.deleted != []
  {
    if r.mode == MergeInto {
      NamespaceSettled(r, m, found);
    } else {
      ObjectSettled(r, m, found);
    }
  }

  lemma ObjectSettled(r: Resource, m: Metadata, found: Option<Object>)
    requires FitsResource(r, m) && r.mode != MergeInto
    ensures Visible(r, AppliedTo(r, m, found)) && !Drifted(r, m.(deleted := []), AppliedTo(r, m, found))
    ensures !Drifted(r, m, AppliedTo(r, m, found))
  {
    var d := Desired(r, m);
    WithoutUnmodified(d.annotations, m.deleted);
    if r.hasTemplate {
      WithoutUnmodified(d.template, m.deleted);
    }
    hide Without;
  }

  lemma NamespaceSettled(r: Resource, m: Metadata, found: Option<Object>)
    requires FitsResource(r, m) && r.mode == MergeInto
    ensures Visible(r, AppliedTo(r, m, found)) && !Drifted(r, m.(deleted := []), AppliedTo(r, m, found))
    ensures Drifted(r, m, AppliedTo(r, m, found)) <==> m.deleted != []
  {
  }

  /** Applying adds no annotation key but the spec's and the manifest's. */
  lemma AppliedAddsOnlySpec(r: Resource, m: Metadata, found: Option<Object>, k: string)
    requires ValidResource(r) && k in Carried(r, AppliedTo(r, m, found))
    ensures || k in Carried(r, r.manifest) || k in m.annotations
            || (found.Some? && k in Carried(r, found.value))
  {
  }

  /** Applying leaves no deleted key. */
  lemma AppliedDropsDeleted(r: Resource, m: Metadata, found: Option<Object>, k: string)
    requires FitsResource(r, m) && k in m.deleted
    ensures k !in Carried(r, AppliedTo(r, m, found))
  {
  }

  // ---------- a whole pass ----------

  ghost predicate DistinctKeys(rs: seq<Resource>) {
    forall i, j :: 0 <= i < j < |rs| ==> rs[i].key != rs[j].key
  }

  lemma {:induction false} ApplyAllElsewhere(store: Store, rs: seq<Resource>, m: Metadata, key: Key)
    requires forall i :: 0 <= i < |rs| ==> rs[i].key != key
    ensures Get(ApplyAll(store, rs, m), key) == Get(store, key)
    decreases |rs|
  {
    hide AppliedTo;
    if rs != [] {
      ApplyAllElsewhere(Apply(store, rs[0], m), rs[1..], m, key);
    }
  }

  /** With distinct keys, a pass does to every object what applying its own resource does. */
  lemma {:induction false} ApplyAllAt(store: Store, rs: seq<Resource>, m: Metadata, i: nat)
    requires DistinctKeys(rs) && i < |rs|
    ensures Get(ApplyAll(store, rs, m), rs[i].key) == Some(AppliedTo(rs[i], m, Get(store, rs[i].key)))
    decreases |rs|
  {
    hide AppliedTo;
    if i == 0 {
      ApplyAllElsewhere(Apply(store, rs[0], m), rs[1..], m, rs[0].key);
    } else {
      ApplyAllAt(Apply(store, rs[0], m), rs[1..], m, i - 1);
    }
  }

  // ---------- what a pass leaves on an object, value by value ----------

  /** Exactly the manifest's entries with the metadata's over them. */
  ghost predicate Exactly(o: StringMap, manifest: StringMap, over: StringMap) {
    forall k :: (k in o <==> k in over || k in manifest)
      && (k in o ==> o[k] == if k in over then over[k] else manifest[k])
  }

  /** The manifest's entries with the metadata's over them, where a missing key counts as empty; any
      other entry was there before, and no deleted one is left. */
  ghost predicate AtLeast(o: StringMap, manifest: StringMap, over: StringMap, deleted: seq<string>, before: StringMap) {
    && (forall k :: k in over ==> Lookup(o, k) == over[k])
    && (forall k :: k in manifest && k !in over ==> Lookup(o, k) == manifest[k])
    && (forall k :: k in o && k !in over && k !in manifest ==> k in before && o[k] == before[k])
    && (forall k :: k in deleted ==> k !in o)
  }

  /** Entries under other keys are untouched. */
  ghost predicate SameElsewhere(o: StringMap, before: StringMap, keys: set<string>) {
    forall k :: k !in keys ==> (k in o <==> k in before) && (k in o ==> o[k] == before[k])
  }

  /** What a pass may and must leave where an object was, by the way its kind is written. */
  ghost predicate Leaves(r: Resource, m: Metadata, before: Object, o: Object) {
    match r.mode
    case Replace =>
      && o.spec == r.manifest.spec
      && Exactly(o.labels, r.manifest.labels, m.labels)
      && AtLeast(o.annotations, r.manifest.annotations, m.annotations, m.deleted, before.annotations)
      && (r.hasTemplate ==> AtLeast(o.template, r.manifest.template, m.annotations, m.deleted, before.template))
    case MetadataOnly =>
      && o.spec == before.spec && o.template == before.template
      && Exactly(o.labels, r.manifest.labels, m.labels)
      && AtLeast(o.annotations, r.manifest.annotations, m.annotations, m.deleted, before.annotations)
    case MergeInto =>
      && o.spec == before.spec && o.template == before.template
      && (forall k :: k in m.labels ==> Lookup(o.labels, k) == m.labels[k])
      && SameElsewhere(o.labels, before.labels, m.labels.Keys)
      && (forall k :: k in m.annotations ==> Lookup(o.annotations, k) == m.annotations[k])
      && (forall k :: k in m.deleted ==> k !in o.annotations)
      && SameElsewhere(o.annotations, before.annotations, m.annotations.Keys + Elements(m.deleted))
  }

  /** What a pass creates where there was nothing. */
  ghost predicate Creates(r: Resource, m: Metadata, o: Object) {
    && o.spec == r.manifest.spec
    && Exactly(o.labels, r.manifest.labels, m.labels)
    && Exactly(o.annotations, r.manifest.annotations, m.annotations)
    && (if r.hasTemplate then Exactly(o.template, r.manifest.template, m.annotations) else o.template == map[])
  }

  lemma CopyIs(manifest: StringMap, over: StringMap, deleted: seq<string>, before: StringMap)
    requires forall k :: k in deleted ==> k !in over && k !in manifest
    ensures Exactly(Copy(manifest, over), manifest, over)
    ensures AtLeast(Without(Copy(manifest, over), deleted), manifest, over, deleted, before)
  {
  }

  /** Merging into what is there, then dropping the deleted keys. */
  lemma MergedIs(before: StringMap, over: StringMap, deleted: seq<string>)
    requires forall k :: k in deleted ==> k !in over
    ensures var o := Without(Copy(before, over), deleted);
      && (forall k :: k in over ==> Lookup(o, k) == over[k])
      && (forall k :: k in deleted ==> k !in o)
      && SameElsewhere(o, before, over.Keys + Elements(deleted))
  {
    assert forall k :: k in Elements(deleted) <==> k in deleted;
  }

  lemma NotNeeded(before: StringMap, over: StringMap)
    requires !NamespaceNeeds(before, over)
    ensures forall k :: k in over ==> Lookup(before, k) == over[k]
  {
  }

  lemma WrittenLeaves(r: Resource, m: Metadata, before: Object)
    requires FitsResource(r, m)
    ensures Leaves(r, m, before, Written(r, m, before))
  {
    if r.mode == MergeInto {
      WrittenNamespace(r, m, before);
    } else {
      hide Exactly, AtLeast, Copy, Without;
      CopyIs(r.manifest.labels, m.labels, [], map[]);
      CopyIs(r.manifest.annotations, m.annotations, m.deleted, before.annotations);
      if r.hasTemplate {
        CopyIs(r.manifest.template, m.annotations, m.deleted, before.template);
      }
    }
  }

  lemma WrittenNamespace(r: Resource, m: Metadata, before: Object)
    requires FitsResource(r, m) && r.mode == MergeInto
    ensures Leaves(r, m, before, Written(r, m, before))
  {
    hide NamespaceNeeds, Copy, Without;
    MergedIs(before.labels, m.labels, []);
    assert Without(Copy(before.labels, m.labels), []) == Copy(before.labels, m.labels) by {
      WithoutUnmodified(Copy(before.labels, m.labels), []);
    }
    MergedIs(before.annotations, m.annotations, m.deleted);
    if !NamespaceNeeds(before.labels, m.labels) {
      NotNeeded(before.labels, m.labels);
    }
    if !NamespaceNeeds(before.annotations, m.annotations) {
      NotNeeded(before.annotations, m.annotations);
    }
  }

  lemma MatchedLeaves(r: Resource, m: Metadata, before: Object)
    requires FitsResource(r, m) && !Drifted(r, m, before)
    ensures Leaves(r, m, before, before)
  {
    var d := Desired(r, m);
    assert forall k :: k in d.annotations <==> k in m.annotations || k in r.manifest.annotations;
    if r.mode == MergeInto {
      MatchedNamespace(r, m, before);
    } else {
      MatchedAnnotations(r.manifest.annotations, m.annotations, before.annotations, m.deleted);
      if r.hasTemplate {
        MatchedAnnotations(r.manifest.template, m.annotations, before.template, m.deleted);
      }
      hide AnnotationsModified, AtLeast;
    }
  }

  lemma MatchedAnnotations(manifest: StringMap, over: StringMap, o: StringMap, deleted: seq<string>)
    requires !AnnotationsModified(Copy(manifest, over), o, deleted)
    ensures AtLeast(o, manifest, over, deleted, o)
  {
    var d := Copy(manifest, over);
    forall k | k in d ensures Lookup(o, k) == if k in over then over[k] else manifest[k] {
    }
  }

  lemma MatchedNamespace(r: Resource, m: Metadata, o: Object)
    requires r.mode == MergeInto && !Drifted(r, m, o)
    ensures Leaves(r, m, o, o)
  {
  }

  /** Over a whole pass, whatever was there: every object of a resource ends up with the values that its
      manifest, the metadata and the way its kind is written name, and all else stays.  In particular
      the data of a Secret or ConfigMap, and what others put on the Namespace, is never touched. */
  lemma PassLeaves(store: Store, rs: seq<Resource>, spec: Spec, tracked: seq<string>, i: nat)
    requires GoodResources(rs, iset k | k in tracked) && i < |rs|
    ensures var m, after := MetadataFor(spec, tracked), ApplyAll(store, rs, MetadataFor(spec, tracked));
      && rs[i].key in after
      && (rs[i].key in store ==> Leaves(rs[i], m, store[rs[i].key], after[rs[i].key]))
      && (rs[i].key !in store ==> Creates(rs[i], m, after[rs[i].key]))
  {
    hide ApplyAll, Leaves, Creates, Drifted, Written, Visible, MetadataFor, ValidResource, AvoidsKeys;
    var r, m := rs[i], MetadataFor(spec, tracked);
    ApplyAllAt(store, rs, m, i);
    MetadataFits(r, spec, tracked);
    if r.key in store {
      WrittenLeaves(r, m, store[r.key]);
      if !Drifted(r, m, store[r.key]) {
        MatchedLeaves(r, m, store[r.key]);
      }
    } else {
      CreatedIs(r, m);
    }
  }

  lemma CreatedIs(r: Resource, m: Metadata)
    ensures Creates(r, m, Desired(r, m))
  {
  }

  /** What a pass assumes of its manifests: valid resources with distinct keys, none of which
      carries a key of `keys` as an annotation. */
  ghost predicate GoodResources(rs: seq<Resource>, keys: iset<string>) {
    && DistinctKeys(rs)
    && forall i :: 0 <= i < |rs| ==> ValidResource(rs[i]) && AvoidsKeys(rs[i], keys)
  }

  ghost predicate AvoidsKeys(r: Resource, keys: iset<string>) {
    forall k :: k in keys ==> k !in Carried(r, r.manifest)
  }

  lemma MetadataFits(r: Resource, spec: Spec, tracked: seq<string>)
    requires ValidResource(r) && AvoidsKeys(r, iset k | k in tracked)
    ensures FitsResource(r, MetadataFor(spec, tracked))
  {
    hide ResourceLabels;
    LabelPrecedence(spec.managerLabels, spec.configLabels, spec.version, ManagedLabel);
  }

  lemma TrackingSettles(tracked: seq<string>, spec: Spec)
    ensures var next := NextTracked(tracked, spec);
      !TrackingNeedsUpdate(next, spec.annotations) && Deleted(next, spec.annotations) == []
  {
    var next := NextTracked(tracked, spec);
    NothingDeleted(next, spec.annotations);
    if TrackingNeedsUpdate(tracked, spec.annotations) {
      DistinctElements(next);
    }
  }

  /** Convergence and quiescence.  From any server state, objects missing, drifted or hidden from
      the cache, a pass without a failing call leaves every desired object present, visible and not
      reported as changed; the next pass under the same spec writes neither an object nor the
      tracking list. */
  lemma PassConverges(store: Store, rs: seq<Resource>, spec: Spec, tracked: seq<string>)
    requires GoodResources(rs, iset k | k in tracked)
    ensures var after := ApplyAll(store, rs, MetadataFor(spec, tracked));
      var next := NextTracked(tracked, spec);
      && (forall i :: 0 <= i < |rs| ==> Settled(after, rs[i], MetadataFor(spec, next)))
      && !TrackingNeedsUpdate(next, spec.annotations)
  {
    hide ResourceLabels, Drifted, AppliedTo, Deleted, NextTracked, Visible, ValidResource, AvoidsKeys, TrackingNeedsUpdate, ApplyAll, FitsResource;
    var m := MetadataFor(spec, tracked);
    TrackingSettles(tracked, spec);
    forall i | 0 <= i < |rs|
      ensures Settled(ApplyAll(store, rs, m), rs[i], MetadataFor(spec, NextTracked(tracked, spec)))
    {
      ApplyAllAt(store, rs, m, i);
      MetadataFits(rs[i], spec, tracked);
      AppliedIsSettled(rs[i], m, Get(store, rs[i].key));
    }
  }

  /** Two passes under one spec, the first without a failing call: the second, whatever happens to its
      calls, writes nothing. */
  method ReconcileTwice(c: Cluster, rs: seq<Resource>, spec: Spec, net: nat -> Outcome) returns (written: nat)
    requires GoodResources(rs, iset k | k in c.tracked)
    modifies c
    ensures written == 0
    ensures forall i :: 0 <= i < |rs| ==> Settled(c.store, rs[i], MetadataFor(spec, c.tracked))
    ensures c.store == ApplyAll(old(c.store), rs, MetadataFor(spec, old(c.tracked)))
    ensures c.tracked == NextTracked(old(c.tracked), spec)
  {
    hide Settled, ApplyAll, MetadataFor, NextTracked, AvoidsKeys, ValidResource, TrackingNeedsUpdate;
    PassConverges(c.store, rs, spec, c.tracked);
    var first := c.Pass(rs, spec, i => Served);
    var before := c.writes;
    var second := c.Pass(rs, spec, net);
    written := c.writes - before;
  }
}
