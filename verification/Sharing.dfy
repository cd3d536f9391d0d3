/** Desired resources that share one object of the cluster, as user network policies with equal names
    for different components do: when a pass that met no failure is followed by a quiet one. */
module Sharing {
  import opened Text
  import opened ResourceMetadata
  import opened Reconcile

  // ---------- what can settle together ----------

  /** The object is not reported as changed once no key is deleted any more. */
  predicate Accepts(r: Resource, m: Metadata, o: Object) {
    !Drifted(r, m.(deleted := []), o)
  }

  /** Resource w asks for an object that every resource of the same key accepts. */
  ghost predicate Dominates(rs: seq<Resource>, w: nat, m: Metadata)
    requires w < |rs|
  {
    forall j :: 0 <= j < |rs| && rs[j].key == rs[w].key ==> Accepts(rs[j], m, Desired(rs[w], m))
  }

  /** Among the resources that share a key, one asks for what they all accept. */
  ghost predicate Compatible(rs: seq<Resource>, m: Metadata) {
    forall i :: 0 <= i < |rs| ==> Dominated(rs, rs[i].key, m)
  }

  ghost predicate Dominated(rs: seq<Resource>, key: Key, m: Metadata) {
    exists w :: 0 <= w < |rs| && rs[w].key == key && Dominates(rs, w, m)
  }

  /** No annotation of the manifest has an empty value, which a missing key would satisfy. */
  ghost predicate NoEmptyValues(r: Resource) {
    && (forall k :: k in r.manifest.annotations ==> r.manifest.annotations[k] != "")
    && (forall k :: k in r.manifest.template ==> r.manifest.template[k] != "")
  }

  /** Resources of one key are of one kind, and every one of them is fit for the pass. */
  ghost predicate Fit(rs: seq<Resource>, m: Metadata) {
    && (forall i :: 0 <= i < |rs| ==> FitsResource(rs[i], m) && NoEmptyValues(rs[i]))
    && (forall i, j :: 0 <= i < |rs| && 0 <= j < |rs| && rs[i].key == rs[j].key ==> SameKind(rs[i], rs[j]))
  }

  predicate SameKind(r: Resource, r': Resource) {
    r.mode == r'.mode && r.filtered == r'.filtered && r.hasTemplate == r'.hasTemplate
  }

  ghost predicate AllSettled(store: Store, rs: seq<Resource>, m: Metadata) {
    forall i :: 0 <= i < |rs| ==> Settled(store, rs[i], m)
  }

  // ---------- a dominating resource makes the others quiet ----------

  /** The object pleases r: visible, accepted, and free of deleted keys. */
  ghost predicate Pleases(r: Resource, m: Metadata, o: Object) {
    Visible(r, o) && Accepts(r, m, o) && forall k :: k in m.deleted ==> k !in Carried(r, o)
  }

  lemma AnnotationsTransfer(mine: StringMap, theirs: StringMap, spec: StringMap, o: StringMap)
    requires forall k :: k in mine ==> mine[k] != ""
    requires !AnnotationsModified(Copy(mine, spec), Copy(theirs, spec), [])
    requires !AnnotationsModified(Copy(theirs, spec), o, [])
    ensures !AnnotationsModified(Copy(mine, spec), o, [])
  {
    var d, e := Copy(mine, spec), Copy(theirs, spec);
    forall k | k in d ensures Lookup(o, k) == d[k] {
      assert Lookup(e, k) == d[k];
      assert k in e;
    }
  }

  /** Whatever pleases a resource whose object r accepts pleases r. */
  lemma PleasesTransfer(r: Resource, w: Resource, m: Metadata, o: Object)
    requires SameKind(r, w) && NoEmptyValues(r) && FitsResource(r, m) && FitsResource(w, m)
    requires Accepts(r, m, Desired(w, m)) && Pleases(w, m, o)
    ensures Pleases(r, m, o)
  {
    hide Copy, AnnotationsModified, NamespaceNeeds;
    if r.mode != MergeInto {
      AnnotationsTransfer(r.manifest.annotations, w.manifest.annotations, m.annotations, o.annotations);
      if r.hasTemplate {
        AnnotationsTransfer(r.manifest.template, w.manifest.template, m.annotations, o.template);
      }
    }
  }

  lemma AppliedPleases(r: Resource, m: Metadata, found: Option<Object>)
    requires FitsResource(r, m)
    ensures Pleases(r, m, AppliedTo(r, m, found))
  {
    hide AppliedTo, Drifted, Visible, Carried;
    AppliedIsSettled(r, m, found);
    forall k | k in m.deleted ensures k !in Carried(r, AppliedTo(r, m, found)) {
      AppliedDropsDeleted(r, m, found, k);
    }
  }

  /** A Namespace accepts whatever another resource for the same Namespace asks for. */
  lemma NamespacesAgree(r: Resource, w: Resource, m: Metadata)
    requires r.mode == MergeInto && w.mode == MergeInto
    ensures Accepts(r, m, Desired(w, m))
  {
  }

  /** What pleases all is left alone, or, if it is the Namespace, pleases all again. */
  lemma PleasedStays(r: Resource, m: Metadata, o: Object)
    requires FitsResource(r, m) && Pleases(r, m, o) && r.mode != MergeInto
    ensures AppliedTo(r, m, Some(o)) == o
  {
    hide Copy;
  }

  ghost predicate PleasesAll(rs: seq<Resource>, key: Key, m: Metadata, o: Object) {
    forall j :: 0 <= j < |rs| && rs[j].key == key ==> Pleases(rs[j], m, o)
  }

  lemma DominatingPleasesAll(rs: seq<Resource>, w: nat, m: Metadata, found: Option<Object>)
    requires Fit(rs, m) && w < |rs| && Dominates(rs, w, m)
    ensures PleasesAll(rs, rs[w].key, m, AppliedTo(rs[w], m, found))
  {
    hide AppliedTo, Accepts, Pleases, Desired, FitsResource, NoEmptyValues, SameKind;
    AppliedPleases(rs[w], m, found);
    forall j | 0 <= j < |rs| && rs[j].key == rs[w].key ensures Pleases(rs[j], m, AppliedTo(rs[w], m, found)) {
      PleasesTransfer(rs[j], rs[w], m, AppliedTo(rs[w], m, found));
    }
  }

  lemma PleasesAllStays(rs: seq<Resource>, i: nat, m: Metadata, o: Object)
    requires Fit(rs, m) && i < |rs| && PleasesAll(rs, rs[i].key, m, o)
    ensures PleasesAll(rs, rs[i].key, m, AppliedTo(rs[i], m, Some(o)))
  {
    hide AppliedTo, Accepts, Pleases, Desired, FitsResource, NoEmptyValues;
    if rs[i].mode == MergeInto {
      forall j | 0 <= j < |rs| && rs[j].key == rs[i].key ensures Accepts(rs[j], m, Desired(rs[i], m)) {
        NamespacesAgree(rs[j], rs[i], m);
      }
      DominatingPleasesAll(rs, i, m, Some(o));
    } else {
      PleasedStays(rs[i], m, o);
    }
  }

  lemma GetApplied(store: Store, r: Resource, m: Metadata, key: Key)
    ensures Get(Apply(store, r, m), key) ==
      if key == r.key then Some(AppliedTo(r, m, Get(store, key))) else Get(store, key)
  {
    hide AppliedTo;
  }

  lemma {:induction false} PleasedAfter(store: Store, rs: seq<Resource>, w: nat, m: Metadata, n: nat)
    requires Fit(rs, m) && w < n <= |rs| && Dominates(rs, w, m)
    ensures var after := Get(ApplyAll(store, rs[..n], m), rs[w].key);
      after.Some? && PleasesAll(rs, rs[w].key, m, after.value)
    decreases n
  {
    hide AppliedTo, Fit, Dominates, PleasesAll, Apply, ApplyAll, Get;
    var before := ApplyAll(store, rs[..n - 1], m);
    ApplyAllSnoc(store, rs[..n], m);
    assert rs[..n][..n - 1] == rs[..n - 1];
    GetApplied(before, rs[n - 1], m, rs[w].key);
    if w == n - 1 {
      DominatingPleasesAll(rs, w, m, Get(before, rs[w].key));
    } else {
      PleasedAfter(store, rs, w, m, n - 1);
      if rs[n - 1].key == rs[w].key {
        PleasesAllStays(rs, n - 1, m, Get(before, rs[w].key).value);
      }
    }
  }

  lemma PleasedIsSettled(store: Store, rs: seq<Resource>, i: nat, m: Metadata)
    requires i < |rs| && Get(store, rs[i].key).Some? && PleasesAll(rs, rs[i].key, m, Get(store, rs[i].key).value)
    ensures Settled(store, rs[i], m.(deleted := []))
  {
    hide Visible, Drifted, Carried;
  }

  lemma CompatibleSettles(store: Store, rs: seq<Resource>, m: Metadata)
    requires Fit(rs, m) && Compatible(rs, m)
    ensures AllSettled(ApplyAll(store, rs, m), rs, m.(deleted := []))
  {
    hide Fit, Dominates, ApplyAll, PleasesAll, Settled, Get;
    assert rs[..|rs|] == rs;
    forall i | 0 <= i < |rs| ensures Settled(ApplyAll(store, rs, m), rs[i], m.(deleted := [])) {
      assert Dominated(rs, rs[i].key, m);
      var w :| 0 <= w < |rs| && rs[w].key == rs[i].key && Dominates(rs, w, m);
      PleasedAfter(store, rs, w, m, |rs|);
      PleasedIsSettled(ApplyAll(store, rs, m), rs, i, m);
    }
  }

  // ---------- without one, no pass is the last to write ----------

  /** The object is what r asks for, as far as r is compared. */
  ghost predicate LooksLike(r: Resource, m: Metadata, o: Object) {
    var d := Desired(r, m);
    && o.labels == d.labels && o.annotations == d.annotations
    && (r.mode == Replace ==> o.template == d.template && o.spec == d.spec)
  }

  /** The object of this key is what one of its resources asks for. */
  ghost predicate Claimed(store: Store, rs: seq<Resource>, key: Key, m: Metadata) {
    key in store && exists w :: 0 <= w < |rs| && rs[w].key == key && LooksLike(rs[w], m, store[key])
  }

  lemma AppliedLooks(r: Resource, m: Metadata, found: Option<Object>)
    requires FitsResource(r, m) && r.mode != MergeInto
    ensures LooksLike(r, m, AppliedTo(r, m, found)) || (found.Some? && AppliedTo(r, m, found) == found.value)
  {
    hide Copy, Drifted, Visible;
    assert forall k :: k in m.deleted ==> k !in Desired(r, m).annotations by {
      DesiredAvoids(r, m);
    }
    WithoutUnmodified(Desired(r, m).annotations, m.deleted);
    if r.hasTemplate {
      DesiredAvoids(r, m);
      WithoutUnmodified(Desired(r, m).template, m.deleted);
    }
  }

  lemma DesiredAvoids(r: Resource, m: Metadata)
    requires FitsResource(r, m)
    ensures forall k :: k in m.deleted ==> k !in Desired(r, m).annotations && k !in Desired(r, m).template
  {
  }

  lemma LooksAccepted(r: Resource, w: Resource, m: Metadata, o: Object)
    requires SameKind(r, w) && r.mode != MergeInto && LooksLike(w, m, o)
    ensures Accepts(r, m, o) <==> Accepts(r, m, Desired(w, m))
  {
    hide Copy, AnnotationsModified;
  }

  lemma ApplyKeepsClaim(store: Store, rs: seq<Resource>, i: nat, key: Key, m: Metadata)
    requires Fit(rs, m) && i < |rs| && (rs[i].key == key ==> rs[i].mode != MergeInto)
    requires rs[i].key == key || Claimed(store, rs, key, m)
    requires key in store ==> Claimed(store, rs, key, m)
    ensures Claimed(Apply(store, rs[i], m), rs, key, m)
  {
    hide AppliedTo, LooksLike, FitsResource, NoEmptyValues, SameKind;
    if rs[i].key == key {
      AppliedLooks(rs[i], m, Get(store, key));
    }
  }

  lemma {:induction false} PassKeepsClaim(store: Store, rs: seq<Resource>, w: nat, m: Metadata, n: nat)
    requires Fit(rs, m) && w < |rs| && n <= |rs| && rs[w].mode != MergeInto
    requires rs[w].key in store ==> Claimed(store, rs, rs[w].key, m)
    ensures var after := ApplyAll(store, rs[..n], m);
      && (rs[w].key in after ==> Claimed(after, rs, rs[w].key, m))
      && (w < n || rs[w].key in store ==> Claimed(after, rs, rs[w].key, m))
    decreases n
  {
    hide Claimed, Apply, ApplyAll, FitsResource, NoEmptyValues;
    var key := rs[w].key;
    if n == 0 {
      AppliedNothing(store, m);
      assert rs[..0] == [];
      ClaimedIsThere(store, rs, key, m);
    } else {
      PassKeepsClaim(store, rs, w, m, n - 1);
      var before := ApplyAll(store, rs[..n - 1], m);
      ApplyAllSnoc(store, rs[..n], m);
      assert rs[..n][..n - 1] == rs[..n - 1];
      ClaimedIsThere(before, rs, key, m);
      if rs[n - 1].key == key || key in before {
        ApplyKeepsClaim(before, rs, n - 1, key, m);
      } else {
        GetApplied(before, rs[n - 1], m, key);
      }
    }
  }

  lemma AppliedNothing(store: Store, m: Metadata)
    ensures ApplyAll(store, [], m) == store
  {
  }

  lemma ClaimedIsThere(store: Store, rs: seq<Resource>, key: Key, m: Metadata)
    ensures Claimed(store, rs, key, m) ==> key in store
  {
  }

  lemma Rejecting(rs: seq<Resource>, w: nat, m: Metadata) returns (j: nat)
    requires w < |rs| && !Dominates(rs, w, m)
    ensures j < |rs| && rs[j].key == rs[w].key && !Accepts(rs[j], m, Desired(rs[w], m))
  {
    hide Accepts, Desired;
    j :| 0 <= j < |rs| && rs[j].key == rs[w].key && !Accepts(rs[j], m, Desired(rs[w], m));
  }

  lemma SettledAccepts(store: Store, r: Resource, m: Metadata)
    requires Settled(store, r, m.(deleted := []))
    ensures r.key in store && Accepts(r, m, store[r.key])
  {
    hide Drifted, Visible;
  }

  /** While the object is what one of them asks for, some resource of the key finds it changed. */
  lemma ClaimedIsUnsettled(store: Store, rs: seq<Resource>, i: nat, m: Metadata)
    requires Fit(rs, m) && i < |rs| && rs[i].mode != MergeInto && Claimed(store, rs, rs[i].key, m)
    requires forall w :: 0 <= w < |rs| && rs[w].key == rs[i].key ==> !Dominates(rs, w, m)
    ensures !AllSettled(store, rs, m.(deleted := []))
  {
    hide LooksLike, Desired, FitsResource, NoEmptyValues, Dominates, Accepts, Settled, SameKind;
    var o := store[rs[i].key];
    var w :| 0 <= w < |rs| && rs[w].key == rs[i].key && LooksLike(rs[w], m, o);
    var j := Rejecting(rs, w, m);
    SameModes(rs[i], rs[j]);
    LooksAccepted(rs[j], rs[w], m, o);
    if Settled(store, rs[j], m.(deleted := [])) {
      SettledAccepts(store, rs[j], m);
    }
  }

  lemma SameModes(r: Resource, r': Resource)
    requires SameKind(r, r')
    ensures r.mode == r'.mode
  {
  }

  lemma NamespaceDominates(rs: seq<Resource>, i: nat, m: Metadata)
    requires Fit(rs, m) && i < |rs| && rs[i].mode == MergeInto
    ensures Dominates(rs, i, m)
  {
    hide Desired, FitsResource, NoEmptyValues, Accepts;
    forall j | 0 <= j < |rs| && rs[j].key == rs[i].key ensures Accepts(rs[j], m, Desired(rs[i], m)) {
      NamespacesAgree(rs[j], rs[i], m);
    }
  }

  /** A key without a dominating resource is not that of the Namespace. */
  lemma Undominated(rs: seq<Resource>, m: Metadata) returns (i: nat)
    requires Fit(rs, m) && !Compatible(rs, m)
    ensures i < |rs| && rs[i].mode != MergeInto
    ensures forall w :: 0 <= w < |rs| && rs[w].key == rs[i].key ==> !Dominates(rs, w, m)
  {
    hide Fit, Dominates;
    i :| 0 <= i < |rs| && !Dominated(rs, rs[i].key, m);
    if rs[i].mode == MergeInto {
      NamespaceDominates(rs, i, m);
    }
  }

  // ---------- the exact condition ----------

  /** The store after n passes without a failing call, under one spec. */
  ghost function Passes(rs: seq<Resource>, spec: Spec, tracked: seq<string>, n: nat): (Store, seq<string>) {
    if n == 0 then (map[], tracked)
    else
      var (store, list) := Passes(rs, spec, tracked, n - 1);
      (ApplyAll(store, rs, MetadataFor(spec, list)), NextTracked(list, spec))
  }

  /** What the theorem asks of the resources: fit for passes under this spec and list. */
  ghost predicate FitFor(rs: seq<Resource>, spec: Spec, tracked: seq<string>) {
    && (forall i :: 0 <= i < |rs| ==>
      ValidResource(rs[i]) && AvoidsKeys(rs[i], iset k | k in tracked) && NoEmptyValues(rs[i]))
    && (forall i, j :: 0 <= i < |rs| && 0 <= j < |rs| && rs[i].key == rs[j].key ==> SameKind(rs[i], rs[j]))
  }

  lemma FitForPass(rs: seq<Resource>, spec: Spec, tracked: seq<string>)
    requires FitFor(rs, spec, tracked)
    ensures Fit(rs, MetadataFor(spec, tracked))
  {
    hide MetadataFor, FitsResource, ValidResource, AvoidsKeys, NoEmptyValues, SameKind;
    forall i | 0 <= i < |rs| ensures FitsResource(rs[i], MetadataFor(spec, tracked)) {
      MetadataFits(rs[i], spec, tracked);
    }
  }

  lemma FitNext(rs: seq<Resource>, spec: Spec, tracked: seq<string>)
    requires FitFor(rs, spec, tracked)
    ensures MetadataFor(spec, NextTracked(tracked, spec)) == MetadataFor(spec, tracked).(deleted := [])
    ensures Fit(rs, MetadataFor(spec, NextTracked(tracked, spec)))
  {
    hide ResourceLabels, TrackingNeedsUpdate, NextTracked, NoEmptyValues, SameKind;
    TrackingSettles(tracked, spec);
    FitForPass(rs, spec, tracked);
  }

  /** What a resource asks for does not depend on the deleted keys. */
  lemma ClaimedAnyway(store: Store, rs: seq<Resource>, key: Key, m: Metadata)
    ensures Claimed(store, rs, key, m) <==> Claimed(store, rs, key, m.(deleted := []))
  {
    hide Copy;
    forall w | 0 <= w < |rs| && key in store
      ensures LooksLike(rs[w], m, store[key]) <==> LooksLike(rs[w], m.(deleted := []), store[key])
    {
      assert Desired(rs[w], m) == Desired(rs[w], m.(deleted := []));
    }
    hide LooksLike;
  }

  lemma DominatesAnyway(rs: seq<Resource>, w: nat, m: Metadata)
    requires w < |rs|
    ensures Dominates(rs, w, m) <==> Dominates(rs, w, m.(deleted := []))
  {
    hide Drifted, Copy;
    var m' := m.(deleted := []);
    assert Desired(rs[w], m) == Desired(rs[w], m') && m'.(deleted := []) == m';
  }

  lemma {:induction false} ListSettles(rs: seq<Resource>, spec: Spec, tracked: seq<string>, n: nat)
    requires n > 0
    ensures Passes(rs, spec, tracked, n).1 == NextTracked(tracked, spec)
  {
    hide ApplyAll, MetadataFor;
    if n > 1 {
      ListSettles(rs, spec, tracked, n - 1);
      TrackingSettles(tracked, spec);
    }
  }

  lemma {:induction false} AlwaysClaimed(rs: seq<Resource>, spec: Spec, tracked: seq<string>, i: nat, n: nat)
    requires FitFor(rs, spec, tracked) && i < |rs| && rs[i].mode != MergeInto && n > 0
    ensures Claimed(Passes(rs, spec, tracked, n).0, rs, rs[i].key, MetadataFor(spec, tracked).(deleted := []))
  {
    hide FitFor, Fit, Claimed, ApplyAll, NextTracked, MetadataFor;
    var (store, list) := Passes(rs, spec, tracked, n - 1);
    var m := MetadataFor(spec, tracked);
    assert rs[..|rs|] == rs;
    if n == 1 {
      FitForPass(rs, spec, tracked);
      PassKeepsClaim(store, rs, i, m, |rs|);
      ClaimedAnyway(ApplyAll(store, rs, m), rs, rs[i].key, m);
    } else {
      AlwaysClaimed(rs, spec, tracked, i, n - 1);
      ListSettles(rs, spec, tracked, n - 1);
      FitNext(rs, spec, tracked);
      PassKeepsClaim(store, rs, i, MetadataFor(spec, list), |rs|);
    }
  }

  /** The exact condition.  For any list of resources: from every store a pass without a failing call
      leaves nothing to write, if and only if among the resources that share a key one asks for an
      object that all of them accept.  Otherwise, starting from an empty cluster, every pass finds
      something to write, however many went before. */
  lemma SharedObjectsExact(rs: seq<Resource>, spec: Spec, tracked: seq<string>)
    requires FitFor(rs, spec, tracked)
    ensures var m, next := MetadataFor(spec, tracked), MetadataFor(spec, NextTracked(tracked, spec));
      (forall store :: AllSettled(ApplyAll(store, rs, m), rs, next)) <==> Compatible(rs, m)
    ensures !Compatible(rs, MetadataFor(spec, tracked)) ==> forall n: nat :: n > 0 ==>
      !AllSettled(Passes(rs, spec, tracked, n).0, rs, MetadataFor(spec, Passes(rs, spec, tracked, n).1))
  {
    hide FitFor, Fit, Compatible, AllSettled, ApplyAll, NextTracked, MetadataFor, Passes;
    var m := MetadataFor(spec, tracked);
    FitForPass(rs, spec, tracked);
    FitNext(rs, spec, tracked);
    if Compatible(rs, m) {
      forall store ensures AllSettled(ApplyAll(store, rs, m), rs, m.(deleted := [])) {
        CompatibleSettles(store, rs, m);
      }
    } else {
      forall n: nat | n > 0
        ensures !AllSettled(Passes(rs, spec, tracked, n).0, rs, MetadataFor(spec, Passes(rs, spec, tracked, n).1))
      {
        NeverQuiet(rs, spec, tracked, n);
      }
      FirstPass(rs, spec, tracked);
      assert !AllSettled(Passes(rs, spec, tracked, 1).0, rs, MetadataFor(spec, Passes(rs, spec, tracked, 1).1));
    }
  }

  lemma FirstPass(rs: seq<Resource>, spec: Spec, tracked: seq<string>)
    ensures Passes(rs, spec, tracked, 1) == (ApplyAll(map[], rs, MetadataFor(spec, tracked)), NextTracked(tracked, spec))
  {
    hide ApplyAll, MetadataFor, NextTracked;
    assert Passes(rs, spec, tracked, 0) == (map[], tracked);
  }

  lemma NeverQuiet(rs: seq<Resource>, spec: Spec, tracked: seq<string>, n: nat)
    requires FitFor(rs, spec, tracked) && !Compatible(rs, MetadataFor(spec, tracked)) && n > 0
    ensures !AllSettled(Passes(rs, spec, tracked, n).0, rs, MetadataFor(spec, Passes(rs, spec, tracked, n).1))
  {
    hide FitFor, Fit, Compatible, AllSettled, NextTracked, MetadataFor, Passes, Claimed, Dominates;
    var m := MetadataFor(spec, tracked);
    FitForPass(rs, spec, tracked);
    FitNext(rs, spec, tracked);
    var i := Undominated(rs, m);
    ListSettles(rs, spec, tracked, n);
    AlwaysClaimed(rs, spec, tracked, i, n);
    forall w | 0 <= w < |rs| && rs[w].key == rs[i].key ensures !Dominates(rs, w, m.(deleted := [])) {
      DominatesAnyway(rs, w, m);
    }
    var m' := m.(deleted := []);
    assert m'.(deleted := []) == m';
    ClaimedIsUnsettled(Passes(rs, spec, tracked, n).0, rs, i, m');
  }

  // ---------- user network policies ----------

  /** Two resources that ask for different labels or compared fields of one object are never both
      settled, in no store and under no metadata. */
  lemma ConflictNeverSettles(store: Store, r: Resource, r': Resource, m: Metadata, m': Metadata)
    requires r.key == r'.key && r.mode == Replace && r'.mode == Replace
    requires r.manifest.spec != r'.manifest.spec || Desired(r, m).labels != Desired(r', m').labels
    ensures !(Settled(store, r, m) && Settled(store, r', m'))
  {
  }

  /** Resources of one key differ in their compared fields only, as user network policies do, whose
      labels and annotations are those of the operator. */
  ghost predicate SameMetadata(rs: seq<Resource>) {
    forall i, j :: 0 <= i < |rs| && 0 <= j < |rs| && rs[i].key == rs[j].key ==>
      SameKind(rs[i], rs[j]) && rs[i].manifest == rs[j].manifest.(spec := rs[i].manifest.spec)
  }

  ghost predicate SameSpecs(rs: seq<Resource>) {
    forall i, j :: 0 <= i < |rs| && 0 <= j < |rs| && rs[i].key == rs[j].key && rs[i].mode == Replace ==>
      rs[i].manifest.spec == rs[j].manifest.spec
  }

  lemma OwnObject(r: Resource, w: Resource, m: Metadata)
    requires SameKind(r, w) && r.manifest == w.manifest.(spec := r.manifest.spec)
    ensures Accepts(r, m, Desired(w, m)) <==> r.mode == Replace ==> r.manifest.spec == w.manifest.spec
  {
  }

  /** For such resources the condition is that they ask for the same object. */
  lemma SameMetadataExact(rs: seq<Resource>, m: Metadata)
    requires SameMetadata(rs)
    ensures Compatible(rs, m) <==> SameSpecs(rs)
  {
    hide SameMetadata, SameSpecs, Dominates;
    if SameSpecs(rs) {
      forall i | 0 <= i < |rs| ensures Dominated(rs, rs[i].key, m) {
        SameSpecsDominate(rs, i, m);
      }
    }
    if Compatible(rs, m) {
      CompatibleSameSpecs(rs, m);
    }
  }

  lemma SameSpecsDominate(rs: seq<Resource>, i: nat, m: Metadata)
    requires SameMetadata(rs) && SameSpecs(rs) && i < |rs|
    ensures Dominates(rs, i, m)
  {
    hide Accepts, Desired, SameKind;
    forall j | 0 <= j < |rs| && rs[j].key == rs[i].key ensures Accepts(rs[j], m, Desired(rs[i], m)) {
      OwnObject(rs[j], rs[i], m);
    }
  }

  lemma CompatibleSameSpecs(rs: seq<Resource>, m: Metadata)
    requires SameMetadata(rs) && Compatible(rs, m)
    ensures SameSpecs(rs)
  {
    hide SameMetadata, Dominates;
    forall i, j | 0 <= i < |rs| && 0 <= j < |rs| && rs[i].key == rs[j].key && rs[i].mode == Replace
      ensures rs[i].manifest.spec == rs[j].manifest.spec
    {
      assert Dominated(rs, rs[i].key, m);
      var w :| 0 <= w < |rs| && rs[w].key == rs[i].key && Dominates(rs, w, m);
      DominatedSpec(rs, w, i, m);
      DominatedSpec(rs, w, j, m);
    }
  }

  lemma DominatedSpec(rs: seq<Resource>, w: nat, i: nat, m: Metadata)
    requires SameMetadata(rs) && w < |rs| && i < |rs| && rs[w].key == rs[i].key && Dominates(rs, w, m)
    ensures rs[w].mode == Replace ==> rs[i].manifest.spec == rs[w].manifest.spec
    ensures rs[i].mode == rs[w].mode
  {
    hide Accepts, Desired, SameKind;
    OwnObject(rs[i], rs[w], m);
    SameModes(rs[i], rs[w]);
  }

  /** In general they need not: a resource without annotations of its own accepts the object of one
      that has some, so both settle although they ask for different objects. */
  lemma DifferentObjectsMaySettle(key: Key, spec: string, k: string, v: string, m: Metadata)
    requires k !in m.annotations
    ensures var plain := Object(map[], map[], map[], spec);
      var rs := [Resource(key, Replace, false, false, plain),
                 Resource(key, Replace, false, false, plain.(annotations := map[k := v]))];
      Desired(rs[0], m) != Desired(rs[1], m) && Compatible(rs, m)
  {
    var plain := Object(map[], map[], map[], spec);
    var rs := [Resource(key, Replace, false, false, plain),
               Resource(key, Replace, false, false, plain.(annotations := map[k := v]))];
    assert k in Desired(rs[1], m).annotations && k !in Desired(rs[0], m).annotations;
    MoreAnnotations(rs[0], rs[1], m, k, v);
    hide *;
    assert Dominates(rs, 1, m) by {
      TwoDominated(rs, m);
    }
    OneKey(rs, 1, m);
  }

  lemma MoreAnnotations(r: Resource, w: Resource, m: Metadata, k: string, v: string)
    requires r.mode == Replace && !r.hasTemplate && k !in m.annotations && r.manifest.annotations == map[]
    requires w == r.(manifest := r.manifest.(annotations := map[k := v]))
    ensures Accepts(r, m, Desired(w, m)) && Accepts(w, m, Desired(w, m))
  {
  }

  lemma TwoDominated(rs: seq<Resource>, m: Metadata)
    requires |rs| == 2 && Accepts(rs[0], m, Desired(rs[1], m)) && Accepts(rs[1], m, Desired(rs[1], m))
    ensures Dominates(rs, 1, m)
  {
    hide Accepts, Desired;
  }

  lemma OneKey(rs: seq<Resource>, w: nat, m: Metadata)
    requires w < |rs| && Dominates(rs, w, m) && forall i :: 0 <= i < |rs| ==> rs[i].key == rs[w].key
    ensures Compatible(rs, m)
  {
    hide Dominates;
  }
}
