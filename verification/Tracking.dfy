/** The tracking list over whole runs: a spec is reconciled by any number of passes that stop
    somewhere and then by one that completes, before the next spec is edited in.  Between passes
    the objects may drift, be deleted, or lose their labels. */
module Tracking {
  import opened Text
  import opened Sorting
  import opened ResourceMetadata
  import opened Reconcile

  datatype State = State(store: Store, tracked: seq<string>)

  /** What happens before the completing pass: a pass that stops after n resources, or a change
      of the store by somebody else. */
  datatype Disturbance = Stopped(n: nat) | Drift(store: Store)

  /** The resources, the spec they are reconciled under, and what precedes the completing pass. */
  datatype Round = Round(resources: seq<Resource>, spec: Spec, before: seq<Disturbance>)

  function Stop(st: State, r: Round, n: nat): State
    requires n <= |r.resources|
  {
    st.(store := ApplyAll(st.store, r.resources[..n], MetadataFor(r.spec, st.tracked)))
  }

  ghost function Complete(st: State, r: Round): State {
    State(ApplyAll(st.store, r.resources, MetadataFor(r.spec, st.tracked)), NextTracked(st.tracked, r.spec))
  }

  /** Somebody else may change anything, but puts no trackable annotation key on a resource of the
      operator that was not there. */
  ghost predicate LegalDrift(before: Store, after: Store, rs: seq<Resource>, trackable: iset<string>) {
    forall i, k {:trigger rs[i], k in trackable} :: 0 <= i < |rs| && k in trackable && Has(after, rs[i], k) ==> Has(before, rs[i], k)
  }

  /** The object of resource r carries annotation key k. */
  predicate Has(store: Store, r: Resource, k: string) {
    r.key in store && k in Carried(r, store[r.key])
  }

  ghost predicate LegalDisturbance(st: State, r: Round, d: Disturbance, trackable: iset<string>) {
    match d
    case Stopped(n) => n <= |r.resources|
    case Drift(store) => LegalDrift(st.store, store, r.resources, trackable)
  }

  ghost function Disturb(st: State, r: Round, d: Disturbance, trackable: iset<string>): State
    requires LegalDisturbance(st, r, d, trackable)
  {
    match d
    case Stopped(n) => Stop(st, r, n)
    case Drift(store) => st.(store := store)
  }

  /** The states before the completing pass, one disturbance after the other. */
  ghost predicate Path(st: State, r: Round, mids: seq<State>, trackable: iset<string>) {
    && |mids| == |r.before| + 1 && mids[0] == st
    && forall i :: 0 <= i < |r.before| ==>
         && LegalDisturbance(mids[i], r, r.before[i], trackable)
         && mids[i + 1] == Disturb(mids[i], r, r.before[i], trackable)
  }

  /** The round takes st to st': all its disturbances, then a pass that completes. */
  ghost predicate RoundTakes(st: State, r: Round, st': State, trackable: iset<string>) {
    exists mids :: Path(st, r, mids, trackable) && st' == Complete(mids[|r.before|], r)
  }

  /** A run: states before and after every round.  The enabled resources stay the same from round
      to round up to their manifests, which carry no trackable key, as specs use only such keys. */
  ghost predicate Run(states: seq<State>, rounds: seq<Round>, trackable: iset<string>) {
    && |states| == |rounds| + 1
    && (forall i :: 0 <= i < |rounds| ==>
          && RoundTakes(states[i], rounds[i], states[i + 1], trackable)
          && GoodRound(rounds[i], trackable)
          && SameResources(rounds[0].resources, rounds[i].resources))
  }

  ghost predicate GoodRound(r: Round, trackable: iset<string>) {
    GoodResources(r.resources, trackable) && forall k :: k in r.spec.annotations ==> k in trackable
  }

  ghost predicate SameResources(rs: seq<Resource>, rs': seq<Resource>) {
    |rs| == |rs'| && forall i :: 0 <= i < |rs| ==> rs[i].key == rs'[i].key && rs[i].hasTemplate == rs'[i].hasTemplate
  }

  /** Every trackable key on an operand resource is one of `keys`. */
  ghost predicate Clean(store: Store, rs: seq<Resource>, keys: set<string>, trackable: iset<string>) {
    forall i, k {:trigger rs[i], k in trackable} :: 0 <= i < |rs| && k in trackable && Has(store, rs[i], k) ==> k in keys
  }

  /** Between rounds: the tracking list has no repeats and only trackable keys, and the resources
      carry no trackable key outside it. */
  ghost predicate Tracked(st: State, rs: seq<Resource>, trackable: iset<string>) {
    && NoRepeats(st.tracked)
    && (forall k :: k in st.tracked ==> k in trackable)
    && Clean(st.store, rs, Elements(st.tracked), trackable)
  }

  // ---------- one round ----------

  /** Each resource of a prefix of a good list was applied to its own object. */
  lemma PrefixAt(store: Store, rs: seq<Resource>, n: nat, m: Metadata, i: nat)
    requires DistinctKeys(rs) && n <= |rs| && i < |rs|
    ensures Get(ApplyAll(store, rs[..n], m), rs[i].key) ==
      if i < n then Some(AppliedTo(rs[i], m, Get(store, rs[i].key))) else Get(store, rs[i].key)
  {
    hide AppliedTo;
    if i < n {
      ApplyAllAt(store, rs[..n], m, i);
    } else {
      ApplyAllElsewhere(store, rs[..n], m, rs[i].key);
    }
  }

  /** A pass, stopped or not, puts no trackable key on a resource but the spec's. */
  lemma StopKeepsClean(st: State, r: Round, n: nat, keys: set<string>, trackable: iset<string>)
    requires GoodRound(r, trackable) && n <= |r.resources|
    requires Clean(st.store, r.resources, keys, trackable) && r.spec.annotations.Keys <= keys
    ensures Clean(Stop(st, r, n).store, r.resources, keys, trackable)
  {
    hide AppliedTo, ResourceLabels, Carried, ApplyAll, ValidResource;
    var rs, m := r.resources, MetadataFor(r.spec, st.tracked);
    var after := Stop(st, r, n).store;
    forall i, k | 0 <= i < |rs| && k in trackable && Has(after, rs[i], k) ensures k in keys {
      PrefixAt(st.store, rs, n, m, i);
      if i < n {
        AppliedAddsOnlySpec(rs[i], m, Get(st.store, rs[i].key), k);
        assert AvoidsKeys(rs[i], trackable);
      }
      assert Has(st.store, rs[i], k) ==> k in keys;
    }
  }

  /** During a round the tracking list does not move, and the resources carry only keys that are
      tracked or in the spec. */
  lemma {:induction false} DuringRound(st: State, r: Round, mids: seq<State>, n: nat, trackable: iset<string>)
    requires GoodRound(r, trackable) && Tracked(st, r.resources, trackable)
    requires Path(st, r, mids, trackable) && n <= |r.before|
    ensures mids[n].tracked == st.tracked
    ensures Clean(mids[n].store, r.resources, Elements(st.tracked) + r.spec.annotations.Keys, trackable)
  {
    hide GoodRound, Stop;
    var keys := Elements(st.tracked) + r.spec.annotations.Keys;
    if n > 0 {
      DuringRound(st, r, mids, n - 1, trackable);
      var mid, d := mids[n - 1], r.before[n - 1];
      assert LegalDisturbance(mid, r, d, trackable) && mids[n] == Disturb(mid, r, d, trackable);
      if d.Stopped? {
        StopKeepsClean(mid, r, d.n, keys, trackable);
        StopKeepsTracked(mid, r, d.n);
      }
    }
  }

  lemma StopKeepsTracked(st: State, r: Round, n: nat)
    requires n <= |r.resources|
    ensures Stop(st, r, n).tracked == st.tracked
  {
  }

  /** The completing pass clears every tracked key that the spec no longer has. */
  lemma CompleteIsClean(st: State, r: Round, trackable: iset<string>)
    requires GoodRound(r, trackable) && forall k :: k in st.tracked ==> k in trackable
    requires Clean(st.store, r.resources, Elements(st.tracked) + r.spec.annotations.Keys, trackable)
    ensures Clean(Complete(st, r).store, r.resources, r.spec.annotations.Keys, trackable)
  {
    hide AppliedTo, ResourceLabels, Carried, ApplyAll, ValidResource, Visible, NextTracked;
    var rs, m := r.resources, MetadataFor(r.spec, st.tracked);
    var keys := Elements(st.tracked) + r.spec.annotations.Keys;
    var after := Complete(st, r).store;
    assert rs[..|rs|] == rs;
    StopKeepsClean(st, r, |rs|, keys, trackable);
    forall i, k | 0 <= i < |rs| && k in trackable && Has(after, rs[i], k) ensures k in r.spec.annotations {
      assert k in keys;
      ApplyAllAt(st.store, rs, m, i);
      assert AvoidsKeys(rs[i], trackable);
      if k in m.deleted {
        MetadataFits(rs[i], r.spec, st.tracked);
        AppliedDropsDeleted(rs[i], m, Get(st.store, rs[i].key), k);
      }
    }
  }

  lemma CompleteTracks(st: State, r: Round)
    requires NoRepeats(st.tracked)
    ensures var t := Complete(st, r).tracked; NoRepeats(t) && Elements(t) == r.spec.annotations.Keys
  {
    hide ApplyAll, MetadataFor;
    LengthTestExact(st.tracked, r.spec.annotations);
  }

  /** A round: at its end the tracking list is exactly the spec's keys without repeats, and no
      resource carries a trackable key outside the spec, so none that was tracked before. */
  lemma RoundIsSafe(st: State, r: Round, st': State, trackable: iset<string>)
    requires GoodRound(r, trackable) && Tracked(st, r.resources, trackable) && RoundTakes(st, r, st', trackable)
    ensures NoRepeats(st'.tracked) && Elements(st'.tracked) == r.spec.annotations.Keys
    ensures Clean(st'.store, r.resources, r.spec.annotations.Keys, trackable)
    ensures Tracked(st', r.resources, trackable)
  {
    hide Complete, Clean, NoRepeats, GoodResources;
    var mids :| Path(st, r, mids, trackable) && st' == Complete(mids[|r.before|], r);
    var mid := mids[|r.before|];
    DuringRound(st, r, mids, |r.before|, trackable);
    CompleteIsClean(mid, r, trackable);
    CompleteTracks(mid, r);
    assert forall k :: k in st'.tracked ==> k in Elements(st'.tracked);
  }

  lemma SameResourcesClean(store: Store, rs: seq<Resource>, rs': seq<Resource>, keys: set<string>, trackable: iset<string>)
    requires SameResources(rs, rs') && Clean(store, rs, keys, trackable)
    ensures Clean(store, rs', keys, trackable)
  {
    forall i, k | 0 <= i < |rs'| && k in trackable && Has(store, rs'[i], k) ensures k in keys {
      assert Has(store, rs[i], k);
    }
  }

  /** Tracking safety over every run: after each round the tracking list is the key set of the spec
      just reconciled, and no resource carries a formerly tracked key that the spec lacks. */
  lemma {:induction false} TrackingIsSafe(states: seq<State>, rounds: seq<Round>, trackable: iset<string>, n: nat)
    requires Run(states, rounds, trackable) && n < |rounds|
    requires Tracked(states[0], rounds[0].resources, trackable)
    ensures var st, r := states[n + 1], rounds[n];
      && Elements(st.tracked) == r.spec.annotations.Keys && NoRepeats(st.tracked)
      && Tracked(st, r.resources, trackable)
      && forall i, k :: 0 <= i < |r.resources| && k in states[n].tracked && k !in r.spec.annotations
           ==> !Has(st.store, r.resources[i], k)
  {
    hide RoundTakes, GoodRound, NoRepeats;
    var r := rounds[n];
    if n > 0 {
      TrackingIsSafe(states, rounds, trackable, n - 1);
      assert SameResources(rounds[n - 1].resources, r.resources);
      SameResourcesClean(states[n].store, rounds[n - 1].resources, r.resources, Elements(states[n].tracked), trackable);
    }
    assert Tracked(states[n], r.resources, trackable);
    RoundIsSafe(states[n], r, states[n + 1], trackable);
  }

  // ---------- editing the spec between partial passes ----------

  /** Exactly when a key that is neither tracked nor wanted survives on an object.  On the Namespace,
      which is merged into, it always does; elsewhere it does if the object is visible and matches on
      everything the comparison reads, so that nothing is written. */
  lemma UntrackedKeySurvives(r: Resource, m: Metadata, o: Object, k: string)
    requires FitsResource(r, m)
    requires k !in m.annotations && k !in m.deleted && k !in Carried(r, r.manifest)
    ensures k in Carried(r, AppliedTo(r, m, Some(o))) <==>
      k in Carried(r, o) && (r.mode == MergeInto || (Visible(r, o) && !Drifted(r, m, o)))
  {
  }

  /** A pass under an edited spec that stops after n resources, then a pass under `spec` that
      completes. */
  ghost function StoppedState(st: State, rs: seq<Resource>, edited: Spec, n: nat): State
    requires n <= |rs|
  {
    Stop(st, Round(rs, edited, []), n)
  }

  ghost function DoneState(st: State, rs: seq<Resource>, edited: Spec, n: nat, spec: Spec): State
    requires n <= |rs|
  {
    Complete(StoppedState(st, rs, edited, n), Round(rs, spec, []))
  }

  /** What the two passes do to the object of resource i < n. */
  lemma TwoPasses(st: State, rs: seq<Resource>, edited: Spec, n: nat, spec: Spec, i: nat)
    requires DistinctKeys(rs) && i < n <= |rs|
    ensures var o := AppliedTo(rs[i], MetadataFor(edited, st.tracked), Get(st.store, rs[i].key));
      && Get(StoppedState(st, rs, edited, n).store, rs[i].key) == Some(o)
      && Get(DoneState(st, rs, edited, n, spec).store, rs[i].key) ==
        Some(AppliedTo(rs[i], MetadataFor(spec, st.tracked), Some(o)))
  {
    hide AppliedTo, MetadataFor, NextTracked, ApplyAll;
    PrefixAt(st.store, rs, n, MetadataFor(edited, st.tracked), i);
    ApplyAllAt(StoppedState(st, rs, edited, n).store, rs, MetadataFor(spec, st.tracked), i);
  }

  /** Exactly when a key that the stopped pass left on an object outlives the completing pass: it was
      not tracked, and the object is the Namespace or matches the final spec otherwise. */
  lemma OrphanExact(st: State, rs: seq<Resource>, edited: Spec, n: nat, spec: Spec, i: nat, k: string)
    requires GoodResources(rs, iset x | x in st.tracked || x == k) && i < n <= |rs| && k !in spec.annotations
    ensures var stopped, done := StoppedState(st, rs, edited, n), DoneState(st, rs, edited, n, spec);
      && rs[i].key in stopped.store
      && (Has(done.store, rs[i], k) <==>
        && Has(stopped.store, rs[i], k) && k !in st.tracked
        && (rs[i].mode == MergeInto || !Drifted(rs[i], MetadataFor(spec, st.tracked), stopped.store[rs[i].key])))
      && (k in st.tracked || k !in done.tracked)
  {
    hide AppliedTo, Drifted, Visible, ResourceLabels, ValidResource, StoppedState, DoneState, Carried;
    var r, m := rs[i], MetadataFor(spec, st.tracked);
    TwoPasses(st, rs, edited, n, spec, i);
    assert ValidResource(r) && AvoidsKeys(r, iset x | x in st.tracked || x == k);
    FitsBoth(r, st.tracked, edited, spec, k);
    var o := AppliedTo(r, MetadataFor(edited, st.tracked), Get(st.store, r.key));
    AppliedIsSettled(r, MetadataFor(edited, st.tracked), Get(st.store, r.key));
    if k in st.tracked {
      AppliedDropsDeleted(r, m, Some(o), k);
    } else {
      UntrackedKeySurvives(r, m, o, k);
      NotTracked(st, rs, edited, n, spec, k);
    }
  }

  lemma FitsBoth(r: Resource, tracked: seq<string>, edited: Spec, spec: Spec, k: string)
    requires ValidResource(r) && AvoidsKeys(r, iset x | x in tracked || x == k)
    ensures FitsResource(r, MetadataFor(edited, tracked)) && FitsResource(r, MetadataFor(spec, tracked))
    ensures k !in Carried(r, r.manifest)
  {
    hide MetadataFor, FitsResource, ValidResource, Carried;
    assert AvoidsKeys(r, iset x | x in tracked);
    MetadataFits(r, edited, tracked);
    MetadataFits(r, spec, tracked);
  }

  lemma NotTracked(st: State, rs: seq<Resource>, edited: Spec, n: nat, spec: Spec, k: string)
    requires n <= |rs| && k !in spec.annotations && k !in st.tracked
    ensures k !in DoneState(st, rs, edited, n, spec).tracked
  {
    hide ApplyAll, MetadataFor;
    if TrackingNeedsUpdate(st.tracked, spec.annotations) {
      assert k !in Elements(SortedKeys(spec.annotations.Keys));
    }
  }

  /** A spec edited away after a pass that stopped: from any store and any list that does not track
      the key, on every resource that the pass reached, whatever way it is written, a key that the
      edit added with a value stays although no list remembers it. */
  lemma EditedSpecLeavesOrphan(st: State, rs: seq<Resource>, n: nat, spec: Spec, i: nat, k: string, v: string)
    requires GoodResources(rs, iset x | x in st.tracked || x == k) && i < n <= |rs|
    requires k !in spec.annotations && k !in st.tracked && v != ""
    ensures var done := DoneState(st, rs, spec.(annotations := spec.annotations[k := v]), n, spec);
      Has(done.store, rs[i], k) && k !in done.tracked
  {
    hide AppliedTo, Drifted, Visible, ResourceLabels, ValidResource, StoppedState, DoneState, Carried, Deleted;
    var edited := spec.(annotations := spec.annotations[k := v]);
    var r, found := rs[i], Get(st.store, rs[i].key);
    OrphanExact(st, rs, edited, n, spec, i, k);
    TwoPasses(st, rs, edited, n, spec, i);
    assert ValidResource(r) && AvoidsKeys(r, iset x | x in st.tracked || x == k);
    FitsBoth(r, st.tracked, edited, spec, k);
    AppliedCarries(r, MetadataFor(edited, st.tracked), found, k);
    if r.mode != MergeInto {
      StillMatches(r, st.tracked, spec, k, v, found);
    }
  }

  lemma AppliedCarries(r: Resource, m: Metadata, found: Option<Object>, k: string)
    requires FitsResource(r, m) && k in m.annotations && m.annotations[k] != ""
    ensures k in Carried(r, AppliedTo(r, m, found))
  {
    hide AppliedTo;
    AppliedIsSettled(r, m, found);
  }

  /** The object written for the edited spec is not reported as changed under the spec without k. */
  lemma StillMatches(r: Resource, tracked: seq<string>, spec: Spec, k: string, v: string, found: Option<Object>)
    requires ValidResource(r) && AvoidsKeys(r, iset x | x in tracked || x == k) && r.mode != MergeInto
    requires k !in spec.annotations && k !in tracked
    ensures var edited := spec.(annotations := spec.annotations[k := v]);
      !Drifted(r, MetadataFor(spec, tracked), AppliedTo(r, MetadataFor(edited, tracked), found))
  {
    hide AppliedTo, ResourceLabels, AnnotationsModified, Copy, Deleted;
    var edited := spec.(annotations := spec.annotations[k := v]);
    var m, m' := MetadataFor(spec, tracked), MetadataFor(edited, tracked);
    FitsBoth(r, tracked, edited, spec, k);
    var o := AppliedTo(r, m', found);
    AppliedIsSettled(r, m', found);
    LessWanted(r.manifest.annotations, spec.annotations, k, v, o.annotations, m'.deleted, m.deleted);
    if r.hasTemplate {
      LessWanted(r.manifest.template, spec.annotations, k, v, o.template, m'.deleted, m.deleted);
    }
  }

  lemma LessWanted(manifest: StringMap, spec: StringMap, k: string, v: string, o: StringMap, d': seq<string>, d: seq<string>)
    requires k !in spec && k !in manifest && (forall x :: x in d ==> x in d')
    requires !AnnotationsModified(Copy(manifest, spec[k := v]), o, d')
    ensures !AnnotationsModified(Copy(manifest, spec), o, d)
  {
  }

  // ---------- what a pass of the operator is in a round ----------

  /** Every pass, wherever it stops, is one of the disturbances of a round or its completion; a final
      patch that was carried out counts as the completion, also when its reply is lost. */
  method RunPass(c: Cluster, r: Round, net: nat -> Outcome) returns (ok: bool, ghost n: nat)
    requires forall i :: 0 <= i < |r.resources| ==> ValidResource(r.resources[i])
    modifies c
    ensures var st, st' := old(State(c.store, c.tracked)), State(c.store, c.tracked);
      && n <= |r.resources|
      && (st' == Stop(st, r, n) || st' == Complete(st, r))
      && (ok ==> st' == Complete(st, r))
  {
    hide ApplyAll, MetadataFor, NextTracked;
    var rs, m := r.resources, MetadataFor(r.spec, c.tracked);
    ghost var before, list := c.store, c.tracked;
    ok := c.Pass(rs, r.spec, net);
    n :| 0 <= n <= |rs| && c.store == ApplyAll(before, rs[..n], m)
      && (c.tracked == list || (n == |rs| && c.tracked == NextTracked(list, r.spec)));
    assert rs[..|rs|] == rs;
  }
}
