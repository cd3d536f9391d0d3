/** The status of ExternalSecretsConfig as a protocol: two controllers, with any number of
    reconciles in flight, each copy the whole status, change conditions in their copy, and write
    the copy back over whatever is stored. */
module Status {
  import opened Text

  datatype Condition = Condition(kind: string, status: bool, reason: string, message: string, generation: int)

  datatype ConfigStatus = ConfigStatus(conditions: seq<Condition>, images: string)

  const Ready := "Ready"
  const Degraded := "Degraded"
  const UpdateAnnotation := "UpdateAnnotation"

  // ---------- conditions ----------

  /** `FindStatusCondition`: the first condition of a kind. */
  function Find(cs: seq<Condition>, kind: string): (r: Option<Condition>)
    ensures r.Some? ==> r.value in cs && r.value.kind == kind
    ensures r.None? ==> forall i :: 0 <= i < |cs| ==> cs[i].kind != kind
  {
    if cs == [] then None
    else if cs[0].kind == kind then Some(cs[0])
    else Find(cs[1..], kind)
  }

  /** `SetStatusCondition`, transition times aside: overwrite the first condition of the kind, or
      append.  The caller learns whether anything changed. */
  function Set(cs: seq<Condition>, c: Condition): seq<Condition> {
    if cs == [] then [c]
    else if cs[0].kind == c.kind then [c] + cs[1..]
    else [cs[0]] + Set(cs[1..], c)
  }

  predicate DistinctKinds(cs: seq<Condition>) {
    forall i, j :: 0 <= i < j < |cs| ==> cs[i].kind != cs[j].kind
  }

  /** Setting a condition changes that kind and no other. */
  lemma {:induction false} SetThenFind(cs: seq<Condition>, c: Condition, kind: string)
    ensures Find(Set(cs, c), kind) == if kind == c.kind then Some(c) else Find(cs, kind)
  {
    if cs != [] && cs[0].kind != c.kind {
      SetThenFind(cs[1..], c, kind);
      assert Set(cs, c)[1..] == Set(cs[1..], c);
    } else if cs == [] {
      assert [c][1..] == [];
    }
  }

  lemma {:induction false} SetKinds(cs: seq<Condition>, c: Condition, x: Condition)
    requires x in Set(cs, c)
    ensures x == c || x in cs
  {
    if cs != [] && cs[0].kind != c.kind && x != cs[0] {
      SetKinds(cs[1..], c, x);
    }
  }

  lemma {:induction false} SetKeepsDistinct(cs: seq<Condition>, c: Condition)
    requires DistinctKinds(cs)
    ensures DistinctKinds(Set(cs, c))
  {
    if cs != [] && cs[0].kind != c.kind {
      SetKeepsDistinct(cs[1..], c);
      var rest := Set(cs[1..], c);
      forall j | 0 <= j < |rest| ensures rest[j].kind != cs[0].kind {
        SetKinds(cs[1..], c, rest[j]);
      }
    }
  }

  // ---------- what a reconcile reports ----------

  /** The outcome of a reconcile: how its error is classified decides what is reported. */
  datatype Outcome = Success | Irrecoverable(error: string) | UserConfiguration(error: string) | Retry(error: string)

  function DegradedFor(o: Outcome, generation: int): Condition {
    match o
    case Success => Condition(Degraded, false, "Ready", "", generation)
    case Irrecoverable(e) =>
      Condition(Degraded, true, "Failed", "reconciliation failed with irrecoverable error, not retrying: " + e, generation)
    case UserConfiguration(e) => Condition(Degraded, true, "Failed", "user configuration is invalid: " + e, generation)
    case Retry(e) => Condition(Degraded, false, "Ready", "", generation)
  }

  function ReadyFor(o: Outcome, generation: int): Condition {
    match o
    case Success => Condition(Ready, true, "Ready", "reconciliation successful", generation)
    case Irrecoverable(_) => DegradedFor(o, generation).(kind := Ready, status := false)
    case UserConfiguration(_) => DegradedFor(o, generation).(kind := Ready, status := false)
    case Retry(e) => Condition(Ready, false, "Progressing", "reconciliation failed, retrying: " + e, generation)
  }

  function AnnotationFor(failed: bool, message: string, generation: int): Condition {
    Condition(UpdateAnnotation, !failed, if failed then "Failed" else "Completed", message, generation)
  }

  /** `reconcileDeploymentFailureResult` and its success twin: whether to run again after the
      default delay, given whether the status write failed and the error is a missing object. */
  function Requeues(o: Outcome, writeFailed: bool, missing: bool): bool {
    match o
    case Success => false
    case Irrecoverable(_) => false
    case UserConfiguration(_) => !writeFailed && missing
    case Retry(_) => !writeFailed
  }

  /** Once its status is written, a reconcile asks to run again exactly when it reported progress,
      or a user configuration that refers to something missing; when the write failed it never asks,
      the error itself being retried. */
  lemma RequeuesExactly(o: Outcome, missing: bool, generation: int)
    ensures Requeues(o, false, missing) <==>
      !ReadyFor(o, generation).status && (!DegradedFor(o, generation).status || (o.UserConfiguration? && missing))
    ensures !Requeues(o, true, missing)
    ensures !(ReadyFor(o, generation).status && DegradedFor(o, generation).status)
  {
  }

  // ---------- the protocol ----------

  /** A reconcile in flight, with the status it copied, the version that was, and the generation it
      observed.  The config controller sets Degraded, then Ready; the annotator sets one condition. */
  datatype Reconcile =
    | Fetched(copy: ConfigStatus, version: nat, generation: int)
    | DegradedSet(copy: ConfigStatus, version: nat, generation: int, outcome: Outcome, changed: bool)
    | Due(copy: ConfigStatus, version: nat, setReady: bool)

  /** Every status ever stored, oldest first, and the reconciles in flight. */
  datatype State = State(stored: seq<ConfigStatus>, running: map<int, Reconcile>)

  function Keep(s: State, id: int, r: Reconcile): State {
    s.(running := s.running[id := r])
  }

  function Drop(s: State, id: int): State {
    s.(running := s.running - {id})
  }

  function Store(s: State, status: ConfigStatus): State {
    s.(stored := s.stored + [status])
  }

  datatype Step =
    | Fetch(version: nat, generation: int)
    | StoreImages(images: string)
    | SetDegraded(outcome: Outcome)
    | SetReady
    | SetAnnotation(failed: bool, message: string)
    | Write
    | Abandon

  /** One step of reconcile `id`.  A fetch may be served by any version, however stale.  A write
      replaces the stored status by the copy; conflicts only repeat it. */
  predicate Takes(s: State, id: int, step: Step, s': State) {
    match step
    case Fetch(v, g) => id !in s.running && v < |s.stored| && s' == Keep(s, id, Fetched(s.stored[v], v, g))
    case StoreImages(images) =>
      && id in s.running && s.running[id].Fetched?
      && var Fetched(copy, v, g) := s.running[id];
         var imaged := copy.(images := images);
         s' == Store(Keep(s, id, Fetched(imaged, v, g)), imaged)
    case SetDegraded(o) =>
      && id in s.running && s.running[id].Fetched?
      && var Fetched(copy, v, g) := s.running[id];
         var cs := Set(copy.conditions, DegradedFor(o, g));
         s' == Keep(s, id, DegradedSet(copy.(conditions := cs), v, g, o, cs != copy.conditions))
    case SetReady =>
      && id in s.running && s.running[id].DegradedSet?
      && var DegradedSet(copy, v, g, o, changed) := s.running[id];
         var cs := Set(copy.conditions, ReadyFor(o, g));
         s' == if changed || cs != copy.conditions then Keep(s, id, Due(copy.(conditions := cs), v, true)) else Drop(s, id)
    case SetAnnotation(failed, message) =>
      && id in s.running && s.running[id].Fetched?
      && var Fetched(copy, v, g) := s.running[id];
         var cs := Set(copy.conditions, AnnotationFor(failed, message, g));
         s' == if cs != copy.conditions then Keep(s, id, Due(copy.(conditions := cs), v, false)) else Drop(s, id)
    case Write => id in s.running && s.running[id].Due? && s' == Store(Drop(s, id), s.running[id].copy)
    case Abandon => id in s.running && s' == Drop(s, id)
  }

  ghost predicate Next(s: State, s': State) {
    exists id, step :: Takes(s, id, step, s')
  }

  /** A run starts with a coherent status, such as the empty one of a new object. */
  ghost predicate Run(states: seq<State>) {
    && states != []
    && |states[0].stored| == 1 && Coherent(states[0].stored[0]) && states[0].running == map[]
    && forall i :: 0 < i < |states| ==> Next(states[i - 1], states[i])
  }

  // ---------- coherence ----------

  /** Ready and Degraded are both absent, or both are what one outcome reports for one generation. */
  ghost predicate Matched(cs: seq<Condition>) {
    || (Find(cs, Ready) == None && Find(cs, Degraded) == None)
    || exists o, g :: Find(cs, Degraded) == Some(DegradedFor(o, g)) && Find(cs, Ready) == Some(ReadyFor(o, g))
  }

  ghost predicate Coherent(st: ConfigStatus) {
    DistinctKinds(st.conditions) && Matched(st.conditions)
  }

  ghost predicate CoherentReconcile(r: Reconcile) {
    match r
    case Fetched(copy, _, _) => Coherent(copy)
    case DegradedSet(copy, _, g, o, changed) =>
      && DistinctKinds(copy.conditions) && Find(copy.conditions, Degraded) == Some(DegradedFor(o, g))
      && (!changed ==> Coherent(copy))
    case Due(copy, _, _) => Coherent(copy)
  }

  ghost predicate Inv(s: State) {
    && (forall i :: 0 <= i < |s.stored| ==> Coherent(s.stored[i]))
    && (forall id :: id in s.running ==> CoherentReconcile(s.running[id]))
  }

  lemma SetDegradedCoherent(cs: seq<Condition>, o: Outcome, g: int)
    requires DistinctKinds(cs)
    ensures DistinctKinds(Set(cs, DegradedFor(o, g)))
    ensures Find(Set(cs, DegradedFor(o, g)), Degraded) == Some(DegradedFor(o, g))
  {
    SetKeepsDistinct(cs, DegradedFor(o, g));
    SetThenFind(cs, DegradedFor(o, g), Degraded);
  }

  lemma SetReadyCoherent(cs: seq<Condition>, o: Outcome, g: int)
    requires DistinctKinds(cs) && Find(cs, Degraded) == Some(DegradedFor(o, g))
    ensures DistinctKinds(Set(cs, ReadyFor(o, g))) && Matched(Set(cs, ReadyFor(o, g)))
  {
    SetKeepsDistinct(cs, ReadyFor(o, g));
    SetThenFind(cs, ReadyFor(o, g), Degraded);
    SetThenFind(cs, ReadyFor(o, g), Ready);
  }

  lemma SetAnnotationCoherent(cs: seq<Condition>, c: Condition)
    requires DistinctKinds(cs) && Matched(cs) && c.kind == UpdateAnnotation
    ensures DistinctKinds(Set(cs, c)) && Matched(Set(cs, c))
  {
    SetKeepsDistinct(cs, c);
    SetThenFind(cs, c, Degraded);
    SetThenFind(cs, c, Ready);
  }

  lemma StepInv(s: State, s': State)
    requires Inv(s) && Next(s, s')
    ensures Inv(s')
  {
    hide Matched, DistinctKinds, DegradedFor, ReadyFor, AnnotationFor, Set;
    var id, step :| Takes(s, id, step, s');
    match step {
      case SetDegraded(o) =>
        var Fetched(copy, _, g) := s.running[id];
        assert CoherentReconcile(s.running[id]);
        SetDegradedCoherent(copy.conditions, o, g);
      case SetReady =>
        var DegradedSet(copy, _, g, o, _) := s.running[id];
        assert CoherentReconcile(s.running[id]);
        SetReadyCoherent(copy.conditions, o, g);
      case SetAnnotation(failed, message) =>
        var Fetched(copy, _, g) := s.running[id];
        assert CoherentReconcile(s.running[id]);
        AnnotationKind(failed, message, g);
        SetAnnotationCoherent(copy.conditions, AnnotationFor(failed, message, g));
      case StoreImages(_) => assert CoherentReconcile(s.running[id]);
      case Write => assert CoherentReconcile(s.running[id]);
      case Fetch(_, _) =>
      case Abandon =>
    }
  }

  lemma AnnotationKind(failed: bool, message: string, g: int)
    ensures AnnotationFor(failed, message, g).kind == UpdateAnnotation
  {
  }

  lemma {:induction false} RunInv(states: seq<State>)
    requires Run(states)
    ensures Inv(states[|states| - 1])
    decreases |states|
  {
    hide Next, Coherent, CoherentReconcile;
    var n := |states| - 1;
    if n > 0 {
      RunInv(states[..n]);
      StepInv(states[n - 1], states[n]);
    }
  }

  /** Over all interleavings, stale copies included: every status ever stored has Ready and Degraded
      both absent, or both present with the same observed generation and never both true, and it
      has at most one condition of each kind. */
  lemma StoredStatusCoherent(states: seq<State>, i: nat)
    requires Run(states) && i < |states[|states| - 1].stored|
    ensures var cs := states[|states| - 1].stored[i].conditions;
      var ready, degraded := Find(cs, Ready), Find(cs, Degraded);
      && DistinctKinds(cs) && Matched(cs)
      && (ready.Some? <==> degraded.Some?)
      && (ready.Some? ==> ready.value.generation == degraded.value.generation
                          && !(ready.value.status && degraded.value.status))
  {
    hide Next, DistinctKinds;
    RunInv(states);
    assert Coherent(states[|states| - 1].stored[i]);
  }

  // ---------- when a stored Ready stays ----------

  predicate HasReady(st: ConfigStatus) {
    Find(st.conditions, Ready).Some?
  }

  ghost predicate Remembers(stored: seq<ConfigStatus>, r: Reconcile) {
    && r.version < |stored|
    && (HasReady(r.copy) <==> HasReady(stored[r.version]) || (r.Due? && r.setReady))
  }

  /** A copy has Ready exactly when the version it was made of has, or the reconcile has set it. */
  ghost predicate History(s: State) {
    s.stored != [] && forall id :: id in s.running ==> Remembers(s.stored, s.running[id])
  }

  lemma SetOther(cs: seq<Condition>, c: Condition)
    ensures c.kind != Ready ==> Find(Set(cs, c), Ready) == Find(cs, Ready)
    ensures c.kind == Ready ==> Find(Set(cs, c), Ready).Some?
  {
    SetThenFind(cs, c, Ready);
  }

  lemma ReportedKinds(o: Outcome, failed: bool, message: string, g: int)
    ensures DegradedFor(o, g).kind != Ready && ReadyFor(o, g).kind == Ready
    ensures AnnotationFor(failed, message, g).kind != Ready
  {
  }

  /** What a step does to the Ready condition in the copy of its own reconcile. */
  lemma StepHistory(s: State, id: int, step: Step, s': State)
    requires History(s) && Takes(s, id, step, s')
    ensures History(s') && s.stored <= s'.stored
  {
    hide Find, Set, DegradedFor, ReadyFor, AnnotationFor;
    match step {
      case SetDegraded(o) =>
        var Fetched(copy, _, g) := s.running[id];
        ReportedKinds(o, false, "", g);
        SetOther(copy.conditions, DegradedFor(o, g));
      case SetReady =>
        var DegradedSet(copy, _, g, o, _) := s.running[id];
        ReportedKinds(o, false, "", g);
        SetOther(copy.conditions, ReadyFor(o, g));
      case SetAnnotation(failed, message) =>
        var Fetched(copy, _, g) := s.running[id];
        ReportedKinds(Success, failed, message, g);
        SetOther(copy.conditions, AnnotationFor(failed, message, g));
      case _ =>
    }
  }

  lemma {:induction false} RunHistory(states: seq<State>, i: nat)
    requires Run(states) && i < |states|
    ensures History(states[i])
    ensures i > 0 ==> states[i - 1].stored <= states[i].stored
  {
    hide Takes, Coherent, HasReady;
    if i > 0 {
      RunHistory(states, i - 1);
      assert Next(states[i - 1], states[i]);
      var id, step :| Takes(states[i - 1], id, step, states[i]);
      StepHistory(states[i - 1], id, step, states[i]);
    }
  }

  function Latest(s: State): ConfigStatus
    requires s.stored != []
  {
    s.stored[|s.stored| - 1]
  }

  /** The step stores a status without Ready over one with it. */
  predicate Erases(s: State, s': State)
    requires s.stored != [] && s'.stored != []
  {
    |s.stored| < |s'.stored| && HasReady(Latest(s)) && !HasReady(Latest(s'))
  }

  /** Reconcile `id` stores a copy in which it has not set Ready, made of a version without it. */
  predicate StaleWriter(s: State, id: int, step: Step) {
    && id in s.running && s.running[id].version < |s.stored|
    && (step.StoreImages? || (step.Write? && s.running[id].Due? && !s.running[id].setReady))
    && !HasReady(s.stored[s.running[id].version])
  }

  lemma StoredByStep(s: State, id: int, step: Step, s': State)
    requires History(s) && Takes(s, id, step, s')
    ensures |s'.stored| == |s.stored| + if step.StoreImages? || step.Write? then 1 else 0
    ensures s'.stored != [] && (|s.stored| < |s'.stored| ==> (!HasReady(Latest(s')) <==> StaleWriter(s, id, step)))
    ensures StaleWriter(s, id, step) ==> |s.stored| < |s'.stored|
    ensures |s.stored| == |s'.stored| ==> Latest(s') == Latest(s)
  {
    hide Find, Set, DegradedFor, ReadyFor, AnnotationFor;
  }

  /** The exact step law: in every run, a step erases Ready if and only if Ready was stored and the
      step is a write or an image update by a reconcile that has not set Ready itself and whose
      fetched version had none. */
  lemma ErasingStepExact(states: seq<State>, id: int, step: Step, s': State)
    requires Run(states) && Takes(states[|states| - 1], id, step, s')
    ensures states[|states| - 1].stored != [] && s'.stored != []
    ensures var s := states[|states| - 1];
      Erases(s, s') <==> HasReady(Latest(s)) && StaleWriter(s, id, step)
  {
    hide Next, Coherent, Takes, StaleWriter, HasReady;
    RunHistory(states, |states| - 1);
    StoredByStep(states[|states| - 1], id, step, s');
  }

  /** Every status stored in `s` from position n on has Ready. */
  ghost predicate ReadySince(s: State, n: nat) {
    forall k :: n <= k < |s.stored| ==> HasReady(s.stored[k])
  }

  ghost predicate NoStaleWriter(states: seq<State>, a: nat, b: nat)
    requires b < |states|
  {
    forall i, id, step :: a <= i < b && Takes(states[i], id, step, states[i + 1]) ==> !StaleWriter(states[i], id, step)
  }

  /** The exact run law: from a stored Ready on, every status that is stored has Ready if and only if
      no step of the run is taken by a stale writer. */
  lemma {:induction false} ReadyStaysExact(states: seq<State>, a: nat, b: nat)
    requires Run(states) && a <= b < |states|
    requires states[a].stored != [] && HasReady(Latest(states[a]))
    ensures states[a].stored <= states[b].stored
    ensures ReadySince(states[b], |states[a].stored| - 1) <==> NoStaleWriter(states, a, b)
    decreases b
  {
    hide Run, Takes, HasReady, StaleWriter;
    if a < b {
      ReadyStaysExact(states, a, b - 1);
      var s, s' := states[b - 1], states[b];
      RunHistory(states, b - 1);
      RunHistory(states, b);
      RunStep(states, b);
      var id, step :| Takes(s, id, step, s');
      StoredByStep(s, id, step, s');
      var n := |states[a].stored| - 1;
      assert ReadySince(s', n) <==> ReadySince(s, n) && (|s.stored| < |s'.stored| ==> HasReady(Latest(s')));
      assert NoStaleWriter(states, a, b) <==>
        NoStaleWriter(states, a, b - 1) && (|s.stored| < |s'.stored| ==> HasReady(Latest(s'))) by {
        forall id', step' | Takes(states[b - 1], id', step', states[b - 1 + 1])
          ensures StaleWriter(s, id', step') <==> |s.stored| < |s'.stored| && !HasReady(Latest(s'))
        {
          StoredByStep(s, id', step', s');
        }
        assert Takes(states[b - 1], id, step, states[b - 1 + 1]);
      }
    }
  }

  lemma RunStep(states: seq<State>, b: nat)
    requires Run(states) && 0 < b < |states|
    ensures Next(states[b - 1], states[b])
  {
    hide Next, Coherent;
  }

  ghost predicate CopiesHaveReady(s: State) {
    forall id :: id in s.running ==> HasReady(s.running[id].copy)
  }

  /** From position a on, a reconcile that starts fetches a version with Ready. */
  ghost predicate FetchesReady(states: seq<State>, a: nat) {
    forall i, id :: a <= i < |states| - 1 && id in states[i + 1].running && id !in states[i].running ==>
      states[i + 1].running[id].version < |states[i].stored| && HasReady(states[i].stored[states[i + 1].running[id].version])
  }

  lemma {:induction false} CopiesStayReady(states: seq<State>, a: nat, b: nat)
    requires Run(states) && a <= b < |states|
    requires CopiesHaveReady(states[a]) && FetchesReady(states, a)
    ensures CopiesHaveReady(states[b])
    decreases b
  {
    hide Run, Takes, HasReady;
    if a < b {
      CopiesStayReady(states, a, b - 1);
      RunHistory(states, b - 1);
      RunHistory(states, b);
      RunStep(states, b);
      var id, step :| Takes(states[b - 1], id, step, states[b]);
      assert states[b - 1 + 1] == states[b];
      forall u | u in states[b].running ensures HasReady(states[b].running[u].copy) {
        VersionKept(states[b - 1], id, step, states[b], u);
      }
    }
  }

  /** What a step does to a reconcile in flight. */
  lemma VersionKept(s: State, id: int, step: Step, s': State, u: int)
    requires History(s) && Takes(s, id, step, s') && u in s'.running
    ensures u !in s.running ==> s'.running[u].version < |s.stored| && s'.running[u].copy == s.stored[s'.running[u].version]
    ensures u in s.running && HasReady(s.running[u].copy) ==> HasReady(s'.running[u].copy)
  {
    hide Find, Set, DegradedFor, ReadyFor, AnnotationFor;
    match step {
      case SetDegraded(o) =>
        var Fetched(copy, _, g) := s.running[id];
        ReportedKinds(o, false, "", g);
        SetOther(copy.conditions, DegradedFor(o, g));
      case SetReady =>
        var DegradedSet(copy, _, g, o, _) := s.running[id];
        ReportedKinds(o, false, "", g);
        SetOther(copy.conditions, ReadyFor(o, g));
      case SetAnnotation(failed, message) =>
        var Fetched(copy, _, g) := s.running[id];
        ReportedKinds(Success, failed, message, g);
        SetOther(copy.conditions, AnnotationFor(failed, message, g));
      case _ =>
    }
  }

  /** If from some point on every fetch reads a version with Ready, and every copy in flight at that
      point has it, then every status stored later has Ready. */
  lemma ReadyStays(states: seq<State>, a: nat)
    requires Run(states) && a < |states|
    requires states[a].stored != [] && HasReady(Latest(states[a]))
    requires CopiesHaveReady(states[a]) && FetchesReady(states, a)
    ensures ReadySince(states[|states| - 1], |states[a].stored| - 1)
  {
    hide Run, Takes, HasReady, FetchesReady;
    var b := |states| - 1;
    ReadyStaysExact(states, a, b);
    forall i, id, step | a <= i < b && Takes(states[i], id, step, states[i + 1])
      ensures !StaleWriter(states[i], id, step)
    {
      CopiesStayReady(states, a, i);
      RunHistory(states, i);
      StoredCopies(states[i], id, step, states[i + 1]);
    }
  }

  lemma StoredCopies(s: State, id: int, step: Step, s': State)
    requires History(s) && CopiesHaveReady(s) && Takes(s, id, step, s')
    ensures !StaleWriter(s, id, step)
  {
    hide Find, Set, DegradedFor, ReadyFor, AnnotationFor;
  }

  // ---------- what a reconcile reports, from its fetch to its write ----------

  /** A run with the steps that were taken, each with its reconcile. */
  ghost predicate LabelledRun(states: seq<State>, ids: seq<int>, steps: seq<Step>) {
    && |states| == |ids| + 1 == |steps| + 1
    && forall i :: 0 <= i < |ids| ==> Takes(states[i], ids[i], steps[i], states[i + 1])
  }

  /** The status says plainly how a reconcile that observed generation g ended. */
  predicate Says(st: ConfigStatus, ready: bool, degraded: bool, g: int) {
    var r, d := Find(st.conditions, "Ready"), Find(st.conditions, "Degraded");
    && r.Some? && r.value.status == ready && r.value.generation == g
    && d.Some? && d.value.status == degraded && d.value.generation == g
  }

  /** Success is Ready; an irrecoverable error and a wrong user configuration are Degraded; anything
      else is neither. */
  predicate SaysOutcome(st: ConfigStatus, o: Outcome, g: int) {
    Says(st, o.Success?, o.Irrecoverable? || o.UserConfiguration?, g)
  }

  predicate SaysAnnotated(st: ConfigStatus, failed: bool, g: int) {
    var c := Find(st.conditions, "UpdateAnnotation");
    c.Some? && c.value.status == !failed && c.value.generation == g
  }

  /** Reconcile `id` fetched version v at position a, and does not fetch again before position b. */
  ghost predicate Since(ids: seq<int>, steps: seq<Step>, id: int, a: nat, b: nat, v: nat, g: int) {
    && a < b <= |ids| == |steps| && ids[a] == id && steps[a] == Fetch(v, g)
    && forall i :: a < i < b && ids[i] == id ==> !steps[i].Fetch?
  }

  /** The step at position i decides what reconcile `id` reports. */
  ghost predicate Decides(ids: seq<int>, steps: seq<Step>, id: int, i: nat) {
    i < |ids| && i < |steps| && ids[i] == id && (steps[i].SetDegraded? || steps[i].SetAnnotation?)
  }

  ghost predicate StillFetched(r: Reconcile, stored: seq<ConfigStatus>, v: nat, g: int) {
    r.Fetched? && r.generation == g && r.version == v < |stored| && r.copy.conditions == stored[v].conditions
  }

  /** How far a reconcile has come that has decided to report `d`. */
  ghost predicate Reporting(r: Reconcile, stored: seq<ConfigStatus>, d: Step, v: nat, g: int) {
    && r.version == v < |stored|
    && match d
       case SetDegraded(o) =>
         if r.DegradedSet? then
           && r.generation == g && r.outcome == o
           && Find(r.copy.conditions, Degraded) == Some(DegradedFor(o, g))
           && (r.changed <==> r.copy.conditions != stored[v].conditions)
         else r.Due? && r.setReady && SaysOutcome(r.copy, o, g)
       case SetAnnotation(failed, _) => r.Due? && !r.setReady && SaysAnnotated(r.copy, failed, g)
       case _ => false
  }

  /** Steps of other reconciles. */
  lemma OtherStep(s: State, id: int, step: Step, s': State, u: int)
    requires Takes(s, id, step, s') && u != id
    ensures (u in s.running <==> u in s'.running) && (u in s.running ==> s'.running[u] == s.running[u])
    ensures s.stored <= s'.stored
  {
    hide Set, Find, DegradedFor, ReadyFor, AnnotationFor;
  }

  lemma FetchStep(s: State, id: int, v: nat, g: int, s': State)
    requires Takes(s, id, Fetch(v, g), s')
    ensures id in s'.running && StillFetched(s'.running[id], s'.stored, v, g)
  {
  }

  /** From a fetch on, until it decides, a reconcile has what it fetched, or it is gone. */
  lemma FetchedStep(s: State, id: int, step: Step, s': State, v: nat, g: int)
    requires Takes(s, id, step, s') && id in s.running && StillFetched(s.running[id], s.stored, v, g)
    requires !step.SetDegraded? && !step.SetAnnotation?
    ensures id in s'.running ==> StillFetched(s'.running[id], s'.stored, v, g)
    ensures step.StoreImages? || step.Abandon?
  {
    hide Set, Find, DegradedFor, ReadyFor, AnnotationFor;
  }

  lemma DecidingStep(s: State, id: int, step: Step, s': State, v: nat, g: int)
    requires Takes(s, id, step, s') && id in s.running && StillFetched(s.running[id], s.stored, v, g)
    requires step.SetDegraded? || step.SetAnnotation?
    ensures id in s'.running ==> Reporting(s'.running[id], s'.stored, step, v, g)
    ensures s'.stored == s.stored
    ensures step.SetDegraded? ==> id in s'.running
    ensures id !in s'.running ==> SaysAnnotated(s.stored[v], step.failed, g)
  {
    hide Set, Find, DegradedFor, ReadyFor, AnnotationFor;
    if step.SetDegraded? {
      SetThenFind(s.stored[v].conditions, DegradedFor(step.outcome, g), Degraded);
      PlainDegraded(step.outcome, g);
    } else {
      SetThenFind(s.stored[v].conditions, AnnotationFor(step.failed, step.message, g), "UpdateAnnotation");
      PlainAnnotation(step.failed, step.message, g);
    }
  }

  lemma PlainDegraded(o: Outcome, g: int)
    ensures var c := DegradedFor(o, g);
      c.kind == "Degraded" && c.generation == g && (c.status <==> o.Irrecoverable? || o.UserConfiguration?)
  {
  }

  lemma PlainReady(o: Outcome, g: int)
    ensures var c := ReadyFor(o, g);
      c.kind == "Ready" && c.generation == g && (c.status <==> o.Success?)
  {
  }

  lemma PlainAnnotation(failed: bool, message: string, g: int)
    ensures var c := AnnotationFor(failed, message, g);
      c.kind == "UpdateAnnotation" && c.generation == g && c.status == !failed
  {
  }

  lemma BothSet(cs: seq<Condition>, o: Outcome, g: int, st: ConfigStatus)
    requires Find(cs, Degraded) == Some(DegradedFor(o, g)) && st.conditions == Set(cs, ReadyFor(o, g))
    ensures SaysOutcome(st, o, g)
  {
    hide Set, Find, DegradedFor, ReadyFor;
    PlainDegraded(o, g);
    PlainReady(o, g);
    SetThenFind(cs, ReadyFor(o, g), "Ready");
    SetThenFind(cs, ReadyFor(o, g), "Degraded");
  }

  /** After the decision: the report is completed, written, or not needed because the fetched version
      already makes it. */
  lemma ReportingStep(s: State, id: int, step: Step, s': State, d: Step, v: nat, g: int)
    requires Takes(s, id, step, s') && id in s.running && Reporting(s.running[id], s.stored, d, v, g)
    ensures id in s'.running ==> Reporting(s'.running[id], s'.stored, d, v, g)
    ensures step.SetReady? || step.Write? || step.Abandon?
    ensures step.Write? ==> s'.stored == s.stored + [s.running[id].copy] && s.running[id].Due?
    ensures step.SetReady? && id !in s'.running ==> d.SetDegraded? && SaysOutcome(s.stored[v], d.outcome, g)
  {
    hide Set, Find, DegradedFor, ReadyFor, AnnotationFor, Says, SaysAnnotated;
    if step.SetReady? {
      var r := s.running[id];
      BothSet(r.copy.conditions, r.outcome, g, r.copy.(conditions := Set(r.copy.conditions, ReadyFor(r.outcome, g))));
      if id !in s'.running {
        SaysSame(r.copy, s.stored[v], r.outcome, g);
      }
    }
  }

  lemma SaysSame(a: ConfigStatus, b: ConfigStatus, o: Outcome, g: int)
    requires a.conditions == b.conditions && SaysOutcome(a, o, g)
    ensures SaysOutcome(b, o, g)
  {
  }

  lemma {:induction false} FetchedSince(states: seq<State>, ids: seq<int>, steps: seq<Step>, id: int, a: nat, b: nat, v: nat, g: int)
    requires LabelledRun(states, ids, steps) && Since(ids, steps, id, a, b, v, g)
    requires forall i :: a < i < b ==> !Decides(ids, steps, id, i)
    ensures id in states[b].running ==> StillFetched(states[b].running[id], states[b].stored, v, g)
    decreases b
  {
    hide Takes, StillFetched;
    assert Takes(states[b - 1], ids[b - 1], steps[b - 1], states[b - 1 + 1]);
    assert a < b - 1 ==> !Decides(ids, steps, id, b - 1);
    if b - 1 == a {
      FetchStep(states[a], id, v, g, states[b]);
    } else {
      FetchedSince(states, ids, steps, id, a, b - 1, v, g);
      if ids[b - 1] != id {
        OtherStep(states[b - 1], ids[b - 1], steps[b - 1], states[b], id);
        if id in states[b].running {
          FetchedKept(states[b - 1], states[b], id, v, g);
        }
      } else if id in states[b - 1].running {
        FetchedStep(states[b - 1], id, steps[b - 1], states[b], v, g);
      } else {
        OnlyFetchStarts(states[b - 1], id, steps[b - 1], states[b]);
      }
    }
  }

  lemma FetchedKept(s: State, s': State, id: int, v: nat, g: int)
    requires s.stored <= s'.stored && id in s.running && id in s'.running && s'.running[id] == s.running[id]
    requires StillFetched(s.running[id], s.stored, v, g)
    ensures StillFetched(s'.running[id], s'.stored, v, g)
  {
  }

  lemma ReportingKept(s: State, s': State, id: int, d: Step, v: nat, g: int)
    requires s.stored <= s'.stored && id in s.running && id in s'.running && s'.running[id] == s.running[id]
    requires Reporting(s.running[id], s.stored, d, v, g)
    ensures Reporting(s'.running[id], s'.stored, d, v, g)
  {
    hide Find, DegradedFor;
  }

  lemma OnlyFetchStarts(s: State, id: int, step: Step, s': State)
    requires Takes(s, id, step, s') && id !in s.running
    ensures step.Fetch?
  {
  }

  /** The first decision of a reconcile since its fetch. */
  lemma FirstDecision(ids: seq<int>, steps: seq<Step>, id: int, a: nat, c: nat) returns (first: nat)
    requires a < c && Decides(ids, steps, id, c)
    ensures a < first <= c && Decides(ids, steps, id, first)
    ensures forall i :: a < i < first ==> !Decides(ids, steps, id, i)
  {
    first := a + 1;
    while !Decides(ids, steps, id, first)
      invariant a < first <= c && forall i :: a < i < first ==> !Decides(ids, steps, id, i)
      decreases c - first
    {
      first := first + 1;
    }
  }

  lemma {:induction false} ReportingSince(states: seq<State>, ids: seq<int>, steps: seq<Step>, id: int,
                                          a: nat, c: nat, b: nat, v: nat, g: int)
    requires LabelledRun(states, ids, steps) && Since(ids, steps, id, a, b, v, g) && a < c < b
    requires Decides(ids, steps, id, c) && forall i :: a < i < c ==> !Decides(ids, steps, id, i)
    ensures id in states[b].running ==> Reporting(states[b].running[id], states[b].stored, steps[c], v, g)
    decreases b
  {
    hide Takes, StillFetched, Reporting, SaysOutcome, SaysAnnotated;
    assert Takes(states[b - 1], ids[b - 1], steps[b - 1], states[b - 1 + 1]);
    var s, s' := states[b - 1], states[b];
    if id !in s.running {
      if ids[b - 1] == id {
        OnlyFetchStarts(s, id, steps[b - 1], s');
      } else {
        OtherStep(s, ids[b - 1], steps[b - 1], s', id);
      }
    } else if b - 1 == c {
      FetchedSince(states, ids, steps, id, a, c, v, g);
      DecidingStep(s, id, steps[c], s', v, g);
    } else {
      ReportingSince(states, ids, steps, id, a, c, b - 1, v, g);
      if ids[b - 1] == id {
        ReportingStep(s, id, steps[b - 1], s', steps[c], v, g);
      } else {
        OtherStep(s, ids[b - 1], steps[b - 1], s', id);
        ReportingKept(s, s', id, steps[c], v, g);
      }
    }
  }

  /** In a run a reconcile decides once: what it reports before position w is what its decision says. */
  lemma ReportingAt(states: seq<State>, ids: seq<int>, steps: seq<Step>, id: int, a: nat, c: nat, w: nat, v: nat, g: int)
    requires LabelledRun(states, ids, steps) && Since(ids, steps, id, a, w, v, g) && a < c < w < |ids|
    requires Decides(ids, steps, id, c) && id in states[w].running
    ensures Reporting(states[w].running[id], states[w].stored, steps[c], v, g)
  {
    hide Takes, Reporting, StillFetched, SaysOutcome, SaysAnnotated;
    var first := FirstDecision(ids, steps, id, a, c);
    if first < c {
      assert Since(ids, steps, id, a, c, v, g);
      ReportingSince(states, ids, steps, id, a, first, c, v, g);
      assert Takes(states[c], ids[c], steps[c], states[c + 1]);
      if id in states[c].running {
        ReportingStep(states[c], id, steps[c], states[c + 1], steps[first], v, g);
      } else {
        OnlyFetchStarts(states[c], id, steps[c], states[c + 1]);
      }
    } else {
      ReportingSince(states, ids, steps, id, a, c, w, v, g);
    }
  }

  /** In every run of the two controllers: when a reconcile that fetched at generation g and ended with
      outcome o writes, the stored status has Ready true if and only if o is a success, Degraded true
      if and only if o is irrecoverable or a wrong user configuration, and both carry generation g. */
  lemma WritesItsOutcome(states: seq<State>, ids: seq<int>, steps: seq<Step>, id: int,
                         a: nat, c: nat, w: nat, v: nat, g: int, o: Outcome)
    requires LabelledRun(states, ids, steps) && Since(ids, steps, id, a, w, v, g) && a < c < w < |ids|
    requires ids[c] == id && steps[c] == SetDegraded(o) && ids[w] == id && steps[w] == Write
    ensures |states[w + 1].stored| == |states[w].stored| + 1
    ensures Says(Latest(states[w + 1]), o.Success?, o.Irrecoverable? || o.UserConfiguration?, g)
  {
    hide Takes, Says;
    assert Takes(states[w], ids[w], steps[w], states[w + 1]);
    WriterRuns(states[w], id, states[w + 1]);
    ReportingAt(states, ids, steps, id, a, c, w, v, g);
    ReportingStep(states[w], id, Write, states[w + 1], steps[c], v, g);
  }

  lemma WriterRuns(s: State, id: int, s': State)
    requires Takes(s, id, Write, s')
    ensures id in s.running
  {
  }

  /** And when it ends without a write, the version that it fetched already said so. */
  lemma SilentWhenSaid(states: seq<State>, ids: seq<int>, steps: seq<Step>, id: int,
                       a: nat, c: nat, w: nat, v: nat, g: int, o: Outcome)
    requires LabelledRun(states, ids, steps) && Since(ids, steps, id, a, w, v, g) && a < c < w < |ids|
    requires ids[c] == id && steps[c] == SetDegraded(o) && ids[w] == id && steps[w] == SetReady
    requires id !in states[w + 1].running
    ensures v < |states[w].stored| && Says(states[w].stored[v], o.Success?, o.Irrecoverable? || o.UserConfiguration?, g)
  {
    hide Takes, Says;
    assert Takes(states[w], ids[w], steps[w], states[w + 1]);
    if id !in states[w].running {
      OnlyFetchStarts(states[w], id, steps[w], states[w + 1]);
    } else {
      ReportingAt(states, ids, steps, id, a, c, w, v, g);
      ReportingStep(states[w], id, SetReady, states[w + 1], steps[c], v, g);
    }
  }

  /** Likewise for the annotator: what it writes says whether annotating failed. */
  lemma WritesItsAnnotation(states: seq<State>, ids: seq<int>, steps: seq<Step>, id: int,
                            a: nat, c: nat, w: nat, v: nat, g: int, failed: bool, message: string)
    requires LabelledRun(states, ids, steps) && Since(ids, steps, id, a, w, v, g) && a < c < w < |ids|
    requires ids[c] == id && steps[c] == SetAnnotation(failed, message) && ids[w] == id && steps[w] == Write
    ensures |states[w + 1].stored| == |states[w].stored| + 1
    ensures SaysAnnotated(Latest(states[w + 1]), failed, g)
  {
    hide Takes, SaysAnnotated;
    assert Takes(states[w], ids[w], steps[w], states[w + 1]);
    WriterRuns(states[w], id, states[w + 1]);
    ReportingAt(states, ids, steps, id, a, c, w, v, g);
    ReportingStep(states[w], id, Write, states[w + 1], steps[c], v, g);
  }

  /** No reconcile is ever stuck: any stored version can be fetched, any outcome or annotation result
      reported, and what is due written. */
  lemma NeverStuck(s: State, id: int, v: nat, g: int, o: Outcome, failed: bool, message: string)
    ensures id !in s.running && v < |s.stored| ==> exists s' :: Takes(s, id, Fetch(v, g), s')
    ensures id in s.running && s.running[id].Fetched? ==> exists s' :: Takes(s, id, SetDegraded(o), s')
    ensures id in s.running && s.running[id].Fetched? ==> exists s' :: Takes(s, id, SetAnnotation(failed, message), s')
    ensures id in s.running && s.running[id].DegradedSet? ==> exists s' :: Takes(s, id, SetReady, s')
    ensures id in s.running && s.running[id].Due? ==> exists s' :: Takes(s, id, Write, s')
  {
    hide Set, DegradedFor, ReadyFor, AnnotationFor;
    if id !in s.running {
      if v < |s.stored| {
        assert Takes(s, id, Fetch(v, g), Keep(s, id, Fetched(s.stored[v], v, g)));
      }
    } else {
      match s.running[id] {
        case Fetched(copy, w, h) =>
          var cs := Set(copy.conditions, DegradedFor(o, h));
          assert Takes(s, id, SetDegraded(o), Keep(s, id, DegradedSet(copy.(conditions := cs), w, h, o, cs != copy.conditions)));
          var ds := Set(copy.conditions, AnnotationFor(failed, message, h));
          assert Takes(s, id, SetAnnotation(failed, message),
                       if ds != copy.conditions then Keep(s, id, Due(copy.(conditions := ds), w, false)) else Drop(s, id));
        case DegradedSet(copy, w, h, p, changed) =>
          var cs := Set(copy.conditions, ReadyFor(p, h));
          assert Takes(s, id, SetReady,
                       if changed || cs != copy.conditions then Keep(s, id, Due(copy.(conditions := cs), w, true)) else Drop(s, id));
        case Due(copy, _, _) =>
          assert Takes(s, id, Write, Store(Drop(s, id), copy));
      }
    }
  }

  lemma RunExtends(states: seq<State>, id: int, step: Step, s': State)
    requires Run(states) && Takes(states[|states| - 1], id, step, s')
    ensures Run(states + [s'])
  {
    hide Takes, Coherent;
    assert Next(states[|states| - 1], s');
    hide Next;
  }

  /** One reconcile from fetch to write, as a run of its own steps. */
  lemma RunSuccess(states: seq<State>, id: int, g: int) returns (longer: seq<State>)
    requires Run(states) && id !in states[|states| - 1].running
    requires states[|states| - 1].stored == [ConfigStatus([], "")]
    ensures Run(longer)
    ensures var s := longer[|longer| - 1];
      && s.running == states[|states| - 1].running && |s.stored| == 2
      && s.stored[1].conditions == [DegradedFor(Success, g), ReadyFor(Success, g)]
  {
    hide DegradedFor, ReadyFor;
    var empty := ConfigStatus([], "");
    var d, r := DegradedFor(Success, g), ReadyFor(Success, g);
    var s0 := states[|states| - 1];
    hide Run;
    var s1 := Keep(s0, id, Fetched(empty, 0, g));
    RunExtends(states, id, Fetch(0, g), s1);
    var s2 := Keep(s1, id, DegradedSet(empty.(conditions := [d]), 0, g, Success, true));
    RunExtends(states + [s1], id, SetDegraded(Success), s2);
    DifferentKinds(g);
    assert Set([d], r) == [d, r];
    var s3 := Keep(s2, id, Due(empty.(conditions := [d, r]), 0, true));
    RunExtends(states + [s1] + [s2], id, SetReady, s3);
    var s4 := Store(Drop(s3, id), empty.(conditions := [d, r]));
    RunExtends(states + [s1] + [s2] + [s3], id, Write, s4);
    longer := states + [s1] + [s2] + [s3] + [s4];
  }

  lemma DifferentKinds(g: int)
    ensures DegradedFor(Success, g).kind != ReadyFor(Success, g).kind
  {
  }

  /** Such a step exists: a condition once stored may be lost again.  An annotator
      that copied the empty status before the first reconcile finished writes Ready away. */
  lemma StaleCopyErasesReady(g: int) returns (states: seq<State>)
    ensures Run(states)
    ensures var stored := states[|states| - 1].stored;
      |stored| == 3 && Find(stored[1].conditions, Ready).Some? && Find(stored[2].conditions, Ready).None?
  {
    var empty := ConfigStatus([], "");
    var s0 := State([empty], map[]);
    assert Run([s0]);
    hide Run;
    var s1 := Keep(s0, 1, Fetched(empty, 0, g));
    RunExtends([s0], 1, Fetch(0, g), s1);
    states := RunSuccess([s0] + [s1], 2, g);
    var s2 := states[|states| - 1];
    var c := AnnotationFor(false, "done", g);
    var s3 := Keep(s2, 1, Due(empty.(conditions := [c]), 0, false));
    RunExtends(states, 1, SetAnnotation(false, "done"), s3);
    var s4 := Store(Drop(s3, 1), empty.(conditions := [c]));
    RunExtends(states + [s3], 1, Write, s4);
    states := states + [s3] + [s4];
    var d, r := DegradedFor(Success, g), ReadyFor(Success, g);
    assert [d, r][1..] == [r];
    assert Find([d, r], Ready) == Some(r);
  }
}
