/** `Now`, a once-gate that can be reset: double-checked locking with a mutex and an atomic flag.
    Any number of threads call Do and Reset; every atomic action is one step, and the log of the
    actions is the history over which the guarantees are stated. */
module Once {
  import opened Text

  /** Thread identities; there is no bound on how many there are. */
  type Thread = int

  /** Where a thread stands.  `DoReturn(d)` remembers the log position of the load that decided
      that the call returns without running f again. */
  datatype Pc =
    | Idle
    | DoFirstLoad
    | DoLock
    | DoSecondLoad
    | DoRun(d: nat)
    | DoInF(d: nat)
    | DoStore(d: nat)
    | DoUnlock(d: nat)
    | DoReturn(d: nat)
    | ResetLock
    | ResetStore
    | ResetUnlock
    | ResetReturn

  /** `Load(t, ran)`: a load of the flag by thread t, with the value it saw. */
  datatype Event =
    | Call(t: Thread)
    | Load(t: Thread, ran: bool)
    | Begin(t: Thread)
    | End(t: Thread)
    | Return(t: Thread, decided: nat)
    | ResetCall(t: Thread)
    | Cleared(t: Thread)
    | ResetDone(t: Thread)

  datatype State = State(done: bool, lock: Option<Thread>, pc: map<Thread, Pc>, log: seq<Event>)

  function At(s: State, t: Thread): Pc {
    if t in s.pc then s.pc[t] else Idle
  }

  function Goto(s: State, t: Thread, pc: Pc): State {
    s.(pc := s.pc[t := pc])
  }

  function Record(s: State, e: Event): State {
    s.(log := s.log + [e])
  }

  predicate Init(s: State) {
    !s.done && s.lock == None && s.log == [] && forall t :: t in s.pc ==> s.pc[t] == Idle
  }

  /** One atomic action of thread t.  Deferred calls run in reverse order, so Do stores the flag
      before it releases the mutex, also when f panics. */
  ghost predicate Step(s: State, t: Thread, s': State) {
    match At(s, t)
    case Idle =>
      || s' == Record(Goto(s, t, DoFirstLoad), Call(t))
      || s' == Record(Goto(s, t, ResetLock), ResetCall(t))
    case DoFirstLoad =>
      s' == Record(Goto(s, t, if s.done then DoReturn(|s.log|) else DoLock), Load(t, s.done))
    case DoLock =>
      s.lock == None && s' == Goto(s, t, DoSecondLoad).(lock := Some(t))
    case DoSecondLoad =>
      s' == Record(Goto(s, t, if s.done then DoUnlock(|s.log|) else DoRun(|s.log|)), Load(t, s.done))
    case DoRun(d) => s' == Record(Goto(s, t, DoInF(d)), Begin(t))
    case DoInF(d) => s' == Record(Goto(s, t, DoStore(d)), End(t))
    case DoStore(d) => s' == Goto(s, t, DoUnlock(d)).(done := true)
    case DoUnlock(d) => s' == Goto(s, t, DoReturn(d)).(lock := None)
    case DoReturn(d) => s' == Record(Goto(s, t, Idle), Return(t, d))
    case ResetLock =>
      s.lock == None && s' == Goto(s, t, ResetStore).(lock := Some(t))
    case ResetStore => s' == Record(Goto(s, t, ResetUnlock), Cleared(t)).(done := false)
    case ResetUnlock => s' == Goto(s, t, ResetReturn).(lock := None)
    case ResetReturn => s' == Record(Goto(s, t, Idle), ResetDone(t))
  }

  ghost predicate Next(s: State, s': State) {
    exists t: Thread :: Step(s, t, s')
  }

  /** A run: a start state followed by atomic actions of any threads. */
  ghost predicate Run(states: seq<State>) {
    && states != []
    && Init(states[0])
    && forall i :: 0 < i < |states| ==> Next(states[i - 1], states[i])
  }

  // ---------- what a log says ----------

  function Last(log: seq<Event>): Event
    requires log != []
  {
    log[|log| - 1]
  }

  function Before(log: seq<Event>): seq<Event>
    requires log != []
  {
    log[..|log| - 1]
  }

  /** The thread that is inside f after `log`. */
  function Inside(log: seq<Event>): Option<Thread> {
    if log == [] then None
    else if Last(log).Begin? then Some(Last(log).t)
    else if Last(log).End? then None
    else Inside(Before(log))
  }

  /** No run of f began since the last reset. */
  predicate Fresh(log: seq<Event>) {
    log == [] || Last(log).Cleared? || (!Last(log).Begin? && Fresh(Before(log)))
  }

  /** A run of f completed since the last reset. */
  predicate Completed(log: seq<Event>) {
    log != [] && !Last(log).Cleared? && (Last(log).End? || Completed(Before(log)))
  }

  /** Load d belongs to the current call of thread t, and by the end of the log a run of f has
      completed after the latest reset that precedes the load. */
  ghost predicate Observed(log: seq<Event>, t: Thread, d: nat) {
    && d < |log| && log[d].Load? && log[d].t == t
    && (forall k :: d < k < |log| ==> log[k] != Call(t))
    && (Completed(log[..d]) || RanItself(log, t, d))
  }

  /** Thread t began and ended a run of f after position d. */
  ghost predicate RanItself(log: seq<Event>, t: Thread, d: nat) {
    exists b, e :: d < b < e < |log| && log[b] == Begin(t) && log[e] == End(t)
  }

  ghost predicate BegunItself(log: seq<Event>, t: Thread, d: nat) {
    exists b :: d < b < |log| && log[b] == Begin(t)
  }

  /** The reset that thread t called at position c goes on. */
  ghost predicate ResetSince(log: seq<Event>, t: Thread, c: nat) {
    && c < |log| && log[c] == ResetCall(t)
    && forall k :: c < k < |log| ==> log[k] != ResetCall(t) && log[k] != ResetDone(t)
  }

  ghost predicate ResetBegun(log: seq<Event>, t: Thread) {
    exists c :: ResetSince(log, t, c)
  }

  /** And it has cleared the flag. */
  ghost predicate ResetCleared(log: seq<Event>, t: Thread) {
    exists c: nat, k: nat :: ResetSince(log, t, c) && c < k < |log| && log[k] == Cleared(t)
  }

  /** The log keeps the promise of `Now` at every event: f is entered only when nobody is in it
      and it has not run since the last reset, it is left by whoever entered it, a returning Do has
      observed a completed run, and a returning Reset has cleared the flag. */
  ghost predicate Legal(log: seq<Event>) {
    log == [] || (Legal(Before(log)) && MayFollow(Before(log), Last(log)))
  }

  ghost predicate MayFollow(log: seq<Event>, e: Event) {
    match e
    case Begin(_) => Inside(log) == None && Fresh(log)
    case End(t) => Inside(log) == Some(t)
    case Return(t, d) => Observed(log, t, d)
    case ResetDone(t) => ResetCleared(log, t)
    case _ => true
  }

  // ---------- the invariant ----------

  predicate InCritical(pc: Pc) {
    || pc == DoSecondLoad || pc.DoRun? || pc.DoInF? || pc.DoStore? || pc.DoUnlock?
    || pc == ResetStore || pc == ResetUnlock
  }

  /** Where the holder of the mutex stands. */
  function Holder(s: State): Pc {
    if s.lock.Some? then At(s, s.lock.value) else Idle
  }

  /** The flag and the holder together tell what the log says. */
  ghost predicate Agrees(s: State) {
    var h := Holder(s);
    && Inside(s.log) == (if h.DoInF? then s.lock else None)
    && (Completed(s.log) <==> s.done || h.DoStore?)
    && (Fresh(s.log) <==> !s.done && !h.DoInF? && !h.DoStore?)
    && (h.DoRun? || h.DoInF? || h.DoStore? ==> !s.done)
  }

  /** Load d belongs to the current call of thread t. */
  ghost predicate OwnLoad(log: seq<Event>, t: Thread, d: nat) {
    && d < |log| && log[d].Load? && log[d].t == t
    && (forall k :: d < k < |log| ==> log[k] != Call(t))
  }

  ghost predicate Pending(s: State, t: Thread) {
    match At(s, t)
    case DoRun(d) => OwnLoad(s.log, t, d)
    case DoInF(d) => OwnLoad(s.log, t, d) && BegunItself(s.log, t, d)
    case DoStore(d) => Observed(s.log, t, d)
    case DoUnlock(d) => Observed(s.log, t, d)
    case DoReturn(d) => Observed(s.log, t, d)
    case ResetLock => ResetBegun(s.log, t)
    case ResetStore => ResetBegun(s.log, t)
    case ResetUnlock => ResetCleared(s.log, t)
    case ResetReturn => ResetCleared(s.log, t)
    case _ => true
  }

  ghost predicate Inv(s: State) {
    && (forall t: Thread :: InCritical(At(s, t)) <==> s.lock == Some(t))
    && Agrees(s)
    && (forall t: Thread :: Pending(s, t))
    && Legal(s.log)
  }

  lemma InitInv(s: State)
    requires Init(s)
    ensures Inv(s)
  {
  }

  lemma StepMutex(s: State, t: Thread, s': State)
    requires Inv(s) && Step(s, t, s')
    ensures forall u: Thread :: InCritical(At(s', u)) <==> s'.lock == Some(u)
  {
    hide Agrees, Pending, Legal;
    assert forall u: Thread :: u != t ==> At(s', u) == At(s, u);
  }

  /** Appending an event keeps what a call has observed. */
  lemma ObservedGrows(log: seq<Event>, e: Event, t: Thread, d: nat)
    requires e != Call(t)
    ensures OwnLoad(log, t, d) ==> OwnLoad(log + [e], t, d)
    ensures Observed(log, t, d) ==> Observed(log + [e], t, d)
    ensures BegunItself(log, t, d) || (d < |log| && e == Begin(t)) ==> BegunItself(log + [e], t, d)
    ensures OwnLoad(log, t, d) && BegunItself(log, t, d) && e == End(t) ==> Observed(log + [e], t, d)
  {
    hide Completed;
    var log' := log + [e];
    if d < |log| {
      assert log'[..d] == log[..d];
    }
    assert log'[|log|] == e;
    forall k | 0 <= k < |log| ensures log'[k] == log[k] {}
    if RanItself(log, t, d) {
      var b, f :| d < b < f < |log| && log[b] == Begin(t) && log[f] == End(t);
      assert log'[b] == Begin(t) && log'[f] == End(t);
    }
    if BegunItself(log, t, d) {
      var b :| d < b < |log| && log[b] == Begin(t);
      assert log'[b] == Begin(t);
    }
  }

  /** Appending an event keeps how far a reset has come. */
  lemma ResetGrows(log: seq<Event>, e: Event, t: Thread)
    requires e != ResetCall(t) && e != ResetDone(t)
    ensures ResetBegun(log, t) ==> ResetBegun(log + [e], t)
    ensures ResetCleared(log, t) || (ResetBegun(log, t) && e == Cleared(t)) ==> ResetCleared(log + [e], t)
  {
    var log' := log + [e];
    assert log'[|log|] == e && forall k :: 0 <= k < |log| ==> log'[k] == log[k];
    if ResetBegun(log, t) {
      var c :| ResetSince(log, t, c);
      assert ResetSince(log', t, c);
    }
    if ResetCleared(log, t) {
      var c: nat, k: nat :| ResetSince(log, t, c) && c < k < |log| && log[k] == Cleared(t);
      assert ResetSince(log', t, c) && log'[k] == Cleared(t);
    }
  }

  lemma ResetBegins(log: seq<Event>, t: Thread)
    ensures ResetBegun(log + [ResetCall(t)], t)
  {
    assert ResetSince(log + [ResetCall(t)], t, |log|);
  }

  /** What a step of t leaves to another thread u: its place, and a log that grew by at most one
      event of t. */
  lemma StepShape(s: State, t: Thread, s': State, u: Thread)
    requires Step(s, t, s') && u != t
    ensures At(s', u) == At(s, u)
    ensures s'.log == s.log || exists e: Event :: s'.log == s.log + [e] && e.t == t
  {
  }

  /** A step of another thread. */
  lemma OtherPending(s: State, t: Thread, s': State, u: Thread)
    requires Pending(s, u) && Step(s, t, s') && u != t
    ensures Pending(s', u)
  {
    hide Step, Completed, Observed, OwnLoad, BegunItself, ResetBegun, ResetCleared;
    StepShape(s, t, s', u);
    if s'.log != s.log {
      var e: Event :| s'.log == s.log + [e] && e.t == t;
      forall d: nat
        ensures OwnLoad(s.log, u, d) ==> OwnLoad(s'.log, u, d)
        ensures Observed(s.log, u, d) ==> Observed(s'.log, u, d)
        ensures BegunItself(s.log, u, d) ==> BegunItself(s'.log, u, d)
      {
        ObservedGrows(s.log, e, u, d);
      }
      ResetGrows(s.log, e, u);
    }
  }

  lemma OwnPending(s: State, t: Thread, s': State)
    requires Inv(s) && Step(s, t, s')
    ensures Pending(s', t)
  {
    hide Legal, Inside, Fresh, Completed, Observed, OwnLoad, BegunItself, ResetBegun, ResetCleared;
    assert Pending(s, t);
    match At(s, t) {
      case Idle => ResetBegins(s.log, t);
      case DoFirstLoad => FreshLoad(s.log, t, s.done);
      case DoSecondLoad => FreshLoad(s.log, t, s.done);
      case DoRun(d) =>
        ObservedGrows(s.log, Begin(t), t, d);
        OwnLoadInside(s.log, t, d);
      case DoInF(d) => ObservedGrows(s.log, End(t), t, d);
      case ResetStore => ResetGrows(s.log, Cleared(t), t);
      case _ =>
    }
  }

  lemma OwnLoadInside(log: seq<Event>, t: Thread, d: nat)
    requires OwnLoad(log, t, d)
    ensures d < |log|
  {
  }

  lemma StepPending(s: State, t: Thread, s': State, u: Thread)
    requires Inv(s) && Step(s, t, s')
    ensures Pending(s', u)
  {
    hide Step;
    if u == t {
      OwnPending(s, t, s');
    } else {
      OtherPending(s, t, s', u);
    }
  }

  /** The load just recorded is the call's own, and it saw what the log says. */
  lemma FreshLoad(log: seq<Event>, t: Thread, ran: bool)
    ensures OwnLoad(log + [Load(t, ran)], t, |log|)
    ensures Completed(log) ==> Observed(log + [Load(t, ran)], t, |log|)
  {
    hide Completed;
    assert (log + [Load(t, ran)])[..|log|] == log;
  }

  lemma LogAfter(log: seq<Event>, e: Event)
    ensures Inside(log + [e]) == if e.Begin? then Some(e.t) else if e.End? then None else Inside(log)
    ensures Completed(log + [e]) == (!e.Cleared? && (e.End? || Completed(log)))
    ensures Fresh(log + [e]) == (e.Cleared? || (!e.Begin? && Fresh(log)))
  {
    assert Before(log + [e]) == log;
  }

  /** A thread outside the critical section that takes no lock does not move the holder. */
  lemma HolderKept(s: State, t: Thread, pc: Pc)
    requires (forall u: Thread :: InCritical(At(s, u)) <==> s.lock == Some(u)) && !InCritical(At(s, t))
    ensures Holder(Goto(s, t, pc)) == Holder(s)
  {
  }

  lemma StepAgrees(s: State, t: Thread, s': State)
    requires Inv(s) && Step(s, t, s')
    ensures Agrees(s')
  {
    hide Legal, Pending, Inside, Completed, Fresh;
    assert InCritical(At(s, t)) <==> s.lock == Some(t);
    if s'.log != s.log {
      LogAfter(s.log, Last(s'.log));
    }
    if !InCritical(At(s, t)) {
      HolderKept(s, t, At(s', t));
    }
  }

  lemma StepLegal(s: State, t: Thread, s': State)
    requires Inv(s) && Step(s, t, s')
    ensures Legal(s'.log)
  {
    hide Legal, Inside, Fresh, Completed, Observed, OwnLoad, BegunItself, ResetBegun, ResetCleared;
    if s'.log != s.log {
      var e := Last(s'.log);
      assert s'.log == s.log + [e];
      assert InCritical(At(s, t)) <==> s.lock == Some(t);
      assert MayFollow(s.log, e) by {
        assert Pending(s, t);
      }
      LegalAppend(s.log, e);
    }
  }

  lemma LegalAppend(log: seq<Event>, e: Event)
    requires Legal(log) && MayFollow(log, e)
    ensures Legal(log + [e])
  {
    hide MayFollow;
    assert Before(log + [e]) == log;
  }

  lemma StepInv(s: State, s': State)
    requires Inv(s) && Next(s, s')
    ensures Inv(s')
  {
    hide Agrees, Pending, Legal, Step;
    var t: Thread :| Step(s, t, s');
    StepMutex(s, t, s');
    StepAgrees(s, t, s');
    StepLegal(s, t, s');
    forall u: Thread ensures Pending(s', u) {
      StepPending(s, t, s', u);
    }
  }

  lemma {:induction false} RunInv(states: seq<State>)
    requires Run(states)
    ensures Inv(states[|states| - 1])
    decreases |states|
  {
    hide Inv, Next;
    var n := |states| - 1;
    if n == 0 {
      InitInv(states[0]);
    } else {
      RunInv(states[..n]);
      StepInv(states[n - 1], states[n]);
    }
  }

  // ---------- the guarantees, read off the log ----------

  /** Two runs of f never overlap: the earlier one has ended before the later one begins. */
  ghost predicate RunsDisjoint(log: seq<Event>) {
    forall i, j :: 0 <= i < j < |log| && log[i].Begin? && log[j].Begin? ==>
      exists e :: i < e < j && log[e] == End(log[i].t)
  }

  /** Between two runs of f the gate was reset. */
  ghost predicate OncePerReset(log: seq<Event>) {
    forall i, j :: 0 <= i < j < |log| && log[i].Begin? && log[j].Begin? ==>
      exists c :: i < c < j && log[c].Cleared?
  }

  /** Before position r a run of f has completed, and no reset lies between that and load d. */
  ghost predicate RanSinceReset(log: seq<Event>, d: nat, r: nat) {
    exists e :: 0 <= e < r <= |log| && log[e].End? && forall c :: e < c < d && c < |log| ==> !log[c].Cleared?
  }

  /** A Do that returns has observed a run of f completed after the latest reset preceding its
      deciding load, and that load lies within the call. */
  ghost predicate ReturnsAfterRun(log: seq<Event>) {
    forall r :: 0 <= r < |log| && log[r].Return? ==>
      var t, d := log[r].t, log[r].decided;
      && d < r && log[d].Load? && log[d].t == t
      && (forall k :: d < k < r ==> log[k] != Call(t))
      && RanSinceReset(log, d, r)
  }

  /** A Reset that returned has cleared the flag between its call and its return. */
  ghost predicate ResetsClear(log: seq<Event>) {
    forall r :: 0 <= r < |log| && log[r].ResetDone? ==> ClearedWithin(log, r)
  }

  ghost predicate ClearedWithin(log: seq<Event>, r: nat)
    requires r < |log|
  {
    exists c: nat, k: nat :: c < k < r && IsReset(log, c, r) && log[k] == Cleared(log[r].t)
  }

  /** The Reset that returns at position r was called at position c. */
  ghost predicate IsReset(log: seq<Event>, c: nat, r: nat) {
    && c < r < |log| && log[r].ResetDone? && log[c] == ResetCall(log[r].t)
    && forall k :: c < k < r ==> log[k] != log[c] && log[k] != log[r]
  }

  /** A Do that returns, and between the call of some Reset that returned before its deciding load and
      that load no run of f completed, has run f itself after the load. */
  ghost predicate RunsAfterReset(log: seq<Event>) {
    forall r: nat, c: nat, q: nat :: DecidesAfter(log, r, c, q) ==> RanItself(log[..r], log[r].t, log[r].decided)
  }

  /** The Do that returns at r decided after the Reset from c to q, and no run of f completed since c. */
  ghost predicate DecidesAfter(log: seq<Event>, r: nat, c: nat, q: nat) {
    && r < |log| && log[r].Return? && IsReset(log, c, q) && q < log[r].decided <= r
    && forall e :: c < e < log[r].decided ==> !log[e].End?
  }

  lemma {:induction false} LegalPrefix(log: seq<Event>, n: nat)
    requires Legal(log) && n <= |log|
    ensures Legal(log[..n])
  {
    hide Inside, Fresh, Completed, Observed;
    if n == |log| {
      assert log[..n] == log;
    } else {
      LegalPrefix(Before(log), n);
      assert Before(log)[..n] == log[..n];
    }
  }

  /** A begun run is still going on, or it was ended by its own thread. */
  lemma {:induction false} BegunRun(log: seq<Event>, i: nat)
    requires Legal(log) && i < |log| && log[i].Begin?
    ensures Inside(log) == Some(log[i].t) || exists e :: i < e < |log| && log[e] == End(log[i].t)
  {
    hide Fresh, Observed;
    var n := |log| - 1;
    if i < n {
      BegunRun(Before(log), i);
      if e :| i < e < n && Before(log)[e] == End(log[i].t) {
        assert log[e] == End(log[i].t);
      } else if Last(log).End? {
        assert log[n] == End(log[i].t);
      }
    }
  }

  lemma {:induction false} FreshMeansReset(log: seq<Event>, i: nat)
    requires Fresh(log) && i < |log| && log[i].Begin?
    ensures exists c :: i < c < |log| && log[c].Cleared?
  {
    var n := |log| - 1;
    if Last(log).Cleared? {
      assert i < n && log[n].Cleared?;
    } else {
      FreshMeansReset(Before(log), i);
      var c :| i < c < n && Before(log)[c].Cleared?;
      assert log[c].Cleared?;
    }
  }

  ghost predicate NoResetAfter(log: seq<Event>, e: nat) {
    forall c :: e < c < |log| ==> !log[c].Cleared?
  }

  lemma {:induction false} CompletedMeansRan(log: seq<Event>)
    requires Completed(log)
    ensures exists e :: 0 <= e < |log| && log[e].End? && NoResetAfter(log, e)
  {
    var n := |log| - 1;
    if log[n].End? {
      assert NoResetAfter(log, n);
    } else {
      CompletedMeansRan(Before(log));
      var e :| 0 <= e < n && Before(log)[e].End? && NoResetAfter(Before(log), e);
      assert forall c :: 0 <= c < n ==> log[c] == Before(log)[c];
      assert log[e].End? && NoResetAfter(log, e);
    }
  }

  lemma LegalReturn(log: seq<Event>, r: nat)
    requires Legal(log) && r < |log| && log[r].Return?
    ensures var d := log[r].decided;
      && d < r && log[d].Load? && log[d].t == log[r].t
      && (forall k :: d < k < r ==> log[k] != Call(log[r].t))
      && RanSinceReset(log, d, r)
  {
    hide Completed, Fresh, Inside;
    var pre, t, d := log[..r], log[r].t, log[r].decided;
    LegalPrefix(log, r + 1);
    assert Before(log[..r + 1]) == pre;
    assert Observed(pre, t, d);
    assert forall k :: 0 <= k < r ==> log[k] == pre[k];
    if Completed(pre[..d]) {
      CompletedMeansRan(pre[..d]);
      var e :| 0 <= e < d && pre[..d][e].End? && NoResetAfter(pre[..d], e);
      assert forall c :: e < c < d ==> log[c] == pre[..d][c];
      assert log[e].End?;
    } else {
      var b, e :| d < b < e < r && pre[b] == Begin(t) && pre[e] == End(t);
      assert log[e].End?;
    }
  }

  lemma LegalReset(log: seq<Event>, r: nat)
    requires Legal(log) && r < |log| && log[r].ResetDone?
    ensures ClearedWithin(log, r)
  {
    hide Completed, Fresh, Inside, Observed;
    var pre, t := log[..r], log[r].t;
    LegalPrefix(log, r + 1);
    assert Before(log[..r + 1]) == pre && Last(log[..r + 1]) == log[r];
    var c: nat, k: nat :| ResetSince(pre, t, c) && c < k < r && pre[k] == Cleared(t);
    assert forall i :: 0 <= i < r ==> log[i] == pre[i];
    assert IsReset(log, c, r) && log[k] == Cleared(log[r].t);
  }

  /** After a clear without a completed run the gate is open. */
  lemma {:induction false} ClearedSince(log: seq<Event>, k: nat)
    requires k < |log| && log[k].Cleared? && forall e :: k < e < |log| ==> !log[e].End?
    ensures !Completed(log)
  {
    if k < |log| - 1 {
      ClearedSince(Before(log), k);
    }
  }

  lemma LegalReturnAfterReset(log: seq<Event>, r: nat, c: nat, q: nat)
    requires Legal(log) && DecidesAfter(log, r, c, q)
    ensures RanItself(log[..r], log[r].t, log[r].decided)
  {
    hide Completed, Fresh, Inside, Legal;
    var pre, d := log[..r], log[r].decided;
    LegalReset(log, q);
    var c': nat, k: nat :| c' < k < q && IsReset(log, c', q) && log[k] == Cleared(log[q].t);
    assert c' == c;
    LegalObserved(log, r);
    assert pre[..d] == log[..d];
    ClearedSince(log[..d], k);
  }

  lemma LegalObserved(log: seq<Event>, r: nat)
    requires Legal(log) && r < |log| && log[r].Return?
    ensures Observed(log[..r], log[r].t, log[r].decided)
  {
    hide Completed, Fresh, Inside, Observed, ResetCleared;
    LegalPrefix(log, r + 1);
    assert Before(log[..r + 1]) == log[..r] && Last(log[..r + 1]) == log[r];
  }

  lemma LegalBegins(log: seq<Event>, i: nat, j: nat)
    requires Legal(log) && i < j < |log| && log[i].Begin? && log[j].Begin?
    ensures exists e :: i < e < j && log[e] == End(log[i].t)
    ensures exists c :: i < c < j && log[c].Cleared?
  {
    hide Completed, Observed;
    var pre := log[..j];
    LegalPrefix(log, j);
    LegalPrefix(log, j + 1);
    assert Before(log[..j + 1]) == pre && Last(log[..j + 1]) == log[j];
    BegunRun(pre, i);
    FreshMeansReset(pre, i);
    var e :| i < e < j && pre[e] == End(pre[i].t);
    var c :| i < c < j && pre[c].Cleared?;
    assert log[e] == End(log[i].t) && log[c].Cleared?;
  }

  /** In every interleaving of any number of Do and Reset calls: runs of f never overlap, f runs
      at most once between consecutive resets, a Do that returns has observed a run of f completed
      after the latest reset preceding its deciding load, a Reset that returns has cleared the gate, and
      the first Do to decide after it runs f itself. */
  lemma NowGuarantee(states: seq<State>)
    requires Run(states)
    ensures var log := states[|states| - 1].log;
      RunsDisjoint(log) && OncePerReset(log) && ReturnsAfterRun(log) && ResetsClear(log) && RunsAfterReset(log)
  {
    hide Legal, RanSinceReset, RanItself, IsReset, ClearedWithin, Next;
    RunInv(states);
    var log := states[|states| - 1].log;
    forall i, j | 0 <= i < j < |log| && log[i].Begin? && log[j].Begin?
      ensures exists e :: i < e < j && log[e] == End(log[i].t)
      ensures exists c :: i < c < j && log[c].Cleared?
    {
      LegalBegins(log, i, j);
    }
    forall r | 0 <= r < |log| && log[r].Return? {
      LegalReturn(log, r);
    }
    forall r | 0 <= r < |log| && log[r].ResetDone? ensures ClearedWithin(log, r) {
      LegalReset(log, r);
    }
    forall r: nat, c: nat, q: nat | DecidesAfter(log, r, c, q)
      ensures RanItself(log[..r], log[r].t, log[r].decided)
    {
      LegalReturnAfterReset(log, r, c, q);
    }
  }

  // ---------- progress ----------

  predicate WaitsForLock(s: State, t: Thread) {
    (At(s, t) == DoLock || At(s, t) == ResetLock) && s.lock.Some?
  }

  /** No deadlock: in every reachable state a thread can take a step unless it waits for the mutex, and
      the holder of the mutex never waits; an idle thread can call Do as well as Reset. */
  lemma NeverStuck(states: seq<State>, t: Thread)
    requires Run(states)
    ensures var s := states[|states| - 1];
      && ((exists s' :: Step(s, t, s')) <==> !WaitsForLock(s, t))
      && (s.lock.Some? ==> !WaitsForLock(s, s.lock.value))
      && (At(s, t) == Idle ==> Step(s, t, Record(Goto(s, t, DoFirstLoad), Call(t))))
      && (At(s, t) == Idle ==> Step(s, t, Record(Goto(s, t, ResetLock), ResetCall(t))))
  {
    hide Legal, Agrees, Pending, Next;
    RunInv(states);
    var s := states[|states| - 1];
    assert s.lock.Some? ==> InCritical(At(s, s.lock.value));
    hide Run;
    if !WaitsForLock(s, t) {
      var s' := Moved(s, t);
    }
  }

  lemma Moved(s: State, t: Thread) returns (s': State)
    requires !WaitsForLock(s, t)
    ensures Step(s, t, s')
  {
    match At(s, t) {
      case Idle => s' := Record(Goto(s, t, DoFirstLoad), Call(t));
      case DoFirstLoad => s' := Record(Goto(s, t, if s.done then DoReturn(|s.log|) else DoLock), Load(t, s.done));
      case DoLock => s' := Goto(s, t, DoSecondLoad).(lock := Some(t));
      case DoSecondLoad => s' := Record(Goto(s, t, if s.done then DoUnlock(|s.log|) else DoRun(|s.log|)), Load(t, s.done));
      case DoRun(d) => s' := Record(Goto(s, t, DoInF(d)), Begin(t));
      case DoInF(d) => s' := Record(Goto(s, t, DoStore(d)), End(t));
      case DoStore(d) => s' := Goto(s, t, DoUnlock(d)).(done := true);
      case DoUnlock(d) => s' := Goto(s, t, DoReturn(d)).(lock := None);
      case DoReturn(d) => s' := Record(Goto(s, t, Idle), Return(t, d));
      case ResetLock => s' := Goto(s, t, ResetStore).(lock := Some(t));
      case ResetStore => s' := Record(Goto(s, t, ResetUnlock), Cleared(t)).(done := false);
      case ResetUnlock => s' := Goto(s, t, ResetReturn).(lock := None);
      case ResetReturn => s' := Record(Goto(s, t, Idle), ResetDone(t));
    }
  }
}
