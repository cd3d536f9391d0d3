/** The mirror of ExternalSecretsConfig conditions into the status of ExternalSecretsManager.  The
    entry of a controller is handed out by pointer: into the list when it is there, but to a
    separate struct, whose copy was appended, when it is new. */
module Mirror {

  datatype Condition = Condition(kind: string, status: string, message: string)

  datatype Source = Source(kind: string, status: string, message: string, generation: int)

  datatype Entry = Entry(name: string, conditions: seq<Condition>, generation: int)

  /** Where the pointer returned by `getControllerCondition` points. */
  datatype Pointer = InList(i: nat) | Detached

  predicate Mirrors(c: Condition, s: Source) {
    c.kind == s.kind && c.status == s.status && c.message == s.message
  }

  // ---------- specification ----------

  /** The loop of `updateStatusCondition`: every condition of the kind takes status and message. */
  function Overwrite(cs: seq<Condition>, s: Source): (r: seq<Condition>)
    ensures |r| == |cs|
  {
    if cs == [] then []
    else [Taken(cs[0], s)] + Overwrite(cs[1..], s)
  }

  function Taken(c: Condition, s: Source): Condition {
    if c.kind == s.kind then Condition(s.kind, s.status, s.message) else c
  }

  predicate HasKind(cs: seq<Condition>, kind: string) {
    exists i :: 0 <= i < |cs| && cs[i].kind == kind
  }

  function Updated(cs: seq<Condition>, s: Source): seq<Condition> {
    if HasKind(cs, s.kind) then Overwrite(cs, s) else cs + [Condition(s.kind, s.status, s.message)]
  }

  function EntryIndex(es: seq<Entry>, name: string): (i: int)
    ensures -1 <= i < |es|
    ensures i >= 0 ==> es[i].name == name
    ensures forall j :: 0 <= j < (if i >= 0 then i else |es|) ==> es[j].name != name
  {
    if es == [] then -1
    else if es[0].name == name then 0
    else
      var j := EntryIndex(es[1..], name);
      if j == -1 then -1 else j + 1
  }

  /** The list of entries after one source condition: a missing entry is appended empty, and what
      is written through the pointer to the separate struct is lost. */
  function Mirrored(es: seq<Entry>, name: string, s: Source): seq<Entry> {
    var i := EntryIndex(es, name);
    if i == -1 then es + [Entry(name, [], 0)]
    else es[i := Entry(name, Updated(es[i].conditions, s), s.generation)]
  }

  /** Whether a source condition is reported as an update. */
  predicate Reports(es: seq<Entry>, name: string, s: Source) {
    var i := EntryIndex(es, name);
    i == -1 || Updated(es[i].conditions, s) != es[i].conditions
  }

  function MirroredAll(es: seq<Entry>, name: string, sources: seq<Source>): seq<Entry>
    decreases |sources|
  {
    if sources == [] then es else MirroredAll(Mirrored(es, name, sources[0]), name, sources[1..])
  }

  predicate ReportsAny(es: seq<Entry>, name: string, sources: seq<Source>)
    decreases |sources|
  {
    sources != [] && (Reports(es, name, sources[0]) || ReportsAny(Mirrored(es, name, sources[0]), name, sources[1..]))
  }

  /** A pass: the status is written back only when some condition was reported as updated. */
  function Pass(es: seq<Entry>, name: string, sources: seq<Source>): seq<Entry> {
    if ReportsAny(es, name, sources) then MirroredAll(es, name, sources) else es
  }

  // ---------- the controller ----------

  /** The loop over the conditions of an entry, and the append when none was found. */
  method UpdateConditions(before: seq<Condition>, s: Source) returns (cs: seq<Condition>, updated: bool)
    ensures cs == Updated(before, s)
    ensures updated == (Updated(before, s) != before)
  {
    cs := before;
    var found := false;
    updated := false;
    for i := 0 to |before|
      invariant |cs| == |before|
      invariant forall j :: 0 <= j < i ==> cs[j] == Taken(before[j], s)
      invariant forall j :: i <= j < |before| ==> cs[j] == before[j]
      invariant found <==> exists j :: 0 <= j < i && before[j].kind == s.kind
      invariant updated <==> cs != before
    {
      var c := cs[i];
      if c.kind == s.kind {
        found := true;
        if c.status != s.status || c.message != s.message {
          cs := cs[i := Condition(c.kind, s.status, s.message)];
          updated := true;
          assert cs[i] != before[i];
        }
      }
    }
    forall j | 0 <= j < |before| {
      OverwriteAt(before, s, j);
    }
    assert cs == Overwrite(before, s);
    if !found {
      cs := cs + [Condition(s.kind, s.status, s.message)];
      updated := true;
      assert forall j :: 0 <= j < |before| ==> cs[j] == before[j];
    }
  }

  lemma UpdatedIsNotEmpty(cs: seq<Condition>, s: Source)
    ensures Updated(cs, s) != []
  {
  }

  class Manager {
    var entries: seq<Entry>
    var stored: seq<Entry>

    constructor (stored: seq<Entry>)
      ensures this.stored == stored && this.entries == stored
    {
      this.stored, this.entries := stored, stored;
    }

    /** `getControllerCondition`. */
    method GetControllerCondition(name: string) returns (p: Pointer)
      modifies this`entries
      ensures EntryIndex(old(entries), name) == -1 ==> p == Detached && entries == old(entries) + [Entry(name, [], 0)]
      ensures EntryIndex(old(entries), name) >= 0 ==> p == InList(EntryIndex(old(entries), name)) && entries == old(entries)
    {
      for i := 0 to |entries|
        invariant forall j :: 0 <= j < i ==> entries[j].name != name
      {
        if entries[i].name == name {
          return InList(i);
        }
      }
      entries := entries + [Entry(name, [], 0)];
      return Detached;
    }

    /** `updateStatusCondition`: works on what the pointer denotes. */
    method UpdateStatusCondition(name: string, s: Source) returns (updated: bool)
      modifies this`entries
      ensures entries == Mirrored(old(entries), name, s)
      ensures updated == Reports(old(entries), name, s)
    {
      hide Updated;
      var p := GetControllerCondition(name);
      var cs := [];
      if p.InList? {
        cs, updated := UpdateConditions(entries[p.i].conditions, s);
        entries := entries[p.i := Entry(entries[p.i].name, cs, s.generation)];
      } else {
        cs, updated := UpdateConditions([], s);
        assert Updated([], s) != [] by {
          UpdatedIsNotEmpty([], s);
        }
      }
    }

    /** `processReconcileRequest`. */
    method Process(name: string, sources: seq<Source>) returns (written: bool)
      modifies this
      ensures stored == Pass(old(stored), name, sources)
      ensures written == ReportsAny(old(stored), name, sources)
    {
      entries := stored;
      written := false;
      assert sources[0..] == sources;
      for i := 0 to |sources|
        invariant stored == old(stored)
        invariant MirroredAll(stored, name, sources) == MirroredAll(entries, name, sources[i..])
        invariant ReportsAny(stored, name, sources) == (written || ReportsAny(entries, name, sources[i..]))
      {
        assert sources[i..][1..] == sources[i + 1..];
        var updated := UpdateStatusCondition(name, sources[i]);
        written := written || updated;
      }
      if written {
        stored := entries;
      }
    }
  }

  // ---------- convergence ----------

  predicate DistinctKinds(sources: seq<Source>) {
    forall i, j :: 0 <= i < j < |sources| ==> sources[i].kind != sources[j].kind
  }

  /** There is a condition of the source's kind, and every one of them equals it. */
  ghost predicate Shows(cs: seq<Condition>, s: Source) {
    HasKind(cs, s.kind) && forall i :: 0 <= i < |cs| && cs[i].kind == s.kind ==> Mirrors(cs[i], s)
  }

  ghost predicate ShowsAll(cs: seq<Condition>, sources: seq<Source>) {
    forall i :: 0 <= i < |sources| ==> Shows(cs, sources[i])
  }

  /** The controller has an entry, and it shows every source condition. */
  ghost predicate UpToDate(es: seq<Entry>, name: string, sources: seq<Source>) {
    EntryIndex(es, name) >= 0 && ShowsAll(es[EntryIndex(es, name)].conditions, sources)
  }

  lemma {:induction false} OverwriteAt(cs: seq<Condition>, s: Source, i: nat)
    requires i < |cs|
    ensures Overwrite(cs, s)[i] == Taken(cs[i], s)
  {
    if i > 0 {
      OverwriteAt(cs[1..], s, i - 1);
    }
  }

  lemma UpdatedShows(cs: seq<Condition>, s: Source)
    ensures Shows(Updated(cs, s), s)
    ensures Shows(cs, s) <==> Updated(cs, s) == cs
  {
    forall i | 0 <= i < |cs| {
      OverwriteAt(cs, s, i);
    }
    var r := Updated(cs, s);
    if HasKind(cs, s.kind) {
      var i :| 0 <= i < |cs| && cs[i].kind == s.kind;
      assert r[i].kind == s.kind;
    } else {
      assert r[|cs|].kind == s.kind;
    }
    if Shows(cs, s) {
      assert forall i :: 0 <= i < |cs| ==> r[i] == cs[i];
    }
  }

  lemma UpdatedKeepsOthers(cs: seq<Condition>, s: Source, t: Source)
    requires s.kind != t.kind
    ensures Shows(Updated(cs, s), t) <==> Shows(cs, t)
  {
    forall i | 0 <= i < |cs| {
      OverwriteAt(cs, s, i);
    }
    var r := Updated(cs, s);
    assert forall i :: 0 <= i < |cs| ==> (r[i].kind == t.kind <==> cs[i].kind == t.kind);
    assert forall i :: 0 <= i < |cs| && cs[i].kind == t.kind ==> r[i] == cs[i];
  }

  /** The conditions of an entry after all source conditions. */
  function UpdatedAll(cs: seq<Condition>, sources: seq<Source>): seq<Condition>
    decreases |sources|
  {
    if sources == [] then cs else UpdatedAll(Updated(cs, sources[0]), sources[1..])
  }

  lemma {:induction false} UpdatedAllKeepsOthers(cs: seq<Condition>, sources: seq<Source>, t: Source)
    requires forall i :: 0 <= i < |sources| ==> sources[i].kind != t.kind
    ensures Shows(UpdatedAll(cs, sources), t) <==> Shows(cs, t)
    decreases |sources|
  {
    hide Shows, Updated;
    if sources != [] {
      UpdatedKeepsOthers(cs, sources[0], t);
      UpdatedAllKeepsOthers(Updated(cs, sources[0]), sources[1..], t);
    }
  }

  lemma {:induction false} UpdatedAllShows(cs: seq<Condition>, sources: seq<Source>, i: nat)
    requires DistinctKinds(sources) && i < |sources|
    ensures Shows(UpdatedAll(cs, sources), sources[i])
    decreases |sources|
  {
    hide Shows, Updated;
    var next := Updated(cs, sources[0]);
    if i == 0 {
      UpdatedShows(cs, sources[0]);
      UpdatedAllKeepsOthers(next, sources[1..], sources[0]);
    } else {
      UpdatedAllShows(next, sources[1..], i - 1);
    }
  }

  /** With an entry in the list, a pass updates its conditions and reports exactly whether some
      source condition was not shown. */
  lemma {:induction false} MirrorExisting(es: seq<Entry>, name: string, sources: seq<Source>)
    requires EntryIndex(es, name) >= 0 && DistinctKinds(sources)
    ensures var i := EntryIndex(es, name);
      && EntryIndex(MirroredAll(es, name, sources), name) == i
      && MirroredAll(es, name, sources)[i].conditions == UpdatedAll(es[i].conditions, sources)
      && (ReportsAny(es, name, sources) <==> !ShowsAll(es[i].conditions, sources))
    decreases |sources|
  {
    hide Shows, Updated;
    var i := EntryIndex(es, name);
    if sources != [] {
      var s := sources[0];
      var next := Mirrored(es, name, s);
      EntryStays(es, name, next[i]);
      MirrorExisting(next, name, sources[1..]);
      UpdatedShows(es[i].conditions, s);
      forall j | 0 <= j < |sources[1..]|
        ensures Shows(next[i].conditions, sources[1..][j]) <==> Shows(es[i].conditions, sources[j + 1])
      {
        UpdatedKeepsOthers(es[i].conditions, s, sources[j + 1]);
      }
      ShowsAllCons(es[i].conditions, next[i].conditions, sources);
    }
  }

  lemma ShowsAllCons(cs: seq<Condition>, cs': seq<Condition>, sources: seq<Source>)
    requires sources != []
    requires forall j :: 0 <= j < |sources[1..]| ==> (Shows(cs', sources[1..][j]) <==> Shows(cs, sources[j + 1]))
    ensures ShowsAll(cs, sources) <==> Shows(cs, sources[0]) && ShowsAll(cs', sources[1..])
  {
    hide Shows;
    if Shows(cs, sources[0]) && ShowsAll(cs', sources[1..]) {
      forall i | 0 <= i < |sources| ensures Shows(cs, sources[i]) {
        if i > 0 {
          assert Shows(cs', sources[1..][i - 1]);
        }
      }
    }
  }

  lemma {:induction false} EntryStays(es: seq<Entry>, name: string, e: Entry)
    requires EntryIndex(es, name) >= 0 && e.name == name
    ensures EntryIndex(es[EntryIndex(es, name) := e], name) == EntryIndex(es, name)
  {
    var i := EntryIndex(es, name);
    if i > 0 {
      EntryStays(es[1..], name, e);
      assert es[i := e][1..] == es[1..][i - 1 := e];
    }
  }

  lemma {:induction false} EntryAppended(es: seq<Entry>, e: Entry)
    requires EntryIndex(es, e.name) == -1
    ensures EntryIndex(es + [e], e.name) == |es|
  {
    if es != [] {
      EntryAppended(es[1..], e);
      assert (es + [e])[1..] == es[1..] + [e];
    }
  }

  /** One pass from a list with the controller's entry shows everything, and the next reports nothing. */
  lemma PassWithEntry(es: seq<Entry>, name: string, sources: seq<Source>)
    requires EntryIndex(es, name) >= 0 && DistinctKinds(sources)
    ensures UpToDate(Pass(es, name, sources), name, sources)
    ensures !ReportsAny(Pass(es, name, sources), name, sources)
  {
    hide Shows, MirroredAll, ReportsAny, UpdatedAll;
    MirrorExisting(es, name, sources);
    forall i | 0 <= i < |sources| {
      UpdatedAllShows(es[EntryIndex(es, name)].conditions, sources, i);
    }
    MirrorExisting(Pass(es, name, sources), name, sources);
  }

  /** The first pass without an entry appends one, and loses the first source condition. */
  lemma PassWithoutEntry(es: seq<Entry>, name: string, sources: seq<Source>)
    requires EntryIndex(es, name) == -1 && DistinctKinds(sources) && sources != []
    ensures EntryIndex(Pass(es, name, sources), name) >= 0
    ensures !UpToDate(Pass(es, name, sources), name, sources)
  {
    hide Shows, Updated;
    var next := Mirrored(es, name, sources[0]);
    EntryAppended(es, Entry(name, [], 0));
    MirrorExisting(next, name, sources[1..]);
    UpdatedAllKeepsOthers([], sources[1..], sources[0]);
    NothingShown(sources[0]);
  }

  lemma NothingShown(s: Source)
    ensures !Shows([], s)
  {
  }

  /** From any status and source conditions with distinct types: two passes leave an entry that
      shows every source condition, the third reports no update, and one pass is enough exactly when
      the controller's entry was there before. */
  lemma MirrorConverges(es: seq<Entry>, name: string, sources: seq<Source>)
    requires DistinctKinds(sources) && sources != []
    ensures var once := Pass(es, name, sources);
      var twice := Pass(once, name, sources);
      && UpToDate(twice, name, sources) && !ReportsAny(twice, name, sources)
      && (UpToDate(once, name, sources) <==> EntryIndex(es, name) >= 0)
  {
    hide UpToDate, Pass, ReportsAny;
    var once := Pass(es, name, sources);
    if EntryIndex(es, name) >= 0 {
      PassWithEntry(es, name, sources);
      HasEntry(once, name, sources);
    } else {
      PassWithoutEntry(es, name, sources);
    }
    PassWithEntry(once, name, sources);
  }

  lemma HasEntry(es: seq<Entry>, name: string, sources: seq<Source>)
    requires UpToDate(es, name, sources)
    ensures EntryIndex(es, name) >= 0
  {
  }

  // ---------- what a pass leaves alone ----------

  /** The conditions of one kind, in order. */
  function OfKind(cs: seq<Condition>, kind: string): seq<Condition> {
    if cs == [] then [] else (if cs[0].kind == kind then [cs[0]] else []) + OfKind(cs[1..], kind)
  }

  lemma OfKindCons(c: Condition, cs: seq<Condition>, kind: string)
    ensures OfKind([c] + cs, kind) == (if c.kind == kind then [c] else []) + OfKind(cs, kind)
    ensures OfKind([], kind) == []
  {
    assert ([c] + cs)[1..] == cs;
  }

  lemma {:induction false} OfKindAppended(cs: seq<Condition>, c: Condition, kind: string)
    ensures OfKind(cs + [c], kind) == OfKind(cs, kind) + (if c.kind == kind then [c] else [])
  {
    hide OfKind;
    if cs == [] {
      assert [] + [c] == [c] + [];
      OfKindCons(c, [], kind);
    } else {
      var d, rest := cs[0], cs[1..];
      OfKindAppended(rest, c, kind);
      OfKindCons(d, rest, kind);
      OfKindCons(d, rest + [c], kind);
      assert cs == [d] + rest && cs + [c] == [d] + (rest + [c]);
    }
  }

  lemma {:induction false} OverwriteOthers(cs: seq<Condition>, s: Source, kind: string)
    requires kind != s.kind
    ensures OfKind(Overwrite(cs, s), kind) == OfKind(cs, kind)
  {
    if cs != [] {
      OverwriteOthers(cs[1..], s, kind);
      assert Overwrite(cs, s)[1..] == Overwrite(cs[1..], s);
    }
  }

  lemma UpdatedOthers(cs: seq<Condition>, s: Source, kind: string)
    requires kind != s.kind
    ensures OfKind(Updated(cs, s), kind) == OfKind(cs, kind)
  {
    OverwriteOthers(cs, s, kind);
    OfKindAppended(cs, Condition(s.kind, s.status, s.message), kind);
  }

  lemma {:induction false} UpdatedAllOthers(cs: seq<Condition>, sources: seq<Source>, kind: string)
    requires forall i :: 0 <= i < |sources| ==> sources[i].kind != kind
    ensures OfKind(UpdatedAll(cs, sources), kind) == OfKind(cs, kind)
    decreases |sources|
  {
    hide Updated, OfKind;
    if sources != [] {
      UpdatedOthers(cs, sources[0], kind);
      UpdatedAllOthers(Updated(cs, sources[0]), sources[1..], kind);
    }
  }

  /** A pass touches no entry of another controller, and in its own entry no condition of a kind that the
      source does not have; the observed generation is that of the last source condition if anything
      was reported, and stays otherwise, even when the source's has moved on. */
  lemma PassLeavesOthers(es: seq<Entry>, name: string, sources: seq<Source>, kind: string)
    requires EntryIndex(es, name) >= 0 && sources != []
    requires forall i :: 0 <= i < |sources| ==> sources[i].kind != kind
    ensures var i, after := EntryIndex(es, name), Pass(es, name, sources);
      && |after| == |es| && EntryIndex(after, name) == i
      && (forall j :: 0 <= j < |es| && j != i ==> after[j] == es[j])
      && OfKind(after[i].conditions, kind) == OfKind(es[i].conditions, kind)
      && after[i].generation ==
        if ReportsAny(es, name, sources) then sources[|sources| - 1].generation else es[i].generation
  {
    hide Updated, OfKind, ReportsAny, Shows;
    UpdatedAllOthers(es[EntryIndex(es, name)].conditions, sources, kind);
    MirroredEntry(es, name, sources);
  }

  lemma {:induction false} MirroredEntry(es: seq<Entry>, name: string, sources: seq<Source>)
    requires EntryIndex(es, name) >= 0
    ensures var i, after := EntryIndex(es, name), MirroredAll(es, name, sources);
      && |after| == |es| && EntryIndex(after, name) == i
      && (forall j :: 0 <= j < |es| && j != i ==> after[j] == es[j])
      && after[i].conditions == UpdatedAll(es[i].conditions, sources)
      && after[i].generation == if sources == [] then es[i].generation else sources[|sources| - 1].generation
    decreases |sources|
  {
    hide Updated;
    if sources != [] {
      var i, next := EntryIndex(es, name), Mirrored(es, name, sources[0]);
      EntryStays(es, name, next[i]);
      MirroredEntry(next, name, sources[1..]);
    }
  }
}
