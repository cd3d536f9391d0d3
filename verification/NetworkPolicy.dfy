/** The one-time removal of network policies that earlier operator versions created without a name
    prefix.  It may stop at any client call and is then run again by the next pass. */
module NetworkPolicy {
  import opened Text
  import opened Sorting

  const SystemPrefix := "eso-sys-"
  const UserPrefix := "eso-user-"
  const ProxyEgress := "eso-sys-allow-proxy-egress"

  /** listed: does the label selector of the cleanup, through the cache, return the policy. */
  datatype Policy = Policy(listed: bool, body: string)

  datatype State = State(policies: map<string, Policy>, marker: bool)

  /** A static policy manifest and whether it applies under the current configuration. */
  datatype Asset = Asset(name: string, enabled: bool)

  /** proxy: should the proxy egress policy exist. */
  datatype Config = Config(assets: seq<Asset>, users: seq<string>, proxy: bool)

  function TrimPrefix(s: string, prefix: string): string {
    if HasPrefix(s, prefix) then s[|prefix|..] else s
  }

  /** The names that the cleanup may delete. */
  function Legacy(c: Config): set<string> {
    (set a | a in c.assets && a.enabled :: TrimPrefix(a.name, SystemPrefix)) + (set u | u in c.users)
  }

  /** The names that the same pass applies before the cleanup. */
  function Applied(c: Config): set<string> {
    (set a | a in c.assets && a.enabled :: a.name) + (if c.proxy then {ProxyEgress} else {})
    + (set u | u in c.users :: UserPrefix + u)
  }

  /** The names that applying may create, change or remove: the egress policy goes when the proxy does. */
  function Touched(c: Config): set<string> {
    Applied(c) + {ProxyEgress}
  }

  method LegacyOperatorNetworkPolicyNames(c: Config) returns (legacy: set<string>)
    ensures legacy == Legacy(c)
  {
    legacy := {};
    for i := 0 to |c.assets|
      invariant legacy == set a | a in c.assets[..i] && a.enabled :: TrimPrefix(a.name, SystemPrefix)
    {
      assert c.assets[..i + 1] == c.assets[..i] + [c.assets[i]];
      if c.assets[i].enabled {
        legacy := legacy + {TrimPrefix(c.assets[i].name, SystemPrefix)};
      }
    }
    assert c.assets[..|c.assets|] == c.assets;
    ghost var system := legacy;
    for i := 0 to |c.users|
      invariant legacy == system + set u | u in c.users[..i]
    {
      assert c.users[..i + 1] == c.users[..i] + [c.users[i]];
      legacy := legacy + {c.users[i]};
    }
    assert c.users[..|c.users|] == c.users;
  }

  // ---------- the names cannot clash ----------

  /** What the manifests look like: the prefix, then a name that has none of the prefixes. */
  predicate PrefixedAssets(c: Config) {
    forall i :: 0 <= i < |c.assets| ==> HasPrefix(c.assets[i].name, SystemPrefix) && Plain(c.assets[i].name[8..])
  }

  predicate Plain(name: string) {
    !HasPrefix(name, SystemPrefix) && !HasPrefix(name, UserPrefix)
  }

  lemma TrimmedIsPlain(c: Config, i: nat)
    requires PrefixedAssets(c) && i < |c.assets|
    ensures Plain(TrimPrefix(c.assets[i].name, SystemPrefix)) && HasPrefix(c.assets[i].name, SystemPrefix)
  {
    assert |SystemPrefix| == 8;
  }

  lemma AppliedHasPrefix(c: Config, name: string)
    requires PrefixedAssets(c) && name in Touched(c)
    ensures !Plain(name)
  {
    if i :| 0 <= i < |c.assets| && name == c.assets[i].name {
      TrimmedIsPlain(c, i);
    } else if name == ProxyEgress {
      assert ProxyEgress[..8] == SystemPrefix;
    } else {
      var u :| u in c.users && name == UserPrefix + u;
      assert name[..9] == UserPrefix;
    }
  }

  /** The cleanup can name a policy that the same pass applies if and only if some user policy has
      the name of an applied one. */
  lemma ClashExact(c: Config)
    requires PrefixedAssets(c)
    ensures Legacy(c) !! Applied(c) <==> forall u :: u in c.users ==> u !in Applied(c)
  {
    hide Plain, TrimPrefix, Applied, PrefixedAssets;
    forall name | name in Applied(c) ensures !Plain(name) {
      AppliedHasPrefix(c, name);
    }
    forall a | a in c.assets ensures Plain(TrimPrefix(a.name, SystemPrefix)) {
      var i :| 0 <= i < |c.assets| && c.assets[i] == a;
      TrimmedIsPlain(c, i);
    }
    assert forall u :: u in c.users ==> u in Legacy(c);
  }

  /** Which no user policy without the two prefixes has, now or under a later configuration. */
  lemma PlainUsersNeverClash(c: Config, later: Config)
    requires PrefixedAssets(c) && PrefixedAssets(later) && forall u :: u in c.users ==> Plain(u)
    ensures Legacy(c) !! Touched(later)
  {
    hide Plain, TrimPrefix, PrefixedAssets, Touched;
    forall name | name in Touched(later) ensures !Plain(name) {
      AppliedHasPrefix(later, name);
    }
    forall a | a in c.assets ensures Plain(TrimPrefix(a.name, SystemPrefix)) {
      var i :| 0 <= i < |c.assets| && c.assets[i] == a;
      TrimmedIsPlain(c, i);
    }
  }

  // ---------- the cleanup ----------

  /** What a client call meets: it is served, refused, carried out with its reply lost, or finds that
      somebody else removed the object first. */
  datatype Reply = Served | Refused | Lost | Gone

  /** The delete loop goes on. */
  predicate GoesOn(r: Reply) {
    r.Served? || r.Gone?
  }

  /** The policies that the cleanup is for. */
  function Targets(policies: map<string, Policy>, legacy: set<string>): set<string> {
    set n | n in policies && policies[n].listed && n in legacy
  }

  /** One run of the cleanup: it removes some of its targets, and all of them if it sets the marker. */
  ghost predicate CleanupStep(s: State, s': State, legacy: set<string>) {
    && (s.marker ==> s' == s)
    && s'.policies.Keys <= s.policies.Keys
    && s.policies.Keys - s'.policies.Keys <= Targets(s.policies, legacy)
    && (forall n :: n in s'.policies ==> s'.policies[n] == s.policies[n])
    && (s'.marker && !s.marker ==> Targets(s'.policies, legacy) == {})
  }

  class Cluster {
    var policies: map<string, Policy>
    var marker: bool

    function Contents(): State
      reads this
    {
      State(policies, marker)
    }

    constructor (s: State)
      ensures Contents() == s
    {
      policies, marker := s.policies, s.marker;
    }

    /** `cleanupMigratedNetworkPolicies`.  `listing` is what the list call returns, `net` how the delete
        calls go, and `mark` how the patch of the marker goes; the run ends at the first error. */
    method Cleanup(c: Config, list: Reply, listing: seq<string>, net: nat -> Reply, mark: Reply) returns (ok: bool)
      requires NoRepeats(listing)
      requires forall n :: n in listing <==> n in policies && policies[n].listed
      modifies this
      ensures CleanupStep(old(Contents()), Contents(), Legacy(c))
      ensures ok ==> marker
      ensures !old(marker) ==> (ok <==> marker && mark.Served?)
      ensures !old(marker) ==> (marker <==>
        && list.Served? && (mark.Served? || mark.Lost?)
        && forall i :: 0 <= i < |listing| && listing[i] in Legacy(c) ==> GoesOn(net(i)))
    {
      hide Legacy;
      if marker {
        return true;
      }
      var legacy := LegacyOperatorNetworkPolicyNames(c);
      if !list.Served? {
        return false;
      }
      for i := 0 to |listing|
        invariant !marker
        invariant policies.Keys == old(policies).Keys - set n | n in listing[..i] && n in legacy
        invariant forall n :: n in policies ==> policies[n] == old(policies)[n]
        invariant forall k :: 0 <= k < i && listing[k] in legacy ==> GoesOn(net(k))
      {
        assert listing[..i + 1] == listing[..i] + [listing[i]];
        if listing[i] in legacy {
          if !net(i).Refused? {
            policies := policies - {listing[i]};
          }
          if !GoesOn(net(i)) {
            return false;
          }
        }
      }
      assert listing[..|listing|] == listing;
      marker := mark.Served? || mark.Lost?;
      return mark.Served?;
    }
  }

  // ---------- the policies that the same pass applied ----------

  /** What a completed apply leaves: every desired policy is there, with the operator's labels. */
  ghost predicate AllApplied(s: State, c: Config) {
    forall n :: n in Applied(c) ==> n in s.policies && s.policies[n].listed
  }

  /** When the cleanup completes, a policy just applied survives it if and only if its name is not on
      the list of legacy names. */
  lemma CompletedCleanupKeeps(s: State, s': State, c: Config, n: string)
    requires AllApplied(s, c) && CleanupStep(s, s', Legacy(c)) && !s.marker && s'.marker && n in Applied(c)
    ensures n in s'.policies <==> n !in Legacy(c)
  {
    hide Legacy, Applied;
    assert n in s.policies.Keys - s'.policies.Keys || n in s'.policies;
    assert n in s'.policies && n in Legacy(c) ==> n in Targets(s'.policies, Legacy(c));
  }

  /** A pass never deletes what it applied if and only if no user policy has the name of an applied
      one. */
  lemma AppliedSurvivesExact(c: Config)
    requires PrefixedAssets(c)
    ensures (forall s, s', n :: AllApplied(s, c) && CleanupStep(s, s', Legacy(c)) && n in Applied(c) ==> n in s'.policies)
      <==> forall u :: u in c.users ==> u !in Applied(c)
  {
    ClashExact(c);
    hide Legacy, Applied, PrefixedAssets;
    if Legacy(c) !! Applied(c) {
      forall s, s', n | AllApplied(s, c) && CleanupStep(s, s', Legacy(c)) && n in Applied(c) ensures n in s'.policies {
        assert n in s'.policies || n in s.policies.Keys - s'.policies.Keys;
      }
    } else {
      var n :| n in Legacy(c) && n in Applied(c);
      var s := State(map k | k in Applied(c) :: Policy(true, ""), false);
      var s' := State(s.policies - Legacy(c), true);
      assert CleanupStep(s, s', Legacy(c));
      assert AllApplied(s, c) && n !in s'.policies;
    }
  }

  /** Two user policies of which one is called like the other with the prefix: every cleanup that
      completes deletes a policy that the same pass applied. */
  lemma PrefixedUserIsDeleted(u: string, s: State, s': State)
    requires AllApplied(s, Config([], [u, UserPrefix + u], false)) && !s.marker && s'.marker
    requires CleanupStep(s, s', Legacy(Config([], [u, UserPrefix + u], false)))
    ensures UserPrefix + u in Applied(Config([], [u, UserPrefix + u], false)) && UserPrefix + u !in s'.policies
  {
    var c := Config([], [u, UserPrefix + u], false);
    assert c.users[0] == u && c.users[1] == UserPrefix + u;
    assert u in c.users && UserPrefix + u in c.users;
    CompletedCleanupKeeps(s, s', c, UserPrefix + u);
  }

  // ---------- passes that stop and start again ----------

  /** A pass applies the desired policies, possibly not all of them, and may then run the cleanup;
      the configuration may have been edited since the last pass. */
  datatype Move = Apply(c: Config) | Clean(c: Config)

  /** Applying changes nothing but the policies it is for. */
  ghost predicate ApplyStep(s: State, s': State, c: Config) {
    s'.marker == s.marker && forall n :: n !in Touched(c) ==> Get(s', n) == Get(s, n)
  }

  function Get(s: State, n: string): Option<Policy> {
    if n in s.policies then Some(s.policies[n]) else None
  }

  ghost predicate Takes(s: State, m: Move, s': State) {
    match m
    case Apply(c) => ApplyStep(s, s', c)
    case Clean(c) => CleanupStep(s, s', Legacy(c))
  }

  ghost predicate Run(states: seq<State>, moves: seq<Move>) {
    |states| == |moves| + 1 && forall i :: 0 <= i < |moves| ==> Takes(states[i], moves[i], states[i + 1])
  }

  /** No apply of the run is for this name. */
  ghost predicate Untouched(moves: seq<Move>, n: string) {
    forall i :: 0 <= i < |moves| && moves[i].Apply? ==> n !in Touched(moves[i].c)
  }

  /** Only listed policies with a legacy name are ever removed by the cleanup: any other policy, one
      that is not listed or that no configuration of the run names, stays as it is unless it is one
      of those that are applied. */
  lemma {:induction false} OthersSurvive(states: seq<State>, moves: seq<Move>, n: string, j: nat)
    requires Run(states, moves) && j < |states| && Untouched(moves, n) && n in states[0].policies
    requires !states[0].policies[n].listed || forall i :: 0 <= i < |moves| && moves[i].Clean? ==> n !in Legacy(moves[i].c)
    ensures Get(states[j], n) == Get(states[0], n)
  {
    hide Touched, Legacy;
    if j > 0 {
      OthersSurvive(states, moves, n, j - 1);
      var s, m, s' := states[j - 1], moves[j - 1], states[j - 1 + 1];
      assert Takes(s, m, s');
      if m.Clean? {
        assert n !in Targets(s.policies, Legacy(m.c));
        assert n in s'.policies || n in s.policies.Keys - s'.policies.Keys;
      }
    }
  }

  /** Once written the marker stays, and no later cleanup changes anything, whatever is applied and
      configured in between. */
  lemma {:induction false} MarkerEndsCleanup(states: seq<State>, moves: seq<Move>, i: nat, j: nat)
    requires Run(states, moves) && i <= j < |states| && states[i].marker
    ensures states[j].marker
    ensures j < |moves| && moves[j].Clean? ==> states[j + 1] == states[j]
    decreases j
  {
    hide Touched, Legacy;
    if j < |moves| {
      assert Takes(states[j], moves[j], states[j + 1]);
    }
    if i < j {
      MarkerEndsCleanup(states, moves, i, j - 1);
      assert Takes(states[j - 1], moves[j - 1], states[j - 1 + 1]);
    }
  }

  /** Move m writes the marker. */
  ghost predicate Marks(states: seq<State>, moves: seq<Move>, m: nat) {
    Run(states, moves) && m < |moves| && moves[m].Clean? && !states[m].marker && states[m + 1].marker
  }

  /** No later apply is for a legacy name of the configuration under which the marker was written; by
      `PlainIsApart` that is so when its user policies have neither prefix. */
  ghost predicate LaterApart(moves: seq<Move>, m: nat)
    requires m < |moves|
  {
    forall i :: m < i < |moves| && moves[i].Apply? ==> Legacy(moves[m].c) !! Touched(moves[i].c)
  }

  lemma PlainIsApart(moves: seq<Move>, m: nat)
    requires m < |moves| && (forall i :: 0 <= i < |moves| ==> PrefixedAssets(moves[i].c))
    requires forall u :: u in moves[m].c.users ==> Plain(u)
    ensures LaterApart(moves, m)
  {
    hide Legacy, Touched, PrefixedAssets, Plain;
    forall i | m < i < |moves| && moves[i].Apply? ensures Legacy(moves[m].c) !! Touched(moves[i].c) {
      PlainUsersNeverClash(moves[m].c, moves[i].c);
    }
  }

  /** From the moment the marker is written, none of the policies that the cleanup is for is left. */
  lemma {:induction false} NoneLeft(states: seq<State>, moves: seq<Move>, m: nat, j: nat)
    requires Marks(states, moves, m) && LaterApart(moves, m) && m < j < |states|
    ensures Targets(states[j].policies, Legacy(moves[m].c)) == {}
    decreases j
  {
    hide Touched, Legacy;
    var legacy := Legacy(moves[m].c);
    assert Takes(states[j - 1], moves[j - 1], states[j - 1 + 1]);
    if m + 1 < j {
      NoneLeft(states, moves, m, j - 1);
      MarkerEndsCleanup(states, moves, m + 1, j - 1);
      if moves[j - 1].Apply? {
        var s, s' := states[j - 1], states[j];
        forall n | n in legacy ensures Get(s', n) == Get(s, n) {
          assert n !in Touched(moves[j - 1].c);
        }
        assert Targets(s'.policies, legacy) <= Targets(s.policies, legacy);
      }
    }
  }

  /** Plainly: once the marker is written, no listed policy is left that bears the name of a user policy,
      or a name which with the prefix before it is that of an enabled static policy. */
  lemma OldNamesGone(states: seq<State>, moves: seq<Move>, m: nat, j: nat, name: string)
    requires Marks(states, moves, m) && LaterApart(moves, m) && m < j < |states|
    requires name in moves[m].c.users
      || exists i :: 0 <= i < |moves[m].c.assets| && moves[m].c.assets[i] == Asset("eso-sys-" + name, true)
    ensures name in states[j].policies ==> !states[j].policies[name].listed
  {
    NoneLeft(states, moves, m, j);
    OldNameIsLegacy(moves[m].c, name);
    hide Legacy;
    var policies, legacy := states[j].policies, Legacy(moves[m].c);
    assert name in policies && policies[name].listed ==> name in Targets(policies, legacy);
  }

  lemma OldNameIsLegacy(c: Config, name: string)
    requires name in c.users || exists i :: 0 <= i < |c.assets| && c.assets[i] == Asset("eso-sys-" + name, true)
    ensures name in Legacy(c)
  {
    if name !in c.users {
      var i :| 0 <= i < |c.assets| && c.assets[i] == Asset("eso-sys-" + name, true);
      var a := c.assets[i];
      assert a in c.assets && a.enabled && |SystemPrefix| == 8;
      assert a.name[..8] == SystemPrefix && a.name[8..] == name;
      assert TrimPrefix(a.name, SystemPrefix) == name;
    }
  }

  /** Up to the move that writes the marker, the legacy names only grow. */
  ghost predicate Growing(moves: seq<Move>, m: nat)
    requires m < |moves|
  {
    forall i :: 0 <= i < m && moves[i].Clean? ==> Legacy(moves[i].c) <= Legacy(moves[m].c)
  }

  lemma {:induction false} BeforeMarker(states: seq<State>, moves: seq<Move>, m: nat, n: string, j: nat)
    requires Marks(states, moves, m) && Growing(moves, m) && Untouched(moves, n) && j <= m + 1
    ensures n in states[j].policies ==> Get(states[j], n) == Get(states[0], n)
    ensures n in states[0].policies && n !in states[j].policies ==> n in Targets(states[0].policies, Legacy(moves[m].c))
  {
    hide Touched, Legacy;
    if j > 0 {
      BeforeMarker(states, moves, m, n, j - 1);
      var s, v, s' := states[j - 1], moves[j - 1], states[j - 1 + 1];
      assert Takes(s, v, s');
      if v.Clean? && n in s.policies && n !in s'.policies {
        assert n in s.policies.Keys - s'.policies.Keys;
      }
    }
  }

  /** However often passes stop and start again, whatever they apply and however the user list grows:
      once the marker is written, a policy that no pass applies is there if and only if it was there at
      the start and was not one of the listed policies with a legacy name; and it is as it was. */
  lemma RestartIsTransparent(states: seq<State>, moves: seq<Move>, m: nat, n: string, j: nat)
    requires Marks(states, moves, m) && Growing(moves, m) && Untouched(moves, n) && m < j < |states|
    ensures Get(states[j], n) ==
      if n in Targets(states[0].policies, Legacy(moves[m].c)) then None else Get(states[0], n)
  {
    hide Touched, Legacy, Growing;
    BeforeMarker(states, moves, m, n, m + 1);
    AfterMarker(states, moves, m, n, j);
    assert Takes(states[m], moves[m], states[m + 1]);
    var legacy := Legacy(moves[m].c);
    var before, after := states[0].policies, states[m + 1].policies;
    assert n in after && n in Targets(before, legacy) ==> n in Targets(after, legacy);
  }

  lemma {:induction false} AfterMarker(states: seq<State>, moves: seq<Move>, m: nat, n: string, j: nat)
    requires Marks(states, moves, m) && Untouched(moves, n) && m < j < |states|
    ensures Get(states[j], n) == Get(states[m + 1], n)
    decreases j
  {
    hide Touched, Legacy;
    if m + 1 < j {
      AfterMarker(states, moves, m, n, j - 1);
      MarkerEndsCleanup(states, moves, m + 1, j - 1);
      assert Takes(states[j - 1], moves[j - 1], states[j - 1 + 1]);
    }
  }
}
