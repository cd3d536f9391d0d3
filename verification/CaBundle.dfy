/** What every built core deployment satisfies: the user's CA volume, its mount and SSL_CERT_DIR come
    and go together, and every mount names a volume of the pod. */
module CaBundle {
  import opened Text
  import opened NamedLists
  import opened Proxy
  import opened Rewriting

  predicate HoldsVolume(d: Pod, name: string) {
    Holds(d.volumes, VolumeName, name)
  }

  predicate Mounts(c: Container, name: string) {
    Holds(c.mounts, MountName, name)
  }

  predicate SetsVar(c: Container, name: string) {
    Holds(c.env, EnvName, name)
  }

  /** Volume, mount on the core container and SSL_CERT_DIR are all there or all absent. */
  ghost predicate Coherent(d: Pod)
    requires CoreIndex(d) >= 0
  {
    var core := d.containers[CoreIndex(d)];
    HoldsVolume(d, UserVolume) == Mounts(core, UserVolume) == SetsVar(core, CertDir)
  }

  /** Same containers in the same places. */
  ghost predicate SameNames(cs: seq<Container>, cs': seq<Container>) {
    |cs| == |cs'| && forall i :: 0 <= i < |cs| ==> cs[i].name == cs'[i].name
  }

  lemma SameCore(d: Pod, d': Pod)
    requires SameNames(d.containers, d'.containers)
    ensures CoreIndex(d) == CoreIndex(d')
  {
    var i := CoreIndex(d);
    if i >= 0 {
      FirstIs(d'.containers, ContainerName, i);
    }
  }

  lemma ProxyLeavesMount(c: Container, p: ProxyConfig, name: string)
    requires name != ProxyVolume
    ensures Mounts(ProxiedOne(c, p), name) == Mounts(c, name) == Mounts(UnproxiedOne(c), name)
  {
    hide Holds, Drop, Upsert, MergedEnv;
    HoldsUpsert(c.mounts, MountName, TheProxyMount, name);
    HoldsDropped(c.mounts, MountName, {ProxyVolume}, name);
  }

  lemma ProxyLeavesVar(c: Container, p: ProxyConfig, name: string)
    requires name !in ProxyNames
    ensures Keep(ProxiedOne(c, p).env, EnvName, name) == Keep(c.env, EnvName, name) == Keep(UnproxiedOne(c).env, EnvName, name)
    ensures SetsVar(ProxiedOne(c, p), name) == SetsVar(c, name) == SetsVar(UnproxiedOne(c), name)
  {
    hide Holds, Keep, Drop, MergedEnv, Upsert;
    KeepExact(c.env, EnvName, name);
    KeepExact(ProxiedOne(c, p).env, EnvName, name);
    KeepExact(UnproxiedOne(c).env, EnvName, name);
    MergedEnvCarries(c.env, ProxyVars(p), name);
    KeepDropped(c.env, EnvName, ProxyNames, name);
  }

  /** The proxy step does not see the user's CA bundle. */
  lemma ProxyStep(d: Pod, proxy: Option<ProxyConfig>)
    ensures var d' := UpdatedProxy(d, proxy);
      && SameNames(d.containers, d'.containers) && |d.initContainers| == |d'.initContainers|
      && HoldsVolume(d', UserVolume) == HoldsVolume(d, UserVolume)
      && (forall i :: 0 <= i < |d.containers| ==>
        && Mounts(d'.containers[i], UserVolume) == Mounts(d.containers[i], UserVolume)
        && SetsVar(d'.containers[i], CertDir) == SetsVar(d.containers[i], CertDir)
        && Keep(d'.containers[i].env, EnvName, CertDir) == Keep(d.containers[i].env, EnvName, CertDir))
      && (forall i :: 0 <= i < |d.initContainers| ==>
        Mounts(d'.initContainers[i], UserVolume) == Mounts(d.initContainers[i], UserVolume))
  {
    hide Holds, Keep, Drop, Upsert, MergedEnv, Mounts, SetsVar;
    var p := if proxy.Some? then proxy.value else Empty;
    HoldsUpsert(d.volumes, VolumeName, TheProxyVolume, UserVolume);
    HoldsDropped(d.volumes, VolumeName, {ProxyVolume}, UserVolume);
    forall c: Container
      ensures Mounts(ProxiedOne(c, p), UserVolume) == Mounts(c, UserVolume) == Mounts(UnproxiedOne(c), UserVolume)
      ensures SetsVar(ProxiedOne(c, p), CertDir) == SetsVar(c, CertDir) == SetsVar(UnproxiedOne(c), CertDir)
      ensures Keep(ProxiedOne(c, p).env, EnvName, CertDir) == Keep(c.env, EnvName, CertDir)
        == Keep(UnproxiedOne(c).env, EnvName, CertDir)
    {
      ProxyLeavesMount(c, p, UserVolume);
      ProxyLeavesVar(c, p, CertDir);
    }
  }

  lemma {:induction false} UserEnvHolds(env: seq<EnvVar>, overrides: seq<EnvVar>, name: string)
    ensures Holds(UserEnv(env, overrides), EnvName, name) <==>
      Holds(env, EnvName, name) || Holds(overrides, EnvName, name)
    ensures !Holds(overrides, EnvName, name) ==>
      Keep(UserEnv(env, overrides), EnvName, name) == Keep(env, EnvName, name)
  {
    if overrides != [] {
      hide Upsert, Keep;
      var n := |overrides| - 1;
      var x := overrides[n];
      UserEnvHolds(env, overrides[..n], name);
      assert forall i :: 0 <= i < n ==> overrides[..n][i] == overrides[i];
      assert Holds(overrides, EnvName, name) <==> Holds(overrides[..n], EnvName, name) || x.name == name;
      HoldsUpsert(UserEnv(env, overrides[..n]), EnvName, x, name);
      if x.name != name {
        KeepUpsert(UserEnv(env, overrides[..n]), EnvName, x, name);
      }
    }
  }

  /** The user's variables touch SSL_CERT_DIR only when they name it. */
  lemma OverrideStep(d: Pod, overrides: seq<EnvVar>)
    requires CoreIndex(d) >= 0
    ensures var d', i := OverriddenEnv(d, overrides), CoreIndex(d);
      && SameNames(d.containers, d'.containers) && CoreIndex(d') == i
      && d' == d.(containers := d.containers[i := d.containers[i].(env := d'.containers[i].env)])
      && SetsVar(d'.containers[i], CertDir) == (SetsVar(d.containers[i], CertDir) || Holds(overrides, EnvName, CertDir))
      && (!Holds(overrides, EnvName, CertDir) ==>
        Keep(d'.containers[i].env, EnvName, CertDir) == Keep(d.containers[i].env, EnvName, CertDir))
  {
    hide Holds, Keep, UserEnv, First;
    UserEnvHolds(d.containers[CoreIndex(d)].env, overrides, CertDir);
    SameCore(d, OverriddenEnv(d, overrides));
  }

  /** After the user's CA bundle was looked at, all three signs say whether it was mounted. */
  lemma UserStep(d: Pod, verdict: Verdict)
    requires CoreIndex(d) >= 0 && !verdict.Failed?
    ensures var d', i := AppliedUserCa(d, verdict), CoreIndex(d);
      && SameNames(d.containers, d'.containers) && CoreIndex(d') == i
      && HoldsVolume(d', UserVolume) == verdict.Mounted?
      && Mounts(d'.containers[i], UserVolume) == verdict.Mounted?
      && SetsVar(d'.containers[i], CertDir) == verdict.Mounted?
      && Keep(d'.containers[i].env, EnvName, CertDir) == (if verdict.Mounted? then Once(CertDir, CertDirValue) else [])
      && d' == d.(volumes := d'.volumes, containers := d.containers[i := d'.containers[i]])
  {
    hide Holds, Keep, Drop, Upsert, MergedEnv, First;
    var d', i := AppliedUserCa(d, verdict), CoreIndex(d);
    var c := d.containers[i];
    SameCore(d, d');
    KeepExact(d'.containers[i].env, EnvName, CertDir);
    if verdict.Mounted? {
      var ref := verdict.reference;
      HoldsUpsert(d.volumes, VolumeName, ConfigMapVolume(ref.name, DataKey(ref), UserVolume, UserKeyPath), UserVolume);
      HoldsUpsert(c.mounts, MountName, TheUserMount, UserVolume);
      MergedEnvCarries(c.env, CertDirVars, CertDir);
    } else {
      HoldsDropped(d.volumes, VolumeName, {UserVolume}, UserVolume);
      HoldsDropped(c.mounts, MountName, {UserVolume}, UserVolume);
      KeepDropped(c.env, EnvName, {CertDir}, CertDir);
    }
  }

  /** Every core deployment that is built, with or without an error: the three signs agree exactly
      when the bundle is mounted, its ConfigMap is missing, or the user's variables do not name
      SSL_CERT_DIR; and they then say whether the bundle is mounted. */
  lemma CoreDeploymentIsCoherent(d: Pod, verdict: Verdict, overrides: seq<EnvVar>, proxy: Option<ProxyConfig>, later: bool)
    requires CoreIndex(d) >= 0 && !CoreOutcome(d, verdict, overrides, proxy, later).NotBuilt?
    ensures var r := CoreOutcome(d, verdict, overrides, proxy, later).pod;
      && CoreIndex(r) == CoreIndex(d)
      && (HoldsVolume(r, UserVolume) <==> verdict.Mounted?)
      && (Mounts(r.containers[CoreIndex(r)], UserVolume) <==> verdict.Mounted?)
      && (Coherent(r) <==> verdict.Mounted? || verdict.MissingConfigMap? || !Holds(overrides, EnvName, CertDir))
      && (verdict.Mounted? && !Holds(overrides, EnvName, CertDir) ==>
        Keep(r.containers[CoreIndex(r)].env, EnvName, CertDir) == [EnvVar(CertDir, CertDirValue, "")])
  {
    hide Holds, Keep, First, AppliedUserCa, OverriddenEnv, UpdatedProxy;
    UserStep(d, verdict);
    if !verdict.MissingConfigMap? {
      var a := AppliedUserCa(d, verdict);
      OverrideStep(a, overrides);
      var b := OverriddenEnv(a, overrides);
      ProxyStep(b, proxy);
      SameCore(b, UpdatedProxy(b, proxy));
    }
  }

  // ---------- every mount names a volume ----------

  ghost predicate ContainerResolves(c: Container, volumes: seq<Volume>) {
    forall name :: Mounts(c, name) ==> Holds(volumes, VolumeName, name)
  }

  ghost predicate AllResolve(cs: seq<Container>, volumes: seq<Volume>) {
    forall i :: 0 <= i < |cs| ==> ContainerResolves(cs[i], volumes)
  }

  ghost predicate Resolves(d: Pod) {
    AllResolve(d.containers, d.volumes) && AllResolve(d.initContainers, d.volumes)
  }

  /** Some container other than the core one mounts the user's CA volume. */
  ghost predicate OthersMount(d: Pod) {
    || (exists i :: 0 <= i < |d.containers| && i != CoreIndex(d) && Mounts(d.containers[i], UserVolume))
    || (exists i :: 0 <= i < |d.initContainers| && Mounts(d.initContainers[i], UserVolume))
  }

  lemma ProxyContainerResolves(c: Container, p: ProxyConfig, volumes: seq<Volume>)
    requires ContainerResolves(c, volumes)
    ensures ContainerResolves(ProxiedOne(c, p), Upsert(volumes, VolumeName, TheProxyVolume))
    ensures ContainerResolves(UnproxiedOne(c), Drop(volumes, VolumeName, {ProxyVolume}))
  {
    hide Holds, Drop, Upsert, MergedEnv;
    forall name
      ensures Mounts(ProxiedOne(c, p), name) ==> Holds(Upsert(volumes, VolumeName, TheProxyVolume), VolumeName, name)
      ensures Mounts(UnproxiedOne(c), name) ==> Holds(Drop(volumes, VolumeName, {ProxyVolume}), VolumeName, name)
    {
      HoldsUpsert(c.mounts, MountName, TheProxyMount, name);
      HoldsUpsert(volumes, VolumeName, TheProxyVolume, name);
      HoldsDropped(c.mounts, MountName, {ProxyVolume}, name);
      HoldsDropped(volumes, VolumeName, {ProxyVolume}, name);
    }
  }

  lemma ProxyResolves(d: Pod, proxy: Option<ProxyConfig>)
    requires Resolves(d)
    ensures Resolves(UpdatedProxy(d, proxy))
  {
    hide ContainerResolves, Drop, Upsert, ProxiedOne, UnproxiedOne;
    var p := if proxy.Some? then proxy.value else Empty;
    forall c: Container | ContainerResolves(c, d.volumes)
      ensures ContainerResolves(ProxiedOne(c, p), Upsert(d.volumes, VolumeName, TheProxyVolume))
      ensures ContainerResolves(UnproxiedOne(c), Drop(d.volumes, VolumeName, {ProxyVolume}))
    {
      ProxyContainerResolves(c, p, d.volumes);
    }
  }

  lemma MountedCoreResolves(c: Container, ref: CaReference, volumes: seq<Volume>)
    requires ContainerResolves(c, volumes)
    ensures var volume := ConfigMapVolume(ref.name, DataKey(ref), UserVolume, UserKeyPath);
      && ContainerResolves(WithUserCa(c), Upsert(volumes, VolumeName, volume))
      && ContainerResolves(c, Upsert(volumes, VolumeName, volume))
  {
    hide Holds, Upsert, MergedEnv;
    var volume := ConfigMapVolume(ref.name, DataKey(ref), UserVolume, UserKeyPath);
    forall name
      ensures Mounts(WithUserCa(c), name) ==> Holds(Upsert(volumes, VolumeName, volume), VolumeName, name)
      ensures Mounts(c, name) ==> Holds(Upsert(volumes, VolumeName, volume), VolumeName, name)
    {
      HoldsUpsert(c.mounts, MountName, TheUserMount, name);
      HoldsUpsert(volumes, VolumeName, volume, name);
    }
  }

  lemma UnmountedResolves(c: Container, volumes: seq<Volume>)
    requires ContainerResolves(c, volumes)
    ensures ContainerResolves(WithoutUserCa(c), Drop(volumes, VolumeName, {UserVolume}))
    ensures ContainerResolves(c, Drop(volumes, VolumeName, {UserVolume})) <==> !Mounts(c, UserVolume)
  {
    hide Holds, Drop;
    var left := Drop(volumes, VolumeName, {UserVolume});
    forall name
      ensures Mounts(WithoutUserCa(c), name) ==> Holds(left, VolumeName, name)
      ensures Holds(left, VolumeName, name) == (Holds(volumes, VolumeName, name) && name != UserVolume)
    {
      HoldsDropped(c.mounts, MountName, {UserVolume}, name);
      HoldsDropped(volumes, VolumeName, {UserVolume}, name);
    }
  }

  lemma UserResolves(d: Pod, verdict: Verdict)
    requires Resolves(d) && CoreIndex(d) >= 0 && !verdict.Failed?
    ensures verdict.Mounted? || !OthersMount(d) ==> Resolves(AppliedUserCa(d, verdict))
  {
    hide ContainerResolves, Drop, Upsert, WithUserCa, WithoutUserCa, Mounts, First;
    forall c: Container | ContainerResolves(c, d.volumes)
      ensures ContainerResolves(WithoutUserCa(c), Drop(d.volumes, VolumeName, {UserVolume}))
      ensures ContainerResolves(c, Drop(d.volumes, VolumeName, {UserVolume})) <==> !Mounts(c, UserVolume)
    {
      UnmountedResolves(c, d.volumes);
    }
    if verdict.Mounted? {
      var ref := verdict.reference;
      var volume := ConfigMapVolume(ref.name, DataKey(ref), UserVolume, UserKeyPath);
      forall c: Container | ContainerResolves(c, d.volumes)
        ensures ContainerResolves(WithUserCa(c), Upsert(d.volumes, VolumeName, volume))
        ensures ContainerResolves(c, Upsert(d.volumes, VolumeName, volume))
      {
        MountedCoreResolves(c, ref, d.volumes);
      }
    }
  }

  lemma OverrideResolves(d: Pod, overrides: seq<EnvVar>)
    requires Resolves(d)
    ensures Resolves(OverriddenEnv(d, overrides))
  {
    hide First, UserEnv, Holds;
    var d' := OverriddenEnv(d, overrides);
    forall i | 0 <= i < |d.containers| ensures ContainerResolves(d'.containers[i], d.volumes) {
      assert ContainerResolves(d.containers[i], d.volumes);
      assert d'.containers[i].mounts == d.containers[i].mounts;
    }
  }

  /** A container that still mounts the user's CA volume where the pod has none does not resolve. */
  lemma LeftBehind(d: Pod)
    requires OthersMount(d) && !HoldsVolume(d, UserVolume)
    ensures !Resolves(d)
  {
    hide Holds, First, Mounts;
    if exists i :: 0 <= i < |d.containers| && i != CoreIndex(d) && Mounts(d.containers[i], UserVolume) {
      var i :| 0 <= i < |d.containers| && i != CoreIndex(d) && Mounts(d.containers[i], UserVolume);
      assert !ContainerResolves(d.containers[i], d.volumes);
    } else {
      var i :| 0 <= i < |d.initContainers| && Mounts(d.initContainers[i], UserVolume);
      assert !ContainerResolves(d.initContainers[i], d.volumes);
    }
  }

  /** Given a manifest whose mounts resolve, every mount of a built core deployment names a volume of
      its pod, exactly when the bundle is mounted or no other container of the manifest mounts it. */
  lemma MountsResolve(d: Pod, verdict: Verdict, overrides: seq<EnvVar>, proxy: Option<ProxyConfig>, later: bool)
    requires CoreIndex(d) >= 0 && Resolves(d) && !CoreOutcome(d, verdict, overrides, proxy, later).NotBuilt?
    ensures Resolves(CoreOutcome(d, verdict, overrides, proxy, later).pod) <==> verdict.Mounted? || !OthersMount(d)
  {
    hide Resolves, AppliedUserCa, OverriddenEnv, UpdatedProxy, First, Mounts, Holds, SetsVar, Keep;
    UserStep(d, verdict);
    UserResolves(d, verdict);
    var a := AppliedUserCa(d, verdict);
    OverrideStep(a, overrides);
    var b := OverriddenEnv(a, overrides);
    ProxyStep(b, proxy);
    var r := UpdatedProxy(b, proxy);
    SameCore(b, r);
    if verdict.Mounted? || !OthersMount(d) {
      OverrideResolves(a, overrides);
      ProxyResolves(b, proxy);
    } else {
      OthersStay(d, a);
      OthersStay(a, b);
      OthersStay(b, r);
      LeftBehind(a);
      LeftBehind(r);
    }
  }

  lemma OthersStay(d: Pod, d': Pod)
    requires OthersMount(d)
    requires SameNames(d.containers, d'.containers) && |d.initContainers| == |d'.initContainers|
    requires forall i :: 0 <= i < |d.containers| && i != CoreIndex(d) ==>
      Mounts(d'.containers[i], UserVolume) == Mounts(d.containers[i], UserVolume)
    requires forall i :: 0 <= i < |d.initContainers| ==>
      Mounts(d'.initContainers[i], UserVolume) == Mounts(d.initContainers[i], UserVolume)
    ensures OthersMount(d')
  {
    hide Mounts;
    SameCore(d, d');
    hide First;
    if exists i :: 0 <= i < |d.containers| && i != CoreIndex(d) && Mounts(d.containers[i], UserVolume) {
      var i :| 0 <= i < |d.containers| && i != CoreIndex(d) && Mounts(d.containers[i], UserVolume);
      assert Mounts(d'.containers[i], UserVolume);
    } else {
      var i :| 0 <= i < |d.initContainers| && Mounts(d.initContainers[i], UserVolume);
      assert Mounts(d'.initContainers[i], UserVolume);
    }
  }

  // ---------- the inputs, plainly, and what the core container gets ----------

  /** The bundle is to be mounted: it is configured, its ConfigMap is there and could be labelled, the
      network operator does not already provide it for a proxy, and the key holds valid certificates. */
  ghost predicate WantsBundle(ref: Option<CaReference>, fetch: Fetch, proxy: Option<ProxyConfig>, validPem: string -> bool) {
    && ref.Some? && fetch.Found? && fetch.labelled && !(fetch.injected && ProxySet(proxy))
    && var key := BundleKey(ref.value);
    key in fetch.data && validPem(fetch.data[key])
  }

  function BundleKey(ref: CaReference): string {
    if ref.key == "" then "ca-bundle.crt" else ref.key
  }

  /** When each outcome is reached. */
  lemma VerdictExact(ref: Option<CaReference>, fetch: Fetch, proxy: Option<ProxyConfig>, validPem: string -> bool)
    ensures var v := CaVerdict(ref, fetch, ProxyEnabled(proxy), validPem);
      && (v.Mounted? <==> WantsBundle(ref, fetch, proxy, validPem))
      && (v.Mounted? ==> v.reference == ref.value)
      && (v.MissingConfigMap? <==> ref.Some? && fetch.Missing?)
      && (v.NotMounted? <==> ref.None? || (fetch.Found? && fetch.labelled && fetch.injected && ProxySet(proxy)))
  {
  }

  /** When a core deployment is built: always, except that a ConfigMap which cannot be fetched or labelled,
      or whose key is missing or invalid, stops it, as does an error of a later step; a ConfigMap that
      is missing altogether is reported beside the deployment. */
  lemma CoreBuiltExactly(d: Pod, ref: Option<CaReference>, fetch: Fetch, validPem: string -> bool, overrides: seq<EnvVar>,
                         proxy: Option<ProxyConfig>, later: bool)
    ensures var r := CoreOutcome(d, CaVerdict(ref, fetch, ProxyEnabled(proxy), validPem), overrides, proxy, later);
      var skipped := ref.None? || (fetch.Found? && fetch.labelled && fetch.injected && ProxySet(proxy));
      && (r.BuiltWithError? <==> ref.Some? && fetch.Missing?)
      && (r.Built? <==> !later && (skipped || WantsBundle(ref, fetch, proxy, validPem)))
  {
    hide CaVerdict, WantsBundle, UpdatedProxy, OverriddenEnv, AppliedUserCa;
    VerdictExact(ref, fetch, proxy, validPem);
  }

  /** The list, with x in place of its first element, or as its only one. */
  function Headed<T>(x: T, was: seq<T>): seq<T> {
    [x] + if was == [] then [] else was[1..]
  }

  lemma UserStepKeeps(d: Pod, verdict: Verdict)
    requires CoreIndex(d) >= 0 && !verdict.Failed?
    ensures var d', i := AppliedUserCa(d, verdict), CoreIndex(d);
      var volumes, mounts := Keep(d'.volumes, VolumeName, UserVolume), Keep(d'.containers[i].mounts, MountName, UserVolume);
      if verdict.Mounted? then
        && volumes == Headed(Volume("user-ca-bundle", ConfigMap(verdict.reference.name, [(BundleKey(verdict.reference), "ca-bundle.crt")], 420)),
                             Keep(d.volumes, VolumeName, UserVolume))
        && mounts == Headed(Mount("user-ca-bundle", "/etc/pki/tls/user-certs", true, ""),
                            Keep(d.containers[i].mounts, MountName, UserVolume))
      else volumes == [] && mounts == []
    ensures var d', i := AppliedUserCa(d, verdict), CoreIndex(d);
      && Drop(d'.volumes, VolumeName, {UserVolume}) == Drop(d.volumes, VolumeName, {UserVolume})
      && Drop(d'.containers[i].mounts, MountName, {UserVolume}) == Drop(d.containers[i].mounts, MountName, {UserVolume})
      && Drop(d'.containers[i].env, EnvName, {CertDir}) == Drop(d.containers[i].env, EnvName, {CertDir})
      && d'.containers[i].name == d.containers[i].name && d'.containers[i].rest == d.containers[i].rest
      && d' == d.(volumes := d'.volumes, containers := d.containers[i := d'.containers[i]])
  {
    hide Keep, Drop, Upsert, MergedEnv, First;
    var c := d.containers[CoreIndex(d)];
    if verdict.Mounted? {
      var ref := verdict.reference;
      var volume := ConfigMapVolume(ref.name, DataKey(ref), UserVolume, UserKeyPath);
      KeepUpserted(d.volumes, VolumeName, volume);
      KeepUpserted(c.mounts, MountName, TheUserMount);
      DropUpsert(d.volumes, VolumeName, volume, {UserVolume});
      DropUpsert(c.mounts, MountName, TheUserMount, {UserVolume});
      assert CertDirVars.Keys == {CertDir};
      MergedEnvCarries(c.env, CertDirVars, CertDir);
      KeyPathIsSet(ref);
    } else {
      KeepDropped(d.volumes, VolumeName, {UserVolume}, UserVolume);
      KeepDropped(c.mounts, MountName, {UserVolume}, UserVolume);
      DropTwice(d.volumes, VolumeName, {UserVolume}, {UserVolume});
      DropTwice(c.mounts, MountName, {UserVolume}, {UserVolume});
      DropTwice(c.env, EnvName, {CertDir}, {CertDir});
    }
  }

  lemma KeyPathIsSet(ref: CaReference)
    ensures DataKey(ref) != "" && DataKey(ref) == BundleKey(ref)
  {
    assert |UserKeyPath| == 13;
  }

  /** The proxy step leaves every other volume and mount, and every other variable. */
  lemma ProxyStepKeeps(d: Pod, proxy: Option<ProxyConfig>, i: nat, name: string)
    requires i < |d.containers|
    ensures var d' := UpdatedProxy(d, proxy);
      && |d'.containers| == |d.containers|
      && Keep(d'.volumes, VolumeName, UserVolume) == Keep(d.volumes, VolumeName, UserVolume)
      && Keep(d'.containers[i].mounts, MountName, UserVolume) == Keep(d.containers[i].mounts, MountName, UserVolume)
      && (name !in ProxyNames ==> Keep(d'.containers[i].env, EnvName, name) == Keep(d.containers[i].env, EnvName, name))
  {
    hide Keep, Drop, Upsert, MergedEnv;
    var c := d.containers[i];
    KeepUpsert(d.volumes, VolumeName, TheProxyVolume, UserVolume);
    KeepDropped(d.volumes, VolumeName, {ProxyVolume}, UserVolume);
    KeepUpsert(c.mounts, MountName, TheProxyMount, UserVolume);
    KeepDropped(c.mounts, MountName, {ProxyVolume}, UserVolume);
    if name !in ProxyNames {
      ProxyLeavesVar(c, if proxy.Some? then proxy.value else Empty, name);
    }
  }

  /** What the core deployment gets, from the inputs: the user's bundle is mounted at its place from the
      referenced ConfigMap if it is wanted, and no trace of it is left otherwise. */
  lemma CoreGetsBundle(d: Pod, ref: Option<CaReference>, fetch: Fetch, validPem: string -> bool, overrides: seq<EnvVar>,
                       proxy: Option<ProxyConfig>, later: bool)
    requires CoreIndex(d) >= 0
    requires !CoreOutcome(d, CaVerdict(ref, fetch, ProxyEnabled(proxy), validPem), overrides, proxy, later).NotBuilt?
    ensures var r := CoreOutcome(d, CaVerdict(ref, fetch, ProxyEnabled(proxy), validPem), overrides, proxy, later).pod;
      var i := CoreIndex(d);
      && |r.containers| == |d.containers|
      && var volumes, mounts := Keep(r.volumes, VolumeName, UserVolume), Keep(r.containers[i].mounts, MountName, UserVolume);
      if WantsBundle(ref, fetch, proxy, validPem) then
        && volumes == Headed(Volume("user-ca-bundle", ConfigMap(ref.value.name, [(BundleKey(ref.value), "ca-bundle.crt")], 420)),
                             Keep(d.volumes, VolumeName, UserVolume))
        && mounts == Headed(Mount("user-ca-bundle", "/etc/pki/tls/user-certs", true, ""),
                            Keep(d.containers[i].mounts, MountName, UserVolume))
      else volumes == [] && mounts == []
  {
    hide Keep, First, AppliedUserCa, OverriddenEnv, UpdatedProxy, CaVerdict, Headed, WantsBundle;
    var verdict := CaVerdict(ref, fetch, ProxyEnabled(proxy), validPem);
    VerdictExact(ref, fetch, proxy, validPem);
    UserStep(d, verdict);
    UserStepKeeps(d, verdict);
    if !verdict.MissingConfigMap? {
      var a := AppliedUserCa(d, verdict);
      OverrideStep(a, overrides);
      ProxyStepKeeps(OverriddenEnv(a, overrides), proxy, CoreIndex(d), "");
    }
  }

  // ---------- the user's variables win ----------

  /** For all lists: what bears a name afterwards is the last override of that name in place of the first
      variable, or what was there. */
  lemma {:induction false} UserEnvWins(env: seq<EnvVar>, overrides: seq<EnvVar>, name: string)
    ensures var given, was := Keep(overrides, EnvName, name), Keep(env, EnvName, name);
      Keep(UserEnv(env, overrides), EnvName, name) ==
        if given == [] then was else Headed(given[|given| - 1], was)
  {
    hide Keep, Upsert, UserEnv;
    if overrides == [] {
      NoOverrides(env, name);
    } else {
      var n := |overrides| - 1;
      var x, before := overrides[n], UserEnv(env, overrides[..n]);
      UserEnvWins(env, overrides[..n], name);
      OneOverride(env, overrides[..n], x, name);
      assert overrides == overrides[..n] + [x];
      if x.name == name {
        KeepUpserted(before, EnvName, x);
      } else {
        KeepUpsert(before, EnvName, x, name);
      }
    }
  }

  lemma NoOverrides(env: seq<EnvVar>, name: string)
    ensures UserEnv(env, []) == env && Keep<EnvVar>([], EnvName, name) == []
  {
  }

  lemma OneOverride(env: seq<EnvVar>, overrides: seq<EnvVar>, x: EnvVar, name: string)
    ensures UserEnv(env, overrides + [x]) == Upsert(UserEnv(env, overrides), EnvName, x)
    ensures Keep(overrides + [x], EnvName, name) == Keep(overrides, EnvName, name) + (if x.name == name then [x] else [])
  {
    hide Upsert;
    assert (overrides + [x])[..|overrides|] == overrides;
  }

  /** On the core container of a built deployment, a variable other than the proxy's and SSL_CERT_DIR is
      the user's if the user gives it, and the manifest's otherwise. */
  lemma CoreEnvironment(d: Pod, verdict: Verdict, overrides: seq<EnvVar>, proxy: Option<ProxyConfig>, later: bool, name: string)
    requires CoreIndex(d) >= 0 && CoreOutcome(d, verdict, overrides, proxy, later).Built?
    requires name !in ProxyNames && name != CertDir
    ensures var r, i := CoreOutcome(d, verdict, overrides, proxy, later).pod, CoreIndex(d);
      var given, was := Keep(overrides, EnvName, name), Keep(d.containers[i].env, EnvName, name);
      && |r.containers| == |d.containers|
      && Keep(r.containers[i].env, EnvName, name) == if given == [] then was else Headed(given[|given| - 1], was)
  {
    hide Keep, Drop, First, AppliedUserCa, UpdatedProxy, UserEnv, Headed;
    var i, a := CoreIndex(d), AppliedUserCa(d, verdict);
    UserStep(d, verdict);
    UserStepKeeps(d, verdict);
    KeepDropped(d.containers[i].env, EnvName, {CertDir}, name);
    KeepDropped(a.containers[i].env, EnvName, {CertDir}, name);
    UserEnvWins(a.containers[i].env, overrides, name);
    ProxyStepKeeps(OverriddenEnv(a, overrides), proxy, i, name);
  }
}
