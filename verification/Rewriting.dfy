/** Rewriting a deployment for the proxy and for the user's CA bundle: environment variables, volume
    mounts and pod volumes, applied to and removed from a deployment in place. */
module Rewriting {
  import opened Text
  import opened Sorting
  import opened NamedLists
  import opened Proxy

  /** `source` stands for a value taken from elsewhere (a secret, a field). */
  datatype EnvVar = EnvVar(name: string, value: string, source: string)
  datatype Mount = Mount(name: string, path: string, readOnly: bool, rest: string)
  datatype VolumeSource = ConfigMap(name: string, items: seq<(string, string)>, mode: int) | OtherSource(text: string)
  datatype Volume = Volume(name: string, source: VolumeSource)
  datatype Container = Container(name: string, env: seq<EnvVar>, mounts: seq<Mount>, rest: string)
  datatype Pod = Pod(containers: seq<Container>, initContainers: seq<Container>, volumes: seq<Volume>)

  function EnvName(e: EnvVar): string { e.name }
  function MountName(m: Mount): string { m.name }
  function VolumeName(v: Volume): string { v.name }
  function ContainerName(c: Container): string { c.name }

  const CoreContainer := "external-secrets"
  const ProxyVolume := "trusted-ca-bundle"
  const ProxyConfigMap := "external-secrets-trusted-ca-bundle"
  const ProxyMountPath := "/etc/pki/tls/certs"
  const UserVolume := "user-ca-bundle"
  const UserMountPath := "/etc/pki/tls/user-certs"
  const UserKeyPath := "ca-bundle.crt"
  const CertDir := "SSL_CERT_DIR"
  const CertDirValue := "/etc/pki/tls/user-certs:/etc/pki/tls/certs:/etc/ssl/certs"
  const ProxyNames: set<string> :=
    {"HTTP_PROXY", "HTTPS_PROXY", "NO_PROXY", "http_proxy", "https_proxy", "no_proxy"}

  // ---------- environment variables ----------

  /** The managed variables, in the order of the names, without the empty ones. */
  function Managed(names: seq<string>, vars: map<string, string>): seq<EnvVar>
    requires forall i :: 0 <= i < |names| ==> names[i] in vars
  {
    if names == [] then []
    else
      var name := names[|names| - 1];
      Managed(names[..|names| - 1], vars) + (if vars[name] == "" then [] else [EnvVar(name, vars[name], "")])
  }

  lemma NamesAreKeys(vars: map<string, string>)
    ensures forall i :: 0 <= i < |SortedKeys(vars.Keys)| ==> SortedKeys(vars.Keys)[i] in vars
  {
    var names := SortedKeys(vars.Keys);
    forall i | 0 <= i < |names| ensures names[i] in vars {
      assert names[i] in Elements(names);
    }
  }

  ghost function ManagedVars(vars: map<string, string>): seq<EnvVar> {
    NamesAreKeys(vars);
    Managed(SortedKeys(vars.Keys), vars)
  }

  /** `mergeContainerEnvVars`: managed variables first, then the others as they were. */
  ghost function MergedEnv(env: seq<EnvVar>, vars: map<string, string>): seq<EnvVar> {
    ManagedVars(vars) + Drop(env, EnvName, vars.Keys)
  }

  method MergeContainerEnvVars(env: seq<EnvVar>, vars: map<string, string>) returns (r: seq<EnvVar>)
    ensures r == MergedEnv(env, vars)
  {
    hide SortedKeys, Drop;
    NamesAreKeys(vars);
    var names := SortKeys(vars.Keys);
    r := [];
    for i := 0 to |names|
      invariant r == Managed(names[..i], vars)
    {
      assert names[..i + 1][..i] == names[..i];
      if vars[names[i]] != "" {
        r := r + [EnvVar(names[i], vars[names[i]], "")];
      }
    }
    assert names[..|names|] == names;
    var others := Prune(env, EnvName, vars.Keys);
    r := r + others;
  }

  lemma {:induction false} ManagedNames(names: seq<string>, vars: map<string, string>)
    requires forall i :: 0 <= i < |names| ==> names[i] in vars
    ensures forall i :: 0 <= i < |Managed(names, vars)| ==> EnvName(Managed(names, vars)[i]) in vars
  {
    if names != [] {
      ManagedNames(names[..|names| - 1], vars);
    }
  }

  /** What the managed variables hold under a name. */
  function Carried(vars: map<string, string>, name: string): seq<EnvVar> {
    if name in vars && vars[name] != "" then [EnvVar(name, vars[name], "")] else []
  }

  lemma CarriedIs(vars: map<string, string>, name: string)
    requires name in vars
    ensures Carried(vars, name) == if vars[name] == "" then [] else [EnvVar(name, vars[name], "")]
  {
  }

  lemma {:induction false} ManagedCarries(names: seq<string>, vars: map<string, string>, name: string)
    requires NoRepeats(names) && forall i :: 0 <= i < |names| ==> names[i] in vars
    ensures Keep(Managed(names, vars), EnvName, name) == if name in names then Carried(vars, name) else []
  {
    hide Keep, Carried;
    if names == [] {
      KeepOne(EnvVar("", "", ""), EnvName, name);
    } else {
      var n := |names| - 1;
      ManagedCarries(names[..n], vars, name);
      assert names == names[..n] + [names[n]];
      var x := EnvVar(names[n], vars[names[n]], "");
      KeepOne(x, EnvName, name);
      KeepConcat(Managed(names[..n], vars), if x.value == "" then [] else [x], EnvName, name);
      CarriedIs(vars, names[n]);
    }
  }

  /** After a merge every managed name carries exactly its non-empty value, once; every other name
      keeps its variables; and the unmanaged variables keep their order. */
  lemma MergedEnvCarries(env: seq<EnvVar>, vars: map<string, string>, name: string)
    ensures Keep(MergedEnv(env, vars), EnvName, name) ==
      if name in vars then Carried(vars, name) else Keep(env, EnvName, name)
    ensures Drop(MergedEnv(env, vars), EnvName, vars.Keys) == Drop(env, EnvName, vars.Keys)
  {
    hide SortedKeys;
    NamesAreKeys(vars);
    var names := SortedKeys(vars.Keys);
    assert name in names <==> name in Elements(names);
    ManagedCarries(names, vars, name);
    KeepConcat(ManagedVars(vars), Drop(env, EnvName, vars.Keys), EnvName, name);
    KeepDropped(env, EnvName, vars.Keys, name);
    DropConcat(ManagedVars(vars), Drop(env, EnvName, vars.Keys), EnvName, vars.Keys);
    ManagedNames(names, vars);
    DropAll(ManagedVars(vars), EnvName, vars.Keys);
    DropTwice(env, EnvName, vars.Keys, vars.Keys);
  }

  lemma {:induction false} ManagedInOrder(names: seq<string>, vars: map<string, string>)
    requires SortedBy(names, Same) && forall i :: 0 <= i < |names| ==> names[i] in vars
    ensures forall i :: 0 <= i < |Managed(names, vars)| ==> Managed(names, vars)[i].name in names
    ensures forall i, j :: 0 <= i < j < |Managed(names, vars)| ==>
      Leq(Managed(names, vars)[i].name, Managed(names, vars)[j].name)
  {
    hide Leq;
    if names != [] {
      var n := |names| - 1;
      var before := names[..n];
      assert SortedBy(before, Same);
      ManagedInOrder(before, vars);
      var r := Managed(before, vars);
      forall i | 0 <= i < |r| ensures Leq(r[i].name, names[n]) {
        var k :| 0 <= k < |before| && before[k] == r[i].name;
        assert Leq(Same(names[k]), Same(names[n]));
      }
    }
  }

  /** The managed variables come first, in the order of their names, so that reconciles agree. */
  lemma MergedEnvOrder(env: seq<EnvVar>, vars: map<string, string>, i: nat, j: nat)
    requires i < j < |MergedEnv(env, vars)| && MergedEnv(env, vars)[j].name in vars
    ensures MergedEnv(env, vars)[i].name in vars
    ensures Leq(MergedEnv(env, vars)[i].name, MergedEnv(env, vars)[j].name)
  {
    hide SortedKeys, Leq;
    NamesAreKeys(vars);
    var names := SortedKeys(vars.Keys);
    ManagedInOrder(names, vars);
    ManagedNames(names, vars);
    DroppedIsPart(env, EnvName, vars.Keys);
    var first, rest := ManagedVars(vars), Drop(env, EnvName, vars.Keys);
    forall k | 0 <= k < |rest| ensures rest[k].name !in vars {
      assert rest[k] in rest;
    }
  }

  /** A second merge of the same names makes the first one irrelevant. */
  lemma MergedEnvTwice(env: seq<EnvVar>, a: map<string, string>, b: map<string, string>)
    requires a.Keys == b.Keys
    ensures MergedEnv(MergedEnv(env, a), b) == MergedEnv(env, b)
  {
    MergedEnvCarries(env, a, "");
  }

  // ---------- the proxy ----------

  function ProxyVars(p: ProxyConfig): (vars: map<string, string>)
    ensures vars.Keys == ProxyNames
  {
    map["HTTP_PROXY" := p.httpProxy, "HTTPS_PROXY" := p.httpsProxy, "NO_PROXY" := p.noProxy,
        "http_proxy" := p.httpProxy, "https_proxy" := p.httpsProxy, "no_proxy" := p.noProxy]
  }

  function ConfigMapVolume(configMap: string, key: string, volume: string, path: string): Volume {
    Volume(volume, ConfigMap(configMap, if key != "" && path != "" then [(key, path)] else [], 420))
  }

  function ReadOnlyMount(volume: string, path: string): Mount {
    Mount(volume, path, true, "")
  }

  const TheProxyVolume := ConfigMapVolume(ProxyConfigMap, "", ProxyVolume, "")
  const TheProxyMount := ReadOnlyMount(ProxyVolume, ProxyMountPath)

  ghost function ProxiedOne(c: Container, p: ProxyConfig): Container {
    c.(env := MergedEnv(c.env, ProxyVars(p)), mounts := Upsert(c.mounts, MountName, TheProxyMount))
  }

  function UnproxiedOne(c: Container): Container {
    c.(env := Drop(c.env, EnvName, ProxyNames), mounts := Drop(c.mounts, MountName, {ProxyVolume}))
  }

  ghost function ProxiedAll(cs: seq<Container>, p: ProxyConfig): (r: seq<Container>)
    ensures |r| == |cs|
  {
    seq(|cs|, i requires 0 <= i < |cs| => ProxiedOne(cs[i], p))
  }

  function UnproxiedAll(cs: seq<Container>): (r: seq<Container>)
    ensures |r| == |cs|
  {
    seq(|cs|, i requires 0 <= i < |cs| => UnproxiedOne(cs[i]))
  }

  ghost function ApplyProxy(d: Pod, p: ProxyConfig): Pod {
    Pod(ProxiedAll(d.containers, p), ProxiedAll(d.initContainers, p), Upsert(d.volumes, VolumeName, TheProxyVolume))
  }

  function RemoveProxy(d: Pod): Pod {
    Pod(UnproxiedAll(d.containers), UnproxiedAll(d.initContainers), Drop(d.volumes, VolumeName, {ProxyVolume}))
  }

  predicate ProxyEnabled(proxy: Option<ProxyConfig>) {
    proxy.Some? && HasUrls(proxy.value)
  }

  ghost function UpdatedProxy(d: Pod, proxy: Option<ProxyConfig>): Pod {
    if ProxyEnabled(proxy) then ApplyProxy(d, proxy.value) else RemoveProxy(d)
  }

  lemma ContainerLaws(c: Container, p: ProxyConfig, q: ProxyConfig)
    ensures UnproxiedOne(ProxiedOne(c, p)) == UnproxiedOne(c)
    ensures ProxiedOne(ProxiedOne(c, p), q) == ProxiedOne(c, q)
    ensures UnproxiedOne(UnproxiedOne(c)) == UnproxiedOne(c)
  {
    hide MergedEnv, Upsert, Drop;
    MergedEnvCarries(c.env, ProxyVars(p), "");
    MergedEnvTwice(c.env, ProxyVars(p), ProxyVars(q));
    DropUpsert(c.mounts, MountName, TheProxyMount, {ProxyVolume});
    UpsertTwice(c.mounts, MountName, TheProxyMount, TheProxyMount);
    DropTwice(c.env, EnvName, ProxyNames, ProxyNames);
    DropTwice(c.mounts, MountName, {ProxyVolume}, {ProxyVolume});
  }

  lemma ListLaws(cs: seq<Container>, p: ProxyConfig, q: ProxyConfig)
    ensures UnproxiedAll(ProxiedAll(cs, p)) == UnproxiedAll(cs)
    ensures ProxiedAll(ProxiedAll(cs, p), q) == ProxiedAll(cs, q)
    ensures UnproxiedAll(UnproxiedAll(cs)) == UnproxiedAll(cs)
  {
    hide ProxiedOne, UnproxiedOne;
    forall i | 0 <= i < |cs|
      ensures UnproxiedOne(ProxiedOne(cs[i], p)) == UnproxiedOne(cs[i])
      ensures ProxiedOne(ProxiedOne(cs[i], p), q) == ProxiedOne(cs[i], q)
      ensures UnproxiedOne(UnproxiedOne(cs[i])) == UnproxiedOne(cs[i])
    {
      ContainerLaws(cs[i], p, q);
    }
  }

  /** Removing undoes applying, a later application replaces an earlier one, and removing twice is
      removing once: for every deployment, repeated names included. */
  lemma ProxyAlgebra(d: Pod, p: ProxyConfig, q: ProxyConfig)
    ensures RemoveProxy(ApplyProxy(d, p)) == RemoveProxy(d)
    ensures ApplyProxy(ApplyProxy(d, p), q) == ApplyProxy(d, q)
    ensures RemoveProxy(RemoveProxy(d)) == RemoveProxy(d)
  {
    hide ProxiedAll, UnproxiedAll, Upsert, Drop;
    ListLaws(d.containers, p, q);
    ListLaws(d.initContainers, p, q);
    DropUpsert(d.volumes, VolumeName, TheProxyVolume, {ProxyVolume});
    UpsertTwice(d.volumes, VolumeName, TheProxyVolume, TheProxyVolume);
    DropTwice(d.volumes, VolumeName, {ProxyVolume}, {ProxyVolume});
  }

  /** The value the proxy configuration gives to one of the six names. */
  function Resolved(p: ProxyConfig, name: string): string
    requires name in ProxyNames
  {
    if name in {"HTTP_PROXY", "http_proxy"} then p.httpProxy
    else if name in {"HTTPS_PROXY", "https_proxy"} then p.httpsProxy
    else p.noProxy
  }

  function Once(name: string, value: string): seq<EnvVar> {
    if value == "" then [] else [EnvVar(name, value, "")]
  }

  /** In every container the six names carry exactly the non-empty resolved values, once each, and
      every other variable stays, in the same order. */
  lemma ProxyEnvironment(cs: seq<Container>, p: ProxyConfig, i: nat, name: string)
    requires i < |cs|
    ensures var env := ProxiedAll(cs, p)[i].env;
      && (name in ProxyNames ==> Keep(env, EnvName, name) == Once(name, Resolved(p, name)))
      && (name !in ProxyNames ==> Keep(env, EnvName, name) == Keep(cs[i].env, EnvName, name))
      && Drop(env, EnvName, ProxyNames) == Drop(cs[i].env, EnvName, ProxyNames)
  {
    hide MergedEnv, Keep, Drop;
    MergedEnvCarries(cs[i].env, ProxyVars(p), name);
  }

  // ---------- what a deployment is left with ----------

  /** The proxy in one container: the six names carry the non-empty values and the cluster's CA bundle is
      mounted, or nothing of either is left. */
  ghost predicate ProxyIn(c: Container, proxy: Option<ProxyConfig>) {
    if ProxySet(proxy) then
      && (forall name :: name in ProxyNames ==> Keep(c.env, EnvName, name) == Once(name, Resolved(proxy.value, name)))
      && Holds(c.mounts, MountName, "trusted-ca-bundle")
      && c.mounts[First(c.mounts, MountName, "trusted-ca-bundle")] ==
        Mount("trusted-ca-bundle", "/etc/pki/tls/certs", true, "")
    else
      && (forall name :: name in ProxyNames ==> Keep(c.env, EnvName, name) == [])
      && Keep(c.mounts, MountName, "trusted-ca-bundle") == []
  }

  /** Some proxy value is set. */
  predicate ProxySet(proxy: Option<ProxyConfig>) {
    proxy.Some? && (proxy.value.httpProxy != "" || proxy.value.httpsProxy != "" || proxy.value.noProxy != "")
  }

  /** The proxy in every container and init container, and its volume. */
  ghost predicate ProxyInPod(d: Pod, proxy: Option<ProxyConfig>) {
    && (forall i :: 0 <= i < |d.containers| ==> ProxyIn(d.containers[i], proxy))
    && (forall i :: 0 <= i < |d.initContainers| ==> ProxyIn(d.initContainers[i], proxy))
    && if ProxySet(proxy) then
         && Holds(d.volumes, VolumeName, "trusted-ca-bundle")
         && d.volumes[First(d.volumes, VolumeName, "trusted-ca-bundle")] ==
           Volume("trusted-ca-bundle", ConfigMap("external-secrets-trusted-ca-bundle", [], 420))
       else Keep(d.volumes, VolumeName, "trusted-ca-bundle") == []
  }

  /** All else of a container is as it was, in its order. */
  ghost predicate SameButProxy(c: Container, was: Container) {
    && c.name == was.name && c.rest == was.rest
    && Drop(c.env, EnvName, ProxyNames) == Drop(was.env, EnvName, ProxyNames)
    && Drop(c.mounts, MountName, {"trusted-ca-bundle"}) == Drop(was.mounts, MountName, {"trusted-ca-bundle"})
    && |Keep(c.mounts, MountName, "trusted-ca-bundle")| <= 1 + |Keep(was.mounts, MountName, "trusted-ca-bundle")|
  }

  ghost predicate AllSameButProxy(cs: seq<Container>, was: seq<Container>) {
    |cs| == |was| && forall i :: 0 <= i < |cs| ==> SameButProxy(cs[i], was[i])
  }

  ghost predicate PodSameButProxy(d: Pod, was: Pod) {
    && AllSameButProxy(d.containers, was.containers) && AllSameButProxy(d.initContainers, was.initContainers)
    && Drop(d.volumes, VolumeName, {"trusted-ca-bundle"}) == Drop(was.volumes, VolumeName, {"trusted-ca-bundle"})
  }

  /** What an update leaves first under its name. */
  lemma UpsertedFirst<T>(s: seq<T>, key: T -> string, x: T)
    ensures var r := Upsert(s, key, x);
      Holds(r, key, key(x)) && First(r, key, key(x)) >= 0 && r[First(r, key, key(x))] == x
  {
    var i := First(s, key, key(x));
    var r := Upsert(s, key, x);
    var at := if i >= 0 then i else |s|;
    assert key(r[at]) == key(x);
    FirstIs(r, key, at);
  }

  lemma ProxiedHas(c: Container, p: ProxyConfig)
    requires ProxySet(Some(p))
    ensures ProxyIn(ProxiedOne(c, p), Some(p)) && SameButProxy(ProxiedOne(c, p), c)
  {
    hide MergedEnv, Keep, Drop, Upsert, First, Holds, Once;
    forall name | name in ProxyNames ensures Keep(ProxiedOne(c, p).env, EnvName, name) == Once(name, Resolved(p, name)) {
      MergedEnvCarries(c.env, ProxyVars(p), name);
      CarriedOnce(p, name);
    }
    MergedEnvCarries(c.env, ProxyVars(p), "");
    UpsertedFirst(c.mounts, MountName, TheProxyMount);
    DropUpsert(c.mounts, MountName, TheProxyMount, {ProxyVolume});
    KeepUpserted(c.mounts, MountName, TheProxyMount);
  }

  lemma CarriedOnce(p: ProxyConfig, name: string)
    requires name in ProxyNames
    ensures Carried(ProxyVars(p), name) == Once(name, Resolved(p, name))
  {
  }

  lemma UnproxiedHas(c: Container, proxy: Option<ProxyConfig>)
    requires !ProxySet(proxy)
    ensures ProxyIn(UnproxiedOne(c), proxy) && SameButProxy(UnproxiedOne(c), c)
  {
    hide Keep, Drop;
    forall name | name in ProxyNames ensures Keep(UnproxiedOne(c).env, EnvName, name) == [] {
      KeepDropped(c.env, EnvName, ProxyNames, name);
    }
    KeepDropped(c.mounts, MountName, {ProxyVolume}, ProxyVolume);
    DropTwice(c.env, EnvName, ProxyNames, ProxyNames);
    DropTwice(c.mounts, MountName, {ProxyVolume}, {ProxyVolume});
  }

  /** For every deployment and configuration, the update leaves exactly the proxy that is configured, in
      every container and init container, or none of it; and all else stays. */
  lemma UpdatedProxyExact(d: Pod, proxy: Option<ProxyConfig>)
    ensures ProxyInPod(UpdatedProxy(d, proxy), proxy) && PodSameButProxy(UpdatedProxy(d, proxy), d)
  {
    hide ProxiedOne, UnproxiedOne, ProxyIn, SameButProxy, Upsert, Drop, Keep, First, Holds;
    if ProxySet(proxy) {
      forall c: Container
        ensures ProxyIn(ProxiedOne(c, proxy.value), proxy) && SameButProxy(ProxiedOne(c, proxy.value), c)
      {
        ProxiedHas(c, proxy.value);
      }
      UpsertedFirst(d.volumes, VolumeName, TheProxyVolume);
      DropUpsert(d.volumes, VolumeName, TheProxyVolume, {ProxyVolume});
    } else {
      forall c: Container ensures ProxyIn(UnproxiedOne(c), proxy) && SameButProxy(UnproxiedOne(c), c) {
        UnproxiedHas(c, proxy);
      }
      KeepDropped(d.volumes, VolumeName, {ProxyVolume}, ProxyVolume);
      DropTwice(d.volumes, VolumeName, {ProxyVolume}, {ProxyVolume});
    }
  }

  // ---------- the user's CA bundle ----------

  datatype CaReference = CaReference(name: string, key: string)

  /** What the cluster answers about the referenced ConfigMap: whether it is there, whether the watch
      label could be set, whether the network operator manages it, and its data. */
  datatype Fetch = Missing | Unreachable | Found(labelled: bool, injected: bool, data: map<string, string>)

  datatype Verdict = Mounted(reference: CaReference) | NotMounted | MissingConfigMap | Failed

  function DataKey(ref: CaReference): string {
    if ref.key == "" then UserKeyPath else ref.key
  }

  /** Which branch `applyUserCABundleConfig` takes. */
  function CaVerdict(ref: Option<CaReference>, fetch: Fetch, proxyOn: bool, validPem: string -> bool): Verdict {
    if ref.None? then NotMounted
    else match fetch
      case Missing => MissingConfigMap
      case Unreachable => Failed
      case Found(labelled, injected, data) =>
        if !labelled then Failed
        else if injected && proxyOn then NotMounted
        else if DataKey(ref.value) !in data || !validPem(data[DataKey(ref.value)]) then Failed
        else Mounted(ref.value)
  }

  const CertDirVars: map<string, string> := map[CertDir := CertDirValue]
  const TheUserMount := ReadOnlyMount(UserVolume, UserMountPath)

  ghost function WithUserCa(c: Container): Container {
    c.(mounts := Upsert(c.mounts, MountName, TheUserMount), env := MergedEnv(c.env, CertDirVars))
  }

  function WithoutUserCa(c: Container): Container {
    c.(mounts := Drop(c.mounts, MountName, {UserVolume}), env := Drop(c.env, EnvName, {CertDir}))
  }

  function CoreIndex(d: Pod): (i: int)
    ensures -1 <= i < |d.containers|
  {
    First(d.containers, ContainerName, CoreContainer)
  }

  ghost function MountUserCa(d: Pod, ref: CaReference): Pod {
    var volume := ConfigMapVolume(ref.name, DataKey(ref), UserVolume, UserKeyPath);
    var i := CoreIndex(d);
    d.(volumes := Upsert(d.volumes, VolumeName, volume),
       containers := if i < 0 then d.containers else d.containers[i := WithUserCa(d.containers[i])])
  }

  function UnmountUserCa(d: Pod): Pod {
    var i := CoreIndex(d);
    d.(volumes := Drop(d.volumes, VolumeName, {UserVolume}),
       containers := if i < 0 then d.containers else d.containers[i := WithoutUserCa(d.containers[i])])
  }

  /** The deployment after the user's CA bundle was looked at. */
  ghost function AppliedUserCa(d: Pod, verdict: Verdict): Pod {
    match verdict
    case Mounted(ref) => MountUserCa(d, ref)
    case Failed => d
    case _ => UnmountUserCa(d)
  }

  // ---------- the user's environment variables ----------

  /** `mergeUserEnvVars`: one replacement or addition after the other. */
  function UserEnv(env: seq<EnvVar>, overrides: seq<EnvVar>): seq<EnvVar> {
    if overrides == [] then env
    else Upsert(UserEnv(env, overrides[..|overrides| - 1]), EnvName, overrides[|overrides| - 1])
  }

  function OverriddenEnv(d: Pod, overrides: seq<EnvVar>): Pod {
    var i := CoreIndex(d);
    if i < 0 then d
    else d.(containers := d.containers[i := d.containers[i].(env := UserEnv(d.containers[i].env, overrides))])
  }

  method MergeUserEnvVars(env: seq<EnvVar>, overrides: seq<EnvVar>) returns (r: seq<EnvVar>)
    ensures r == UserEnv(env, overrides)
  {
    hide Upsert;
    r := env;
    for i := 0 to |overrides|
      invariant r == UserEnv(env, overrides[..i])
    {
      assert overrides[..i + 1][..i] == overrides[..i];
      r := Update(r, EnvName, overrides[i]);
    }
    assert overrides[..|overrides|] == overrides;
  }

  // ---------- the core deployment as it is built ----------

  datatype Outcome = Built(pod: Pod) | BuiltWithError(pod: Pod) | NotBuilt

  /** `getDeploymentObject` for the core controller, as far as environment, mounts and volumes go;
      `laterError` is an error of a later step. */
  ghost function CoreOutcome(d: Pod, verdict: Verdict, overrides: seq<EnvVar>, proxy: Option<ProxyConfig>,
                             laterError: bool): Outcome {
    match verdict
    case Failed => NotBuilt
    case MissingConfigMap => BuiltWithError(AppliedUserCa(d, verdict))
    case _ =>
      if laterError then NotBuilt
      else Built(UpdatedProxy(OverriddenEnv(AppliedUserCa(d, verdict), overrides), proxy))
  }

  class Deployment {
    var containers: seq<Container>
    var initContainers: seq<Container>
    var volumes: seq<Volume>

    function Contents(): Pod
      reads this
    {
      Pod(containers, initContainers, volumes)
    }

    constructor (manifest: Pod)
      ensures Contents() == manifest
    {
      containers, initContainers, volumes := manifest.containers, manifest.initContainers, manifest.volumes;
    }

    /** `updateProxyConfiguration`, when a proxy is in use. */
    method ApplyProxyConfiguration(p: ProxyConfig)
      modifies this
      ensures Contents() == ApplyProxy(old(Contents()), p)
    {
      hide ProxyVars, MergedEnv, Upsert;
      containers := ProxyContainers(containers, p);
      initContainers := ProxyContainers(initContainers, p);
      volumes := Update(volumes, VolumeName, TheProxyVolume);
    }

    /** `updateProxyConfiguration`, when none is. */
    method RemoveProxyConfiguration()
      modifies this
      ensures Contents() == RemoveProxy(old(Contents()))
    {
      hide Drop;
      containers := UnproxyContainers(containers);
      initContainers := UnproxyContainers(initContainers);
      volumes := Prune(volumes, VolumeName, {ProxyVolume});
    }

    method UpdateProxyConfiguration(proxy: Option<ProxyConfig>)
      modifies this
      ensures Contents() == UpdatedProxy(old(Contents()), proxy)
      ensures ProxyInPod(Contents(), proxy) && PodSameButProxy(Contents(), old(Contents()))
    {
      hide ApplyProxy, RemoveProxy, ProxyInPod, PodSameButProxy;
      UpdatedProxyExact(Contents(), proxy);
      if ProxyEnabled(proxy) {
        ApplyProxyConfiguration(proxy.value);
      } else {
        RemoveProxyConfiguration();
      }
    }

    method FindCore() returns (i: int)
      ensures i == CoreIndex(Contents())
    {
      i := 0;
      while i < |containers|
        invariant 0 <= i <= |containers|
        invariant forall j :: 0 <= j < i ==> ContainerName(containers[j]) != CoreContainer
      {
        if containers[i].name == CoreContainer {
          FirstIs(containers, ContainerName, i);
          return;
        }
        i := i + 1;
      }
      return -1;
    }

    method RemoveUserCABundleConfig()
      modifies this
      ensures Contents() == UnmountUserCa(old(Contents()))
    {
      hide Drop, First;
      volumes := Prune(volumes, VolumeName, {UserVolume});
      var i := FindCore();
      if i >= 0 {
        var mounts := Prune(containers[i].mounts, MountName, {UserVolume});
        var env := Prune(containers[i].env, EnvName, {CertDir});
        containers := containers[i := containers[i].(mounts := mounts, env := env)];
      }
    }

    method MountUserCABundle(ref: CaReference)
      modifies this
      ensures Contents() == MountUserCa(old(Contents()), ref)
    {
      hide Upsert, MergedEnv, First;
      volumes := Update(volumes, VolumeName, ConfigMapVolume(ref.name, DataKey(ref), UserVolume, UserKeyPath));
      var i := FindCore();
      if i >= 0 {
        var mounts := Update(containers[i].mounts, MountName, TheUserMount);
        var env := MergeContainerEnvVars(containers[i].env, CertDirVars);
        containers := containers[i := containers[i].(mounts := mounts, env := env)];
      }
    }

    /** `applyUserCABundleConfig`: the branches, in the order of the checks.  `reset` says that the gate
        of validation warnings is opened again, as it is when no bundle is configured. */
    method ApplyUserCABundleConfig(ref: Option<CaReference>, fetch: Fetch, proxyOn: bool, validPem: string -> bool)
        returns (verdict: Verdict, reset: bool)
      modifies this
      ensures verdict == CaVerdict(ref, fetch, proxyOn, validPem)
      ensures reset <==> ref.None?
      ensures Contents() == AppliedUserCa(old(Contents()), verdict)
    {
      hide MountUserCa, UnmountUserCa;
      if ref.None? {
        RemoveUserCABundleConfig();
        return NotMounted, true;
      }
      if fetch.Missing? {
        RemoveUserCABundleConfig();
        return MissingConfigMap, false;
      }
      if fetch.Unreachable? || !fetch.labelled {
        return Failed, false;
      }
      if fetch.injected && proxyOn {
        RemoveUserCABundleConfig();
        return NotMounted, false;
      }
      var key := DataKey(ref.value);
      if key !in fetch.data || !validPem(fetch.data[key]) {
        return Failed, false;
      }
      MountUserCABundle(ref.value);
      return Mounted(ref.value), false;
    }

    method ApplyOverrideEnv(overrides: seq<EnvVar>)
      modifies this
      ensures Contents() == OverriddenEnv(old(Contents()), overrides)
    {
      hide First, UserEnv;
      var i := FindCore();
      if i >= 0 {
        var env := MergeUserEnvVars(containers[i].env, overrides);
        containers := containers[i := containers[i].(env := env)];
      }
    }

    /** `getDeploymentObject` for the core controller. */
    method BuildCore(ref: Option<CaReference>, fetch: Fetch, validPem: string -> bool, overrides: seq<EnvVar>,
                     proxy: Option<ProxyConfig>, laterError: bool) returns (r: Outcome)
      modifies this
      ensures r == CoreOutcome(old(Contents()), CaVerdict(ref, fetch, ProxyEnabled(proxy), validPem), overrides, proxy, laterError)
      ensures !r.NotBuilt? ==> r.pod == Contents()
      ensures r.Built? ==> ProxyInPod(r.pod, proxy)
    {
      hide CaVerdict, AppliedUserCa, OverriddenEnv, UpdatedProxy, ProxyInPod, PodSameButProxy;
      var verdict, _ := ApplyUserCABundleConfig(ref, fetch, ProxyEnabled(proxy), validPem);
      if verdict.Failed? {
        return NotBuilt;
      }
      if verdict.MissingConfigMap? {
        return BuiltWithError(Contents());
      }
      if laterError {
        return NotBuilt;
      }
      ApplyOverrideEnv(overrides);
      UpdateProxyConfiguration(proxy);
      return Built(Contents());
    }
  }

  /** The loop over containers that sets the proxy variables and mounts the cluster's CA bundle. */
  method ProxyContainers(cs: seq<Container>, p: ProxyConfig) returns (r: seq<Container>)
    ensures r == ProxiedAll(cs, p)
  {
    hide MergedEnv, Upsert;
    r := cs;
    for i := 0 to |cs|
      invariant |r| == |cs|
      invariant forall j :: 0 <= j < |cs| ==> r[j] == if j < i then ProxiedOne(cs[j], p) else cs[j]
    {
      var env := MergeContainerEnvVars(r[i].env, ProxyVars(p));
      var mounts := Update(r[i].mounts, MountName, TheProxyMount);
      r := r[i := r[i].(env := env, mounts := mounts)];
    }
  }

  method UnproxyContainers(cs: seq<Container>) returns (r: seq<Container>)
    ensures r == UnproxiedAll(cs)
  {
    hide Drop;
    r := cs;
    for i := 0 to |cs|
      invariant |r| == |cs|
      invariant forall j :: 0 <= j < |cs| ==> r[j] == if j < i then UnproxiedOne(cs[j]) else cs[j]
    {
      var env := Prune(r[i].env, EnvName, ProxyNames);
      var mounts := Prune(r[i].mounts, MountName, {ProxyVolume});
      r := r[i := r[i].(env := env, mounts := mounts)];
    }
  }
}
