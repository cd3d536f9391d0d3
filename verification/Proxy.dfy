/** Proxy configuration: layered from three sources, validated, and turned into the ports that the
    egress network policy opens.  URL parsing is a parameter. */
module Proxy {
  import opened Text

  datatype ProxyConfig = ProxyConfig(httpProxy: string, httpsProxy: string, noProxy: string, provisioning: string)

  datatype Url = Url(scheme: string, host: string, port: string)

  const Empty := ProxyConfig("", "", "", "")

  // ---------- layering ----------

  function Fill(a: string, b: string): string {
    if a == "" then b else a
  }

  /** `mergeProxyConfigFields`: unset fields are filled from the other source. */
  function Layer(into: ProxyConfig, from: ProxyConfig): ProxyConfig {
    ProxyConfig(Fill(into.httpProxy, from.httpProxy), Fill(into.httpsProxy, from.httpsProxy),
                Fill(into.noProxy, from.noProxy), Fill(into.provisioning, from.provisioning))
  }

  /** All sources, the first with the highest precedence. */
  function Layered(sources: seq<ProxyConfig>): ProxyConfig {
    if sources == [] then Empty
    else Layer(Layered(sources[..|sources| - 1]), sources[|sources| - 1])
  }

  function FirstSet(sources: seq<ProxyConfig>, field: ProxyConfig -> string): string {
    if sources == [] then ""
    else if field(sources[0]) != "" then field(sources[0])
    else FirstSet(sources[1..], field)
  }

  lemma LayerIsAssociative(a: ProxyConfig, b: ProxyConfig, c: ProxyConfig)
    ensures Layer(Layer(a, b), c) == Layer(a, Layer(b, c))
    ensures Layer(Empty, a) == a == Layer(a, Empty)
    ensures Layer(a, a) == a
  {
  }

  /** Grouping the sources in any way gives the same configuration. */
  lemma {:induction false} LayeredSplits(a: seq<ProxyConfig>, b: seq<ProxyConfig>)
    ensures Layered(a + b) == Layer(Layered(a), Layered(b))
    decreases |b|
  {
    hide Layer;
    if b == [] {
      assert a + b == a;
      LayerIsAssociative(Layered(a), Empty, Empty);
    } else {
      var n := |b| - 1;
      assert (a + b)[..|a| + n] == a + b[..n];
      LayeredSplits(a, b[..n]);
      LayerIsAssociative(Layered(a), Layered(b[..n]), b[n]);
    }
  }

  /** Every field is the first non-empty one in the order of precedence. */
  lemma {:induction false} LayeredIsFirstSet(sources: seq<ProxyConfig>)
    ensures Layered(sources).httpProxy == FirstSet(sources, (c: ProxyConfig) => c.httpProxy)
    ensures Layered(sources).httpsProxy == FirstSet(sources, (c: ProxyConfig) => c.httpsProxy)
    ensures Layered(sources).noProxy == FirstSet(sources, (c: ProxyConfig) => c.noProxy)
    ensures Layered(sources).provisioning == FirstSet(sources, (c: ProxyConfig) => c.provisioning)
  {
    if sources != [] {
      LayeredIsFirstSet(sources[1..]);
      assert sources == [sources[0]] + sources[1..];
      LayeredSplits([sources[0]], sources[1..]);
      assert [sources[0]][..0] == [];
    }
  }

  lemma ThreeLayers(a: ProxyConfig, b: ProxyConfig, c: ProxyConfig)
    ensures Layered([a, b, c]) == Layer(Layer(a, b), c)
  {
    hide Layer;
    assert [a, b, c][..2] == [a, b] && [a, b][..1] == [a] && [a][..0] == [];
    OneLayer(a);
  }

  lemma OneLayer(a: ProxyConfig)
    ensures Layered([a]) == a
  {
    assert [a][..0] == [];
  }

  // ---------- validation ----------

  predicate IsDigit(c: char) {
    '0' <= c <= '9'
  }

  predicate Digits(s: string) {
    s != "" && forall i :: 0 <= i < |s| ==> IsDigit(s[i])
  }

  function Value(s: string): nat
    requires forall i :: 0 <= i < |s| ==> IsDigit(s[i])
  {
    if s == "" then 0
    else
      var last := s[|s| - 1];
      assert IsDigit(last);
      10 * Value(s[..|s| - 1]) + (last as int - '0' as int)
  }

  /** `strconv.Atoi` on the digits that a URL's port consists of. */
  function Atoi(s: string): Option<int> {
    if Digits(s) && Value(s) < 0x8000_0000_0000_0000 then Some(Value(s)) else None
  }

  /** `validateProxy`; an unset URL is valid. */
  predicate ValidUrl(raw: string, parse: string -> Option<Url>) {
    raw == "" || (
      && parse(raw).Some?
      && var u := parse(raw).value;
      && u.scheme != "" && u.host != ""
      && (u.port != "" ==> Atoi(u.port).Some? && 1 <= Atoi(u.port).value <= 65535))
  }

  predicate HasUrls(c: ProxyConfig) {
    c.httpProxy != "" || c.httpsProxy != "" || c.noProxy != ""
  }

  datatype Resolution = NoProxy | Resolved(config: ProxyConfig) | Invalid

  function Resolve(sources: seq<ProxyConfig>, parse: string -> Option<Url>): Resolution {
    var c := Layered(sources);
    if !HasUrls(c) then NoProxy
    else if !ValidUrl(c.httpProxy, parse) || !ValidUrl(c.httpsProxy, parse) then Invalid
    else Resolved(c)
  }

  /** When each resolution is reached, plainly. */
  lemma ResolveExact(sources: seq<ProxyConfig>, parse: string -> Option<Url>)
    ensures var c, r := Layered(sources), Resolve(sources, parse);
      && (r.NoProxy? <==> c.httpProxy == "" && c.httpsProxy == "" && c.noProxy == "")
      && (r.Invalid? <==> Malformed(c.httpProxy, parse) || Malformed(c.httpsProxy, parse))
      && (r.Resolved? ==> r.config == c)
  {
    hide Malformed, ValidUrl;
    MalformedExact(Layered(sources).httpProxy, parse);
    MalformedExact(Layered(sources).httpsProxy, parse);
    UnsetIsFine(parse);
  }

  lemma MalformedExact(raw: string, parse: string -> Option<Url>)
    ensures Malformed(raw, parse) <==> !ValidUrl(raw, parse)
  {
    if raw != "" && parse(raw).Some? {
      var port := parse(raw).value.port;
      if Digits(port) && 1 <= Value(port) <= 65535 {
        assert ReadsAs(port, Value(port));
      }
    }
  }

  lemma UnsetIsFine(parse: string -> Option<Url>)
    ensures !Malformed("", parse)
  {
  }

  /** A set URL that does not parse, lacks scheme or host, or has a port that is no number from 1 to
      65535. */
  ghost predicate Malformed(raw: string, parse: string -> Option<Url>) {
    raw != "" && match parse(raw)
      case None => true
      case Some(u) =>
        || u.scheme == "" || u.host == ""
        || (u.port != "" && !exists n :: 1 <= n <= 65535 && ReadsAs(u.port, n))
  }

  /** The text is n in digits, leading zeros allowed. */
  predicate ReadsAs(s: string, n: nat) {
    Digits(s) && Value(s) == n
  }

  function Decimal(n: nat): (s: string)
    ensures Digits(s)
  {
    var last := ('0' as int + n % 10) as char;
    (if n < 10 then "" else Decimal(n / 10)) + [last]
  }

  /** Reading a number's digits gives the number. */
  lemma {:induction false} DecimalReads(n: nat)
    ensures ReadsAs(Decimal(n), n)
  {
    var s := Decimal(n);
    var init := s[..|s| - 1];
    if n < 10 {
      assert init == "";
    } else {
      DecimalReads(n / 10);
      assert init == Decimal(n / 10);
    }
  }

  /** A configuration whose fields are filled in place. */
  class Config {
    var c: ProxyConfig

    constructor (initial: ProxyConfig)
      ensures c == initial
    {
      c := initial;
    }

    method MergeFields(from: Option<ProxyConfig>)
      modifies this
      ensures c == if from.None? then old(c) else Layer(old(c), from.value)
    {
      if from.None? {
        return;
      }
      if c.httpProxy == "" {
        c := c.(httpProxy := from.value.httpProxy);
      }
      if c.httpsProxy == "" {
        c := c.(httpsProxy := from.value.httpsProxy);
      }
      if c.noProxy == "" {
        c := c.(noProxy := from.value.noProxy);
      }
      if c.provisioning == "" {
        c := c.(provisioning := from.value.provisioning);
      }
    }
  }

  function OrEmpty(c: Option<ProxyConfig>): ProxyConfig {
    if c.None? then Empty else c.value
  }

  /** `resolveProxyConfiguration`: the ExternalSecretsConfig first, then the ExternalSecretsManager,
      then the operator's own environment. */
  method ResolveProxyConfiguration(esc: Option<ProxyConfig>, esm: Option<ProxyConfig>, olm: ProxyConfig,
                                   parse: string -> Option<Url>) returns (r: Resolution)
    ensures r == Resolve([OrEmpty(esc), OrEmpty(esm), olm.(provisioning := "")], parse)
  {
    var config := new Config(OrEmpty(esc));
    config.MergeFields(esm);
    config.MergeFields(if HasUrls(olm) then Some(olm.(provisioning := "")) else None);
    ghost var sources := [OrEmpty(esc), OrEmpty(esm), olm.(provisioning := "")];
    ThreeLayers(OrEmpty(esc), OrEmpty(esm), olm.(provisioning := ""));
    assert config.c == Layered(sources);
    if !HasUrls(config.c) {
      return NoProxy;
    }
    if !ValidUrl(config.c.httpProxy, parse) || !ValidUrl(config.c.httpsProxy, parse) {
      return Invalid;
    }
    return Resolved(config.c);
  }

  // ---------- the ports of the egress policy ----------

  function Lower(s: string): string {
    seq(|s|, i requires 0 <= i < |s| => if 'A' <= s[i] <= 'Z' then s[i] - 'A' + 'a' else s[i])
  }

  function SchemePort(scheme: string): nat {
    if Lower(scheme) == "https" then 443 else if Lower(scheme) == "http" then 80 else 0
  }

  /** The port a URL stands for, 0 when it gives none: a port that is 0 or does not convert counts as
      no port. */
  function PortOf(raw: string, parse: string -> Option<Url>): int {
    if raw == "" || parse(raw).None? then 0
    else
      var u := parse(raw).value;
      var explicit := if Atoi(u.port).Some? then Atoi(u.port).value else 0;
      if explicit != 0 then explicit else SchemePort(u.scheme)
  }

  /** `extractProxyPorts`: the HTTPS URL first, a port only once. */
  method ExtractProxyPorts(c: ProxyConfig, parse: string -> Option<Url>) returns (ports: seq<int>)
    ensures forall p :: p in ports <==> p > 0 && (p == PortOf(c.httpsProxy, parse) || p == PortOf(c.httpProxy, parse))
    ensures forall i, j :: 0 <= i < j < |ports| ==> ports[i] != ports[j]
    ensures ports != [] && PortOf(c.httpsProxy, parse) > 0 ==> ports[0] == PortOf(c.httpsProxy, parse)
    ensures |ports| <= 2
  {
    var seen: set<int> := {};
    ports := [];
    var raws := [c.httpsProxy, c.httpProxy];
    for i := 0 to 2
      invariant forall p :: p in seen <==> p in ports
      invariant forall p :: p in ports <==> p > 0 && exists k :: 0 <= k < i && PortOf(raws[k], parse) == p
      invariant forall a, b :: 0 <= a < b < |ports| ==> ports[a] != ports[b]
      invariant |ports| <= i
      invariant i > 0 && PortOf(raws[0], parse) > 0 ==> ports != [] && ports[0] == PortOf(raws[0], parse)
    {
      var port := PortOf(raws[i], parse);
      if port > 0 && port !in seen {
        seen := seen + {port};
        ports := ports + [port];
      }
    }
    assert raws[0] == c.httpsProxy && raws[1] == c.httpProxy;
  }

  /** A set URL tells a port: it has one, or a scheme with a default. */
  predicate TellsPort(raw: string, parse: string -> Option<Url>) {
    raw != "" && parse(raw).Some? && (parse(raw).value.port != "" || Lower(parse(raw).value.scheme) in {"http", "https"})
  }

  lemma ValidPort(raw: string, parse: string -> Option<Url>)
    requires ValidUrl(raw, parse)
    ensures 0 <= PortOf(raw, parse) <= 65535
    ensures PortOf(raw, parse) > 0 <==> TellsPort(raw, parse)
    ensures raw != "" && parse(raw).value.port != "" ==> Some(PortOf(raw, parse)) == Atoi(parse(raw).value.port)
    ensures raw != "" && parse(raw).value.port == "" && Lower(parse(raw).value.scheme) == "https" ==> PortOf(raw, parse) == 443
    ensures raw != "" && parse(raw).value.port == "" && Lower(parse(raw).value.scheme) == "http" ==> PortOf(raw, parse) == 80
  {
  }

  /** The ports that a resolved configuration opens are real ports, and there is none exactly when no
      set URL has a port or an http or https scheme. */
  method ResolvedPorts(sources: seq<ProxyConfig>, parse: string -> Option<Url>) returns (ports: seq<int>)
    requires Resolve(sources, parse).Resolved?
    ensures |ports| <= 2 && forall i, j :: 0 <= i < j < |ports| ==> ports[i] != ports[j]
    ensures forall i :: 0 <= i < |ports| ==> 1 <= ports[i] <= 65535
    ensures var c := Layered(sources);
      ports == [] <==> !TellsPort(c.httpsProxy, parse) && !TellsPort(c.httpProxy, parse)
  {
    var c := Layered(sources);
    ValidPort(c.httpsProxy, parse);
    ValidPort(c.httpProxy, parse);
    ports := ExtractProxyPorts(c, parse);
    forall i | 0 <= i < |ports| ensures 1 <= ports[i] <= 65535 {
      assert ports[i] in ports;
    }
    assert PortOf(c.httpsProxy, parse) > 0 ==> PortOf(c.httpsProxy, parse) in ports;
    assert PortOf(c.httpProxy, parse) > 0 ==> PortOf(c.httpProxy, parse) in ports;
    assert ports != [] ==> ports[0] in ports;
  }

  // ---------- the egress policy object ----------

  /** Whether the egress policy should exist: a proxy endpoint is set and provisioning is managed, as
      it is by default. */
  predicate ShouldExist(r: Resolution) {
    && r.Resolved?
    && (r.config.httpProxy != "" || r.config.httpsProxy != "")
    && (r.config.provisioning == "" || r.config.provisioning == "Managed")
  }

  /** What becomes of the policy.  `Unbuilt`: the builder returned no object, and the caller goes on to
      create or compare it. */
  datatype Egress = Nothing | Removed | Applied(ports: seq<int>) | Unbuilt

  /** `buildProxyEgressNetworkPolicy`, as far as its ports: no object when there is no port. */
  method BuildEgress(c: ProxyConfig, parse: string -> Option<Url>) returns (r: Option<seq<int>>)
    ensures r.None? <==> PortOf(c.httpsProxy, parse) <= 0 && PortOf(c.httpProxy, parse) <= 0
    ensures r.Some? ==> forall p :: p in r.value <==>
      p > 0 && (p == PortOf(c.httpsProxy, parse) || p == PortOf(c.httpProxy, parse))
  {
    var ports := ExtractProxyPorts(c, parse);
    if ports == [] {
      assert PortOf(c.httpsProxy, parse) !in ports && PortOf(c.httpProxy, parse) !in ports;
      return None;
    }
    assert ports[0] in ports;
    return Some(ports);
  }

  /** `reconcileProxyEgressPolicy`: the missing object is used if and only if the policy should exist
      and no set URL has a port or an http or https scheme. */
  method ReconcileProxyEgressPolicy(sources: seq<ProxyConfig>, present: bool, parse: string -> Option<Url>) returns (r: Egress)
    requires !Resolve(sources, parse).Invalid?
    ensures var c := Layered(sources);
      r.Unbuilt? <==> ShouldExist(Resolve(sources, parse)) && !TellsPort(c.httpsProxy, parse) && !TellsPort(c.httpProxy, parse)
    ensures var c := Layered(sources);
      (r.Nothing? || r.Removed?) <==>
        (c.httpProxy == "" && c.httpsProxy == "") || (c.provisioning != "" && c.provisioning != "Managed")
    ensures r.Removed? ==> present
    ensures r.Nothing? ==> !present
    ensures r.Applied? ==> forall p :: p in r.ports <==>
      p > 0 && (p == PortOf(Layered(sources).httpsProxy, parse) || p == PortOf(Layered(sources).httpProxy, parse))
    ensures r.Applied? ==> forall p :: p in r.ports ==> 1 <= p <= 65535
  {
    hide Atoi;
    var resolution := Resolve(sources, parse);
    if !ShouldExist(resolution) {
      return if present then Removed else Nothing;
    }
    var c := resolution.config;
    ValidPort(c.httpsProxy, parse);
    ValidPort(c.httpProxy, parse);
    var policy := BuildEgress(c, parse);
    return if policy.None? then Unbuilt else Applied(policy.value);
  }

  /** Such a configuration exists: a SOCKS proxy without a port is valid, its policy should exist, and
      it tells no port. */
  lemma SocksIsUnbuilt(parse: string -> Option<Url>)
    requires parse("socks5://proxy") == Some(Url("socks5", "proxy", ""))
    ensures ShouldExist(Resolve([ProxyConfig("", "socks5://proxy", "", "")], parse))
    ensures !TellsPort("socks5://proxy", parse) && !TellsPort("", parse)
  {
    var c := ProxyConfig("", "socks5://proxy", "", "");
    assert [c][..0] == [];
    assert Layered([c]) == c;
    assert |Lower("socks5")| == 6;
  }
}
