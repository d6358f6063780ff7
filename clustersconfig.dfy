/**
 * The cluster configuration (clustersconfig/clustersconfig.go): hosts, groups, clusters,
 * templates and certificate requests, the lookups by name, IP and MAC address, the
 * `indent` template helper and the service addresses of a cluster.
 */
module ClustersConfig {
  import opened Wrappers
  import opened Bytes
  import opened Text
  import opened Lookup
  import opened Seqs

  /** A host served by this server; its free-form `Vars` are not modelled. */
  datatype Host = Host(
    name: string, mac: string, ip: string, ips: seq<string>, cluster: string, group: string)

  /** A group of hosts and their boot configuration; its `Vars` are not modelled. */
  datatype Group = Group(
    name: string, master: bool, ipxe: string, kernel: string, initrd: string,
    config: string, staticPods: string, versions: map<string, string>)

  datatype Subnets = Subnets(services: string, pods: string)

  /** The network address `net.ParseCIDR` gives: 4 bytes for IPv4, 16 for IPv6. */
  type NetIP = s: seq<byte> | |s| == 4 || |s| == 16 witness [0, 0, 0, 0]

  /** A cluster of hosts; its `Vars` are not modelled. */
  datatype Cluster = Cluster(name: string, domain: string, subnets: Subnets) {

    /**
     * `NthSvcIP(n)`: the services network address with n added to its last byte, which
     * wraps around at 256 as Go's byte addition does. An unparsable services CIDR, on
     * which the source panics, is the Failure outcome.
     */
    method NthSvcIP(parseCIDR: string -> Result<NetIP, string>, n: byte) returns (r: Result<array<byte>, string>)
      ensures r.Failure? <==> parseCIDR(subnets.services).Failure?
      ensures r.Success? ==> fresh(r.value) && r.value[..] == SvcIP(parseCIDR(subnets.services).value, n)
    {
      var parsed := parseCIDR(subnets.services);
      if parsed.Failure? {
        return Failure("Invalid services CIDR: " + parsed.error);
      }
      var net := parsed.value;
      var ip := new byte[|net|](i requires 0 <= i < |net| => net[i]);
      ip[ip.Length - 1] := (ip[ip.Length - 1] + n) % 256;
      return Success(ip);
    }

    /** `KubernetesSvcIP()`: the first address after the services network address. */
    method KubernetesSvcIP(parseCIDR: string -> Result<NetIP, string>) returns (r: Result<array<byte>, string>)
      ensures r.Failure? <==> parseCIDR(subnets.services).Failure?
      ensures r.Success? ==> fresh(r.value) && r.value[..] == SvcIP(parseCIDR(subnets.services).value, 1)
    {
      r := NthSvcIP(parseCIDR, 1);
    }

    /** `DNSSvcIP()`: the second address after the services network address. */
    method DNSSvcIP(parseCIDR: string -> Result<NetIP, string>) returns (r: Result<array<byte>, string>)
      ensures r.Failure? <==> parseCIDR(subnets.services).Failure?
      ensures r.Success? ==> fresh(r.value) && r.value[..] == SvcIP(parseCIDR(subnets.services).value, 2)
    {
      r := NthSvcIP(parseCIDR, 2);
    }
  }

  datatype Template = Template(name: string, template: string)

  datatype CertRequest = CertRequest(
    template: Template, ca: string, profile: string, certLabel: string, perHost: bool)

  datatype Config = Config(
    hosts: seq<Host>, groups: seq<Group>, clusters: seq<Cluster>, configs: seq<Template>,
    staticPods: seq<Template>, sslConfig: string, certRequests: seq<CertRequest>)
  {
    /** `Host(name)`: the first host with that name. */
    function Host(name: string): (r: Option<Host>)
      ensures r.None? <==> forall i :: 0 <= i < |hosts| ==> hosts[i].name != name
      ensures r.Some? ==> exists i :: 0 <= i < |hosts| && hosts[i] == r.value && r.value.name == name
                                      && forall j :: 0 <= j < i ==> hosts[j].name != name
    {
      FirstMatch(hosts, (h: Host) => h.name == name)
    }

    /** `HostByIP(ip)`: the first host whose primary IP, or one of whose other IPs, is ip. */
    function HostByIP(ip: string): (r: Option<Host>)
      ensures r.None? <==> forall i :: 0 <= i < |hosts| ==> hosts[i].ip != ip && ip !in hosts[i].ips
      ensures r.Some? ==> exists i :: 0 <= i < |hosts| && hosts[i] == r.value
                                      && (r.value.ip == ip || ip in r.value.ips)
                                      && forall j :: 0 <= j < i ==> hosts[j].ip != ip && ip !in hosts[j].ips
    {
      FirstMatch(hosts, (h: Host) => h.ip == ip || ip in h.ips)
    }

    /**
     * `HostByMAC(mac)`: the first host whose lower-cased MAC equals the query lower-cased
     * with '-' turned into ':'. The stored MAC is not dash-normalised.
     */
    function HostByMAC(mac: string): (r: Option<Host>)
      ensures r.None? <==> forall i :: 0 <= i < |hosts| ==> Lower(hosts[i].mac) != NormalizeMac(mac)
      ensures r.Some? ==> exists i :: 0 <= i < |hosts| && hosts[i] == r.value
                                      && Lower(r.value.mac) == NormalizeMac(mac)
                                      && forall j :: 0 <= j < i ==> Lower(hosts[j].mac) != NormalizeMac(mac)
    {
      var key := NormalizeMac(mac);
      FirstMatch(hosts, (h: Host) => Lower(h.mac) == key)
    }

    /** `Group(name)`. */
    function Group(name: string): (r: Option<Group>)
      ensures r.None? <==> forall i :: 0 <= i < |groups| ==> groups[i].name != name
      ensures r.Some? ==> exists i :: 0 <= i < |groups| && groups[i] == r.value && r.value.name == name
                                      && forall j :: 0 <= j < i ==> groups[j].name != name
    {
      FirstMatch(groups, (g: Group) => g.name == name)
    }

    /** `Cluster(name)`. */
    function Cluster(name: string): (r: Option<Cluster>)
      ensures r.None? <==> forall i :: 0 <= i < |clusters| ==> clusters[i].name != name
      ensures r.Some? ==> exists i :: 0 <= i < |clusters| && clusters[i] == r.value && r.value.name == name
                                      && forall j :: 0 <= j < i ==> clusters[j].name != name
    {
      FirstMatch(clusters, (c: Cluster) => c.name == name)
    }

    /** `ConfigTemplate(name)`. */
    function ConfigTemplate(name: string): (r: Option<Template>)
      ensures r.None? <==> forall i :: 0 <= i < |configs| ==> configs[i].name != name
      ensures r.Some? ==> exists i :: 0 <= i < |configs| && configs[i] == r.value && r.value.name == name
                                      && forall j :: 0 <= j < i ==> configs[j].name != name
    {
      FirstMatch(configs, (t: Template) => t.name == name)
    }

    /** `StaticPodsTemplate(name)`. */
    function StaticPodsTemplate(name: string): (r: Option<Template>)
      ensures r.None? <==> forall i :: 0 <= i < |staticPods| ==> staticPods[i].name != name
      ensures r.Some? ==> exists i :: 0 <= i < |staticPods| && staticPods[i] == r.value && r.value.name == name
                                      && forall j :: 0 <= j < i ==> staticPods[j].name != name
    {
      FirstMatch(staticPods, (t: Template) => t.name == name)
    }

    /** `CSR(name)`: the first certificate request whose inlined template has that name. */
    function CSR(name: string): (r: Option<CertRequest>)
      ensures r.None? <==> forall i :: 0 <= i < |certRequests| ==> certRequests[i].template.name != name
      ensures r.Some? ==> exists i :: 0 <= i < |certRequests| && certRequests[i] == r.value
                                      && r.value.template.name == name
                                      && forall j :: 0 <= j < i ==> certRequests[j].template.name != name
    {
      FirstMatch(certRequests, (s: CertRequest) => s.template.name == name)
    }
  }

  /** The network address with n added to its last byte, modulo 256. */
  function SvcIP(net: NetIP, n: byte): (ip: NetIP)
  {
    net[..|net| - 1] + [(net[|net| - 1] + n) % 256]
  }

  /** The `indent` template function: ind before the text and after every '\n' in it. */
  function Indent(ind: string, s: string): string
  {
    ind + Replace(s, '\n', "\n" + ind)
  }

  // ---------------------------------------------------------------------------------------
  // Properties

  /**
   * NthSvcIP keeps the length and every byte but the last, and as a big-endian number the
   * address moves to n past the start of its 256-address block, wrapping within the block.
   */
  lemma SvcIPValue(net: NetIP, n: byte)
    ensures var ip := SvcIP(net, n);
      && |ip| == |net| && ip[..|ip| - 1] == net[..|net| - 1]
      && BeUint(ip) / 256 == BeUint(net) / 256
      && BeUint(ip) % 256 == (BeUint(net) % 256 + n) % 256
  {
    var ip := SvcIP(net, n);
    assert ip[..|ip| - 1] == net[..|net| - 1];
    var hi := BeUint(net[..|net| - 1]);
    assert BeUint(ip) == hi * 256 + ip[|ip| - 1];
    assert BeUint(net) == hi * 256 + net[|net| - 1];
  }

  /** Adding a then b to the last byte adds a + b modulo 256; adding 0 changes nothing. */
  lemma SvcIPCompose(net: NetIP, a: byte, b: byte)
    ensures SvcIP(SvcIP(net, a), b) == SvcIP(net, (a + b) % 256)
    ensures SvcIP(net, 0) == net
  {
    var x := SvcIP(net, a);
    AppendInit(net[..|net| - 1], [(net[|net| - 1] + a) % 256]);
    AppendEmpty(net[..|net| - 1]);
    AddMod256(net[|net| - 1], a, b);
    InitLast(net);
  }

  lemma AddMod256(x: byte, a: byte, b: byte)
    ensures ((x + a) % 256 + b) % 256 == (x + (a + b) % 256) % 256
    ensures (x + 0) % 256 == x
  {
  }

  /** The DNS service address is the one after the Kubernetes service address. */
  lemma DNSAfterKubernetes(net: NetIP)
    ensures SvcIP(net, 2) == SvcIP(SvcIP(net, 1), 1)
    ensures SvcIP(net, 1) != SvcIP(net, 2)
  {
    SvcIPCompose(net, 1, 1);
    assert SvcIP(net, 1)[|net| - 1] != SvcIP(net, 2)[|net| - 1];
  }

  /** The lines of s with '\n' replaced by "\n" + ind: the first kept, ind before every later one. */
  ghost predicate LinesIndented(ind: string, s: string)
  {
    var lines := Split(s, '\n');
    var out := Split(Replace(s, '\n', "\n" + ind), '\n');
    && |out| == |lines| && out[0] == lines[0]
    && forall i :: 1 <= i < |lines| ==> out[i] == ind + lines[i]
  }

  /** Replacing '\n' by "\n" + ind keeps the first line and puts ind before every later one. */
  lemma {:induction false} ReplaceLines(ind: string, s: string)
    requires '\n' !in ind
    ensures LinesIndented(ind, s)
  {
    if s != [] {
      ReplaceLines(ind, s[1..]);
      if s[0] == '\n' {
        NewlineIndented(ind, s);
      } else {
        CharIndented(ind, s);
      }
    }
  }

  lemma NewlineIndented(ind: string, s: string)
    requires '\n' !in ind && s != [] && s[0] == '\n' && LinesIndented(ind, s[1..])
    ensures LinesIndented(ind, s)
  {
    var r' := Replace(s[1..], '\n', "\n" + ind);
    var r := "\n" + (ind + r');
    Assoc("\n", ind, r');
    assert Replace(s, '\n', "\n" + ind) == r;
    AppendParts("\n", ind + r');
    SplitNoSeparator(ind, r', '\n');
    var lines', out' := Split(s[1..], '\n'), Split(r', '\n');
    var lines, out := Split(s, '\n'), Split(r, '\n');
    assert lines == [[]] + lines';
    assert out == [[]] + ([ind + out'[0]] + out'[1..]);
    forall i | 1 <= i < |lines| ensures out[i] == ind + lines[i] {
      if i > 1 {
        assert out[i] == out'[i - 1];
      }
    }
  }

  lemma CharIndented(ind: string, s: string)
    requires '\n' !in ind && s != [] && s[0] != '\n' && LinesIndented(ind, s[1..])
    ensures LinesIndented(ind, s)
  {
    var r' := Replace(s[1..], '\n', "\n" + ind);
    assert Replace(s, '\n', "\n" + ind) == [s[0]] + r';
    SplitNoSeparator([s[0]], r', '\n');
  }

  /**
   * Every line of `indent(ind, s)` is ind followed by the matching line of s, when ind
   * is a single-line prefix.
   */
  lemma IndentLines(ind: string, s: string)
    requires '\n' !in ind
    ensures var lines := Split(s, '\n');
      var out := Split(Indent(ind, s), '\n');
      && |out| == |lines|
      && forall i :: 0 <= i < |lines| ==> out[i] == ind + lines[i]
  {
    ReplaceLines(ind, s);
    SplitNoSeparator(ind, Replace(s, '\n', "\n" + ind), '\n');
  }

  /** Lookups by MAC ignore letter case and '-' versus ':' in the query. */
  lemma HostByMACAlike(c: Config, a: string, b: string)
    requires |a| == |b| && forall i :: 0 <= i < |a| ==> SameMacChar(a[i], b[i])
    ensures c.HostByMAC(a) == c.HostByMAC(b)
  {
    NormalizeMacAlike(a, b);
  }

  /** A host whose stored MAC contains '-' is never found by MAC, whatever the query. */
  lemma DashedMACNeverFound(c: Config, mac: string)
    ensures var r := c.HostByMAC(mac); r.Some? ==> '-' !in r.value.mac
  {
    var r := c.HostByMAC(mac);
    if r.Some? {
      LowerKeepsDash(r.value.mac);
    }
  }
}
