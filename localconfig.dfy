/**
 * The local configuration (localconfig/localconfig.go): clusters and hosts, and the
 * lookups of a cluster by name and of a host by one of its IPs or MAC addresses.
 */
module LocalConfig {
  import opened Wrappers
  import opened Bytes
  import opened Text
  import opened Lookup

  datatype Cluster = Cluster(name: string, addons: seq<byte>)

  datatype Host = Host(
    name: string, macs: seq<string>, ips: seq<string>, kernel: string, initrd: string,
    layers: map<string, string>, config: seq<byte>)

  /** Some stored MAC of the host, lower-cased, equals key. */
  predicate HasMac(h: Host, key: string)
  {
    exists i :: 0 <= i < |h.macs| && Lower(h.macs[i]) == key
  }

  datatype LocalConfig = LocalConfig(clusters: seq<Cluster>, hosts: seq<Host>) {

    /** `ClusterByName(name)`: the first cluster with that name. */
    function ClusterByName(name: string): (r: Option<Cluster>)
      ensures r.None? <==> forall i :: 0 <= i < |clusters| ==> clusters[i].name != name
      ensures r.Some? ==> exists i :: 0 <= i < |clusters| && clusters[i] == r.value && r.value.name == name
                                      && forall j :: 0 <= j < i ==> clusters[j].name != name
    {
      FirstMatch(clusters, (c: Cluster) => c.name == name)
    }

    /** `HostByIP(ip)`: the first host one of whose IPs is ip. */
    function HostByIP(ip: string): (r: Option<Host>)
      ensures r.None? <==> forall i :: 0 <= i < |hosts| ==> ip !in hosts[i].ips
      ensures r.Some? ==> exists i :: 0 <= i < |hosts| && hosts[i] == r.value && ip in r.value.ips
                                      && forall j :: 0 <= j < i ==> ip !in hosts[j].ips
    {
      FirstMatch(hosts, (h: Host) => ip in h.ips)
    }

    /**
     * `HostByMAC(mac)`: the first host with a stored MAC that, lower-cased, equals the
     * query lower-cased with '-' turned into ':'.
     */
    function HostByMAC(mac: string): (r: Option<Host>)
      ensures r.None? <==> forall i :: 0 <= i < |hosts| ==> !HasMac(hosts[i], NormalizeMac(mac))
      ensures r.Some? ==> exists i :: 0 <= i < |hosts| && hosts[i] == r.value
                                      && HasMac(r.value, NormalizeMac(mac))
                                      && forall j :: 0 <= j < i ==> !HasMac(hosts[j], NormalizeMac(mac))
    {
      var key := NormalizeMac(mac);
      FirstMatch(hosts, (h: Host) => HasMac(h, key))
    }
  }

  // ---------------------------------------------------------------------------------------
  // Properties

  /** A stored MAC containing '-' never matches a query, so it cannot be what finds its host. */
  lemma DashedMACNeverMatches(stored: string, query: string)
    requires '-' in stored
    ensures Lower(stored) != NormalizeMac(query)
  {
    LowerKeepsDash(stored);
  }

  /** A host all of whose MACs contain '-' is never found by MAC. */
  lemma DashedHostNeverFound(c: LocalConfig, mac: string)
    ensures var r := c.HostByMAC(mac);
      r.Some? ==> exists i :: 0 <= i < |r.value.macs| && '-' !in r.value.macs[i]
  {
    var r := c.HostByMAC(mac);
    if r.Some? {
      var key := NormalizeMac(mac);
      var i :| 0 <= i < |r.value.macs| && Lower(r.value.macs[i]) == key;
      LowerKeepsDash(r.value.macs[i]);
    }
  }

  /** Lookups by MAC ignore letter case and '-' versus ':' in the query. */
  lemma HostByMACAlike(c: LocalConfig, a: string, b: string)
    requires |a| == |b| && forall i :: 0 <= i < |a| ==> SameMacChar(a[i], b[i])
    ensures c.HostByMAC(a) == c.HostByMAC(b)
  {
    NormalizeMacAlike(a, b);
  }
}
