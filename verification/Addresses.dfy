/**
 Tunnel addresses: parsing and printing of IPv4 networks, the subnet and server address derived
 from an interface address, and allocation of the next free peer address.
 */
module Addresses {
  import opened Wrappers
  import opened Text
  import opened Strings
  import opened Decimal

  datatype IPv4 = IPv4(a: nat, b: nat, c: nat, d: nat)

  predicate Valid(ip: IPv4) { ip.a < 256 && ip.b < 256 && ip.c < 256 && ip.d < 256 }

  function Dotted3(ip: IPv4): string { ItoaNat(ip.a) + "." + ItoaNat(ip.b) + "." + ItoaNat(ip.c) }

  /** `net.IP.String`. */
  function Format(ip: IPv4): string { Dotted3(ip) + "." + ItoaNat(ip.d) }

  /** One field of a dotted address: digits without a leading zero, at most 255. */
  function ParseOctet(s: string): Option<nat> {
    if s != "" && AllDigits(s) && (s[0] == '0' ==> |s| == 1) && Value(s) <= 255 then Some(Value(s)) else None
  }

  function ParseIPv4(s: string): Option<IPv4> {
    var f := Split(s, '.');
    if |f| != 4 then None
    else
      match (ParseOctet(f[0]), ParseOctet(f[1]), ParseOctet(f[2]), ParseOctet(f[3]))
      case (Some(a), Some(b), Some(c), Some(d)) => Some(IPv4(a, b, c, d))
      case _ => None
  }

  /** `net.ParseCIDR` for IPv4: the address as written and the prefix length. */
  function ParseCIDR(s: string): Option<(IPv4, nat)> {
    var f := Split(s, '/');
    if |f| != 2 then None
    else
      match ParseIPv4(f[0])
      case None => None
      case Some(ip) =>
        if f[1] != "" && AllDigits(f[1]) && Value(f[1]) <= 32 then Some((ip, Value(f[1]))) else None
  }

  /** "10.8.1.1/24" to "10.8.1.0/24"; empty if it is no IPv4 network. */
  function DeriveSubnet(address: string): string {
    match ParseCIDR(address)
    case None => ""
    case Some((ip, _)) => Dotted3(ip) + ".0/24"
  }

  /** "10.8.1.1/24" to "10.8.1.1"; the whole text if no slash follows a first character. */
  function DeriveServerIP(address: string): string {
    var f := Split(address, '/');
    if |f| > 1 && f[0] != "" then f[0] else address
  }

  /** `strings.TrimSuffix(subnet, ".0/24") + ".1"`. */
  function ServerIPFromSubnet(subnet: string): string {
    var n := |subnet| - 5;
    (if n >= 0 && subnet[n..] == ".0/24" then subnet[..n] else subnet) + ".1"
  }

  // ---------- allocation ----------

  datatype Peer = Peer(publicKey: string, allowedIPs: string)

  /** The part of an octet that its share of the prefix keeps. */
  function MaskOctet(o: nat, bits: int): (m: nat)
    ensures m <= o
  {
    var unit := if bits >= 8 then 1 else if bits <= 0 then 256 else [256, 128, 64, 32, 16, 8, 4, 2][bits];
    o - o % unit
  }

  /** The network of a prefix; only its first three octets are ever used. */
  function Network(ip: IPv4, bits: nat): IPv4 {
    IPv4(MaskOctet(ip.a, bits), MaskOctet(ip.b, bits - 8), MaskOctet(ip.c, bits - 16), MaskOctet(ip.d, bits - 24))
  }

  /** The address in one entry of an AllowedIPs list. */
  function AddressOf(entry: string): string { TrimSpace(Split(entry, '/')[0]) }

  function AddressesOf(entries: seq<string>): set<string> {
    set i | 0 <= i < |entries| && AddressOf(entries[i]) != "" :: AddressOf(entries[i])
  }

  function Occupied(peers: seq<Peer>): set<string> {
    if peers == [] then {}
    else Occupied(peers[..|peers| - 1]) + AddressesOf(Split(peers[|peers| - 1].allowedIPs, ','))
  }

  function Host(net: IPv4, i: nat): string { Format(net.(d := i)) }

  /** The hosts from .2 to .254 that no peer occupies. */
  function FreeHosts(net: IPv4, peers: seq<Peer>): set<nat> {
    set i: nat | 2 <= i < 255 && Host(net, i) !in Occupied(peers)
  }

  ghost predicate IsLeast(i: nat, s: set<nat>) { i in s && forall j :: j in s ==> i <= j }

  lemma {:induction false} LeastExists(s: set<nat>)
    requires s != {}
    ensures exists i :: IsLeast(i, s)
  {
    var i :| i in s;
    if s == {i} {
      assert IsLeast(i, s);
    } else {
      LeastExists(s - {i});
      var k :| IsLeast(k, s - {i});
      assert forall j :: j in s <==> j == i || j in s - {i};
      assert IsLeast(if k < i then k else i, s);
    }
  }

  /** The least free host, if any host is free. */
  ghost function NextHost(net: IPv4, peers: seq<Peer>): (r: Option<nat>)
    ensures r == None <==> FreeHosts(net, peers) == {}
    ensures r.Some? ==> IsLeast(r.value, FreeHosts(net, peers))
  {
    if FreeHosts(net, peers) == {} then None
    else
      LeastExists(FreeHosts(net, peers));
      var k :| IsLeast(k, FreeHosts(net, peers));
      Some(k)
  }

  /** The address of the least host from .2 to .254 that no peer occupies; None if all are taken. */
  method AllocateNextIP(subnet: string, peers: seq<Peer>) returns (r: Option<string>)
    ensures r.Some? <==> ParseCIDR(subnet).Some? && NextHost(SubnetOf(subnet), peers).Some?
    ensures r.Some? ==> r.value == Host(SubnetOf(subnet), NextHost(SubnetOf(subnet), peers).value)
  {
    var cidr := ParseCIDR(subnet);
    if cidr.None? {
      return None;
    }
    var net := Network(cidr.value.0, cidr.value.1);
    var occupied: set<string> := {};
    for k := 0 to |peers|
      invariant occupied == Occupied(peers[..k])
    {
      assert peers[..k + 1][..k] == peers[..k];
      var entries := Split(peers[k].allowedIPs, ',');
      ghost var before := occupied;
      for j := 0 to |entries|
        invariant occupied == before + AddressesOf(entries[..j])
      {
        var ip := AddressOf(entries[j]);
        AddressesSnoc(entries, j);
        if ip != "" {
          occupied := occupied + {ip};
        }
      }
      assert entries[..|entries|] == entries;
    }
    assert peers[..|peers|] == peers;
    for i := 2 to 255
      invariant forall j :: 2 <= j < i ==> Host(net, j) in occupied
    {
      var candidate := Host(net, i);
      if candidate !in occupied {
        assert i in FreeHosts(net, peers);
        return Some(candidate);
      }
    }
    assert FreeHosts(net, peers) == {};
    r := None;
  }

  /** The network AllocateNextIP walks: the subnet with its host part cleared. */
  function SubnetOf(subnet: string): IPv4 {
    match ParseCIDR(subnet)
    case Some((ip, bits)) => Network(ip, bits)
    case None => IPv4(0, 0, 0, 0)
  }

  lemma AddressesSnoc(entries: seq<string>, j: nat)
    requires j < |entries|
    ensures AddressesOf(entries[..j + 1]) ==
      AddressesOf(entries[..j]) + (if AddressOf(entries[j]) != "" then {AddressOf(entries[j])} else {})
  {
  }

  /** AddPeerForRemote: the peer the server lists once the allocated address was added. */
  function NewPeer(key: string, ip: string): Peer { Peer(key, ip + "/32") }
}
