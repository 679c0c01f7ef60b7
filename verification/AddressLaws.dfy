/** What parsing, deriving and allocating addresses promise, and where allocation falls short. */
module AddressLaws {
  import opened Wrappers
  import opened Text
  import opened Strings
  import opened Decimal
  import opened Addresses

  // ---------- printing and parsing ----------

  lemma OctetRoundTrip(n: nat)
    requires n < 256
    ensures ParseOctet(ItoaNat(n)) == Some(n)
  {
    ValueOfItoa(n);
  }

  predicate Numeric(s: string) { forall i :: 0 <= i < |s| ==> IsDigit(s[i]) || s[i] == '.' }

  lemma FormatShape(ip: IPv4)
    ensures Numeric(Format(ip)) && Trimmed(Format(ip)) && Format(ip) != ""
    ensures '/' !in Format(ip) && ',' !in Format(ip) && '\n' !in Format(ip)
  {
  }

  lemma SplitThree(b: string, c: string, d: string, sep: char)
    requires sep !in b && sep !in c && sep !in d
    ensures Split(b + [sep] + (c + [sep] + d), sep) == [b, c, d]
  {
    SplitCons(b, c + [sep] + d, sep);
    SplitCons(c, d, sep);
    SplitWithoutSeparator(d, sep);
  }

  lemma SplitFormat(ip: IPv4)
    ensures Split(Format(ip), '.') == [ItoaNat(ip.a), ItoaNat(ip.b), ItoaNat(ip.c), ItoaNat(ip.d)]
  {
    var a, b, c, d := ItoaNat(ip.a), ItoaNat(ip.b), ItoaNat(ip.c), ItoaNat(ip.d);
    var bcd := b + ['.'] + (c + ['.'] + d);
    assert Format(ip) == a + ['.'] + bcd;
    SplitCons(a, bcd, '.');
    SplitThree(b, c, d, '.');
  }

  /** Printing an address and parsing it back is the identity. */
  lemma ParseOfFormat(ip: IPv4)
    requires Valid(ip)
    ensures ParseIPv4(Format(ip)) == Some(ip)
  {
    SplitFormat(ip);
    OctetRoundTrip(ip.a);
    OctetRoundTrip(ip.b);
    OctetRoundTrip(ip.c);
    OctetRoundTrip(ip.d);
  }

  lemma FormatInjective(x: IPv4, y: IPv4)
    requires Valid(x) && Valid(y) && Format(x) == Format(y)
    ensures x == y
  {
    ParseOfFormat(x);
    ParseOfFormat(y);
  }

  lemma SplitNetwork(ip: IPv4, bits: nat)
    ensures Split(Format(ip) + "/" + ItoaNat(bits), '/') == [Format(ip), ItoaNat(bits)]
  {
    FormatShape(ip);
    SplitAtSeparator(Format(ip), ItoaNat(bits), '/');
    SplitWithoutSeparator(Format(ip), '/');
    SplitWithoutSeparator(ItoaNat(bits), '/');
    assert Format(ip) + "/" + ItoaNat(bits) == Format(ip) + ['/'] + ItoaNat(bits);
  }

  lemma ParseOfNetwork(ip: IPv4, bits: nat)
    requires Valid(ip) && bits <= 32
    ensures ParseCIDR(Format(ip) + "/" + ItoaNat(bits)) == Some((ip, bits))
  {
    SplitNetwork(ip, bits);
    ParseOfFormat(ip);
    ValueOfItoa(bits);
  }

  lemma ServerIPOfSubnet(net: IPv4)
    ensures ServerIPFromSubnet(Dotted3(net) + ".0/24") == Format(net.(d := 1))
  {
  }

  lemma Slash24(ip: IPv4)
    ensures Format(ip) + "/24" == Format(ip) + "/" + ItoaNat(24)
  {
  }

  /**
   From subnet to server address and back: what the provisioner writes as the interface address
   of a /24 gives back that subnet and that server address.
   */
  lemma SubnetRoundTrip(net: IPv4)
    requires Valid(net)
    ensures var subnet := Dotted3(net) + ".0/24"; var address := ServerIPFromSubnet(subnet) + "/24";
      DeriveSubnet(address) == subnet && DeriveServerIP(address) == ServerIPFromSubnet(subnet)
  {
    var server := net.(d := 1);
    ServerIPOfSubnet(net);
    Slash24(server);
    SplitNetwork(server, 24);
    ParseOfNetwork(server, 24);
    FormatShape(server);
  }

  // ---------- every text ----------

  lemma CanonicalOctet(s: string, n: nat)
    ensures ParseOctet(s) == Some(n) <==> n <= 255 && s == ItoaNat(n)
  {
    if ParseOctet(s) == Some(n) { CanonicalNumeral(s); }
    if n <= 255 && s == ItoaNat(n) { OctetRoundTrip(n); }
  }

  /** Digits without a leading zero are the numeral of their number. */
  lemma {:induction false} CanonicalNumeral(s: string)
    requires s != "" && AllDigits(s) && (s[0] == '0' ==> |s| == 1)
    ensures ItoaNat(Value(s)) == s
  {
    var n := |s| - 1;
    if n == 0 {
      assert s[..0] == [];
      assert Value(s) == s[0] as int - '0' as int;
    } else {
      var d := s[n] as int - '0' as int;
      CanonicalNumeral(s[..n]);
      PositiveValue(s[..n]);
      OneMoreDigit(Value(s[..n]), d);
      assert IsDigit(s[n]) && DigitOf(d) == s[n];
      assert s == s[..n] + [s[n]];
    }
  }

  lemma OneMoreDigit(v: nat, d: nat)
    requires v > 0 && d < 10
    ensures ItoaNat(10 * v + d) == ItoaNat(v) + [DigitOf(d)]
  {
    assert (10 * v + d) / 10 == v && (10 * v + d) % 10 == d;
  }

  lemma {:induction false} PositiveValue(s: string)
    requires s != "" && AllDigits(s) && s[0] != '0'
    ensures Value(s) > 0
  {
    if |s| > 1 { PositiveValue(s[..|s| - 1]); } else { assert s[..0] == []; }
  }

  lemma JoinFour(s: string)
    requires |Split(s, '.')| == 4
    ensures var f := Split(s, '.'); s == f[0] + "." + f[1] + "." + f[2] + "." + f[3]
  {
    var a, s1 := CutFirst(s, '.');
    JoinThree(s1);
    var f := Split(s1, '.');
    assert s == a + ['.'] + (f[0] + "." + f[1] + "." + f[2]);
  }

  lemma JoinThree(s: string)
    requires |Split(s, '.')| == 3
    ensures var f := Split(s, '.'); s == f[0] + "." + f[1] + "." + f[2]
  {
    var a, s1 := CutFirst(s, '.');
    var b, s2 := CutFirst(s1, '.');
    LastPiece(s2, '.');
    assert s == a + ['.'] + (b + ['.'] + s2);
  }

  /** The first of several pieces, and the text behind it. */
  lemma CutFirst(s: string, sep: char) returns (a: string, rest: string)
    requires |Split(s, sep)| > 1
    ensures s == a + [sep] + rest && Split(s, sep) == [a] + Split(rest, sep)
  {
    if sep !in s {
      SplitWithoutSeparator(s, sep);
      assert false;
    }
    var k := FirstSeparator(s, sep);
    a, rest := s[..k], s[k + 1..];
    SplitCons(a, rest, sep);
  }

  lemma LastPiece(s: string, sep: char)
    requires |Split(s, sep)| == 1
    ensures Split(s, sep) == [s]
  {
    if sep in s {
      var k := FirstSeparator(s, sep);
      SplitCons(s[..k], s[k + 1..], sep);
      assert false;
    }
    SplitWithoutSeparator(s, sep);
  }

  /** A text is read as an IPv4 address iff it is the printed form of a valid one, and then as that. */
  lemma ParsedIPv4Iff(s: string, ip: IPv4)
    ensures ParseIPv4(s) == Some(ip) <==> Valid(ip) && s == Format(ip)
  {
    if ParseIPv4(s) == Some(ip) {
      var f := Split(s, '.');
      CanonicalOctet(f[0], ip.a);
      CanonicalOctet(f[1], ip.b);
      CanonicalOctet(f[2], ip.c);
      CanonicalOctet(f[3], ip.d);
      JoinFour(s);
    }
    if Valid(ip) && s == Format(ip) { ParseOfFormat(ip); }
  }

  lemma NoSlashInPrefix(t: string)
    requires AllDigits(t)
    ensures '/' !in t
  {
  }

  /** A text is read as a network iff it is an address, a slash and digits for at most 32. */
  lemma ParsedCIDRIff(s: string, ip: IPv4, bits: nat)
    ensures ParseCIDR(s) == Some((ip, bits)) <==>
      exists t :: AllDigits(t) && t != "" && bits == Value(t) <= 32 && Valid(ip) && s == Format(ip) + "/" + t
  {
    if ParseCIDR(s) == Some((ip, bits)) {
      var a, t := CutFirst(s, '/');
      LastPiece(t, '/');
      ParsedIPv4Iff(a, ip);
      assert s == Format(ip) + "/" + t;
    }
    if t :| AllDigits(t) && t != "" && bits == Value(t) <= 32 && Valid(ip) && s == Format(ip) + "/" + t {
      NoSlashInPrefix(t);
      FormatShape(ip);
      SplitCons(Format(ip), t, '/');
      SplitWithoutSeparator(t, '/');
      ParsedIPv4Iff(Format(ip), ip);
    }
  }

  /** Whatever the interface address and its prefix length, the subnet is the /24 around it. */
  lemma DerivedExactly(ip: IPv4, t: string)
    requires Valid(ip) && AllDigits(t) && t != "" && Value(t) <= 32
    ensures DeriveSubnet(Format(ip) + "/" + t) == ItoaNat(ip.a) + "." + ItoaNat(ip.b) + "." + ItoaNat(ip.c) + ".0/24"
    ensures DeriveServerIP(Format(ip) + "/" + t) == Format(ip)
  {
    ParsedCIDRIff(Format(ip) + "/" + t, ip, Value(t));
    FormatShape(ip);
    SplitCons(Format(ip), t, '/');
  }

  /** An address without a slash, or with one in front, is taken for the server's as it stands. */
  lemma ServerIPWithoutSlash(address: string)
    requires '/' !in address || address[0] == '/'
    ensures DeriveServerIP(address) == address
  {
    if '/' !in address {
      SplitWithoutSeparator(address, '/');
    } else {
      SplitCons("", address[1..], '/');
      assert address == "" + ['/'] + address[1..];
    }
  }

  /** A subnet that is no /24 gets the last number appended as it is. */
  lemma ServerIPOfOther(subnet: string, base: string)
    ensures ServerIPFromSubnet(base + ".0/24") == base + ".1"
    ensures (forall b :: subnet != b + ".0/24") ==> ServerIPFromSubnet(subnet) == subnet + ".1"
  {
    var s := base + ".0/24";
    assert s[|s| - 5..] == ".0/24" && s[..|s| - 5] == base;
    if |subnet| >= 5 && subnet[|subnet| - 5..] == ".0/24" {
      assert subnet == subnet[..|subnet| - 5] + ".0/24";
    }
  }

  function Pow2(n: nat): (r: nat)
    ensures r > 0
  {
    if n == 0 then 1 else 2 * Pow2(n - 1)
  }

  /** An octet keeps the bits of the prefix that reach into it: all, none, or the upper ones. */
  lemma MaskedOctet(o: nat, bits: int)
    requires o < 256
    ensures MaskOctet(o, bits) == if bits >= 8 then o else if bits <= 0 then 0 else o - o % Pow2(8 - bits)
  {
    assert Pow2(1) == 2 && Pow2(2) == 4 && Pow2(3) == 8 && Pow2(4) == 16;
    assert Pow2(5) == 32 && Pow2(6) == 64 && Pow2(7) == 128;
  }

  /** The network of an address: its octets masked from the left. */
  lemma NetworkExactly(ip: IPv4, bits: nat)
    requires Valid(ip) && bits <= 32
    ensures var n := Network(ip, bits);
      && n.a == (if bits >= 8 then ip.a else ip.a - ip.a % Pow2(8 - bits))
      && n.b == (if bits >= 16 then ip.b else if bits <= 8 then 0 else ip.b - ip.b % Pow2(16 - bits))
      && n.c == (if bits >= 24 then ip.c else if bits <= 16 then 0 else ip.c - ip.c % Pow2(24 - bits))
  {
    MaskedOctet(ip.a, bits);
    MaskedOctet(ip.b, bits - 8);
    MaskedOctet(ip.c, bits - 16);
    assert bits == 0 ==> Pow2(8) == 256 by { assert Pow2(8) == 2 * Pow2(7) && Pow2(7) == 128; }
  }

  /** On a /24 as the daemon writes it, the allocator walks that network. */
  lemma SubnetOfSlash24(net: IPv4, i: nat)
    requires Valid(net)
    ensures ParseCIDR(Dotted3(net) + ".0/24").Some?
    ensures Host(SubnetOf(Dotted3(net) + ".0/24"), i) ==
      ItoaNat(net.a) + "." + ItoaNat(net.b) + "." + ItoaNat(net.c) + "." + ItoaNat(i)
  {
    var ip := net.(d := 0);
    assert Dotted3(net) + ".0/24" == Format(ip) + "/" + "24" by { assert ItoaNat(0) == "0"; }
    assert Value("24") == 24 by { assert "24"[..1] == "2" && "2"[..0] == ""; }
    ParsedCIDRIff(Dotted3(net) + ".0/24", ip, 24);
  }

  /** The next host is the least number from 2 to 254 whose address no peer has; none iff all are taken. */
  lemma NextHostExactly(net: IPv4, peers: seq<Peer>)
    ensures NextHost(net, peers) == None <==> forall i: nat :: 2 <= i <= 254 ==> Host(net, i) in Occupied(peers)
    ensures NextHost(net, peers).Some? ==>
      var k := NextHost(net, peers).value;
      && 2 <= k <= 254 && Host(net, k) !in Occupied(peers)
      && forall i: nat :: 2 <= i < k ==> Host(net, i) in Occupied(peers)
  {
    forall i: nat | 2 <= i <= 254 && Host(net, i) !in Occupied(peers) ensures i in FreeHosts(net, peers) {}
  }

  /** On the /24 of any network, what AllocateNextIP answers is the least free host of that network. */
  lemma AllocatedOnSlash24(net: IPv4, peers: seq<Peer>)
    requires Valid(net)
    ensures var s := SubnetOf(Dotted3(net) + ".0/24");
      NextHost(s, peers) == NextHost(net, peers) && forall i: nat :: Host(s, i) == Host(net, i)
  {
    var s := SubnetOf(Dotted3(net) + ".0/24");
    forall i: nat ensures Host(s, i) == Host(net, i) { SubnetOfSlash24(net, i); }
    NextHostExactly(s, peers);
    NextHostExactly(net, peers);
    var a, b := NextHost(s, peers), NextHost(net, peers);
    if a.Some? && b.Some? {
      assert Host(s, b.value) == Host(net, b.value) && Host(s, a.value) == Host(net, a.value);
    } else {
      assert forall i: nat :: 2 <= i <= 254 ==> (Host(s, i) in Occupied(peers) <==> Host(net, i) in Occupied(peers));
    }
  }

  /** An address is occupied iff some peer lists it, before a slash or alone, among its entries. */
  lemma {:induction false} OccupiedIff(peers: seq<Peer>, address: string)
    ensures address in Occupied(peers) <==>
      address != "" && exists p, e ::
        p in peers && e in Split(p.allowedIPs, ',') && address == TrimSpace(Split(e, '/')[0])
  {
    if peers != [] {
      var n := |peers| - 1;
      OccupiedIff(peers[..n], address);
      assert peers == peers[..n] + [peers[n]];
      AddressesIff(Split(peers[n].allowedIPs, ','), address);
    }
  }

  lemma AddressesIff(entries: seq<string>, address: string)
    ensures address in AddressesOf(entries) <==>
      address != "" && exists e :: e in entries && address == TrimSpace(Split(e, '/')[0])
  {
    if address != "" && exists e :: e in entries && address == TrimSpace(Split(e, '/')[0]) {
      var e :| e in entries && address == TrimSpace(Split(e, '/')[0]);
      var i :| 0 <= i < |entries| && entries[i] == e;
      assert AddressOf(entries[i]) == address;
    }
  }

  // ---------- the next free address ----------

  lemma HostInjective(net: IPv4, i: nat, j: nat)
    requires Valid(net) && i < 256 && j < 256 && Host(net, i) == Host(net, j)
    ensures i == j
  {
    FormatInjective(net.(d := i), net.(d := j));
  }

  lemma OccupiedSnoc(peers: seq<Peer>, p: Peer)
    ensures Occupied(peers + [p]) == Occupied(peers) + AddressesOf(Split(p.allowedIPs, ','))
  {
  }

  /** The added peer occupies exactly the address it was given. */
  lemma NewPeerOccupies(ip: IPv4, key: string)
    ensures AddressesOf(Split(NewPeer(key, Format(ip)).allowedIPs, ',')) == {Format(ip)}
  {
    var entry := Format(ip) + "/32";
    FormatShape(ip);
    SplitWithoutSeparator(entry, ',');
    SplitAtSeparator(Format(ip), "32", '/');
    SplitWithoutSeparator(Format(ip), '/');
    assert entry == Format(ip) + ['/'] + "32";
    TrimOfTrimmed(Format(ip));
    assert AddressOf([entry][0]) == Format(ip);
  }

  /** Adding a peer at a free host takes exactly that host out of the free ones. */
  lemma AddAtHost(net: IPv4, peers: seq<Peer>, key: string, i: nat)
    requires Valid(net) && i in FreeHosts(net, peers)
    ensures FreeHosts(net, peers + [NewPeer(key, Host(net, i))]) == FreeHosts(net, peers) - {i}
  {
    var after := peers + [NewPeer(key, Host(net, i))];
    OccupiedSnoc(peers, NewPeer(key, Host(net, i)));
    NewPeerOccupies(net.(d := i), key);
    forall j: nat | 2 <= j < 255 ensures j in FreeHosts(net, after) <==> j in FreeHosts(net, peers) - {i} {
      if Host(net, j) == Host(net, i) { HostInjective(net, i, j); }
    }
  }

  // ---------- runs of AddPeerForRemote ----------

  /** The peer list after peers at these hosts were added to it. */
  function WithHosts(net: IPv4, peers: seq<Peer>, hosts: seq<nat>): seq<Peer> {
    if hosts == [] then peers
    else
      var n := |hosts| - 1;
      WithHosts(net, peers, hosts[..n]) + [NewPeer("", Host(net, hosts[n]))]
  }

  /** The hosts that n additions get, in order; an addition that finds none adds none. */
  ghost function Given(net: IPv4, peers: seq<Peer>, n: nat): seq<nat> {
    if n == 0 then [] else OneAddition(net, peers, Given(net, peers, n - 1))
  }

  ghost function OneAddition(net: IPv4, peers: seq<Peer>, hosts: seq<nat>): seq<nat> {
    match NextHost(net, WithHosts(net, peers, hosts))
    case Some(i) => hosts + [i]
    case None => hosts
  }

  predicate Distinct(hosts: seq<nat>) {
    forall i, j :: 0 <= i < j < |hosts| ==> hosts[i] != hosts[j]
  }

  function Without(free: set<nat>, hosts: seq<nat>): set<nat> {
    set h | h in free && h !in hosts
  }

  lemma TakeOne(free: set<nat>, hosts: seq<nat>, i: nat)
    requires Distinct(hosts) && i in Without(free, hosts)
    ensures Distinct(hosts + [i]) && Without(free, hosts + [i]) == Without(free, hosts) - {i}
    ensures |Without(free, hosts + [i])| == |Without(free, hosts)| - 1
  {
  }

  /** Each addition takes one host, never taken before, out of the free ones, and no other. */
  ghost predicate Accounted(net: IPv4, peers: seq<Peer>, hosts: seq<nat>) {
    && Distinct(hosts)
    && (forall h :: h in hosts ==> h in FreeHosts(net, peers))
    && FreeHosts(net, WithHosts(net, peers, hosts)) == Without(FreeHosts(net, peers), hosts)
    && |FreeHosts(net, WithHosts(net, peers, hosts))| == |FreeHosts(net, peers)| - |hosts|
  }

  lemma OneMore(net: IPv4, peers: seq<Peer>, hosts: seq<nat>, i: nat)
    requires Valid(net) && Accounted(net, peers, hosts)
    requires i in FreeHosts(net, WithHosts(net, peers, hosts))
    ensures Accounted(net, peers, hosts + [i])
  {
    AddAtHost(net, WithHosts(net, peers, hosts), "", i);
    TakeOne(FreeHosts(net, peers), hosts, i);
    assert (hosts + [i])[..|hosts|] == hosts;
  }

  lemma NoneAdded(net: IPv4, peers: seq<Peer>)
    ensures Accounted(net, peers, [])
  {
  }

  lemma AdditionKeepsAccount(net: IPv4, peers: seq<Peer>, hosts: seq<nat>)
    requires Valid(net) && Accounted(net, peers, hosts)
    ensures Accounted(net, peers, OneAddition(net, peers, hosts))
  {
    var next := NextHost(net, WithHosts(net, peers, hosts));
    if next.Some? { OneMore(net, peers, hosts, next.value); }
  }

  lemma {:induction false} AdditionsAreAccounted(net: IPv4, peers: seq<Peer>, n: nat)
    requires Valid(net)
    ensures Accounted(net, peers, Given(net, peers, n))
  {
    if n > 0 {
      AdditionsAreAccounted(net, peers, n - 1);
      AdditionKeepsAccount(net, peers, Given(net, peers, n - 1));
    } else {
      NoneAdded(net, peers);
    }
  }

  /** Addition n + 1 gets the least of the hosts left over, if any is left. */
  lemma NextGiven(net: IPv4, peers: seq<Peer>, n: nat) returns (left: set<nat>, i: nat)
    requires Valid(net)
    ensures left == Without(FreeHosts(net, peers), Given(net, peers, n))
    ensures |left| == |FreeHosts(net, peers)| - |Given(net, peers, n)|
    ensures if left == {} then Given(net, peers, n + 1) == Given(net, peers, n)
            else IsLeast(i, left) && Given(net, peers, n + 1) == Given(net, peers, n) + [i]
  {
    AdditionsAreAccounted(net, peers, n);
    left := Without(FreeHosts(net, peers), Given(net, peers, n));
    var next := NextHost(net, WithHosts(net, peers, Given(net, peers, n)));
    i := if next.Some? then next.value else 0;
  }

  /** Every addition gets an address no peer had before, and no two get the same. */
  lemma AddressesStayDistinct(net: IPv4, peers: seq<Peer>, n: nat)
    requires Valid(net)
    ensures var given := Given(net, peers, n);
      && (forall k :: 0 <= k < |given| ==> Host(net, given[k]) !in Occupied(peers))
      && (forall i, j :: 0 <= i < j < |given| ==> Host(net, given[i]) != Host(net, given[j]))
  {
    AdditionsAreAccounted(net, peers, n);
    var given := Given(net, peers, n);
    assert forall k :: 0 <= k < |given| ==> given[k] in given;
    forall i, j | 0 <= i < j < |given| ensures Host(net, given[i]) != Host(net, given[j]) {
      if Host(net, given[i]) == Host(net, given[j]) { HostInjective(net, given[i], given[j]); }
    }
  }

  lemma GivenCount(net: IPv4, peers: seq<Peer>, n: nat)
    requires Valid(net)
    ensures var free, given := |FreeHosts(net, peers)|, |Given(net, peers, n)|;
      given <= free && |Given(net, peers, n + 1)| == if given < free then given + 1 else given
  {
    var left, i := NextGiven(net, peers, n);
    assert left == {} <==> |left| == 0;
  }

  /** n additions succeed as often as there are free hosts, and no more. */
  lemma SuccessesAreFreeHosts(net: IPv4, peers: seq<Peer>, n: nat)
    requires Valid(net)
    ensures |Given(net, peers, n)| == Min(n, |FreeHosts(net, peers)|)
  {
    for k := 0 to n
      invariant |Given(net, peers, k)| == Min(k, |FreeHosts(net, peers)|)
    {
      GivenCount(net, peers, k);
    }
  }

  function Min(a: nat, b: nat): nat { if a < b then a else b }

  predicate Between(lo: int, i: int, hi: int) { lo <= i < hi }

  function HostRange(lo: nat, hi: nat): set<nat> {
    set i: nat | lo <= i < hi && Between(lo, i, hi)
  }

  lemma {:induction false} CountHosts(lo: nat, hi: nat)
    requires lo <= hi
    ensures |HostRange(lo, hi)| == hi - lo
    decreases hi
  {
    if lo == hi {
      assert HostRange(lo, hi) == {};
    } else {
      CountHosts(lo, hi - 1);
      assert forall i :: Between(lo, i, hi) <==> Between(lo, i, hi - 1) || i == hi - 1;
      assert HostRange(lo, hi) == HostRange(lo, hi - 1) + {hi - 1};
    }
  }

  lemma NothingOccupied(net: IPv4)
    ensures FreeHosts(net, []) == HostRange(2, 255)
  {
  }

  /** A server without peers takes exactly 253 of them. */
  lemma EmptyServerTakes253(net: IPv4, n: nat)
    requires Valid(net)
    ensures |Given(net, [], n)| == if n <= 253 then n else 253
  {
    NothingOccupied(net);
    CountHosts(2, 255);
    SuccessesAreFreeHosts(net, [], n);
  }

  predicate InOrder(hosts: seq<nat>) { forall i :: 0 <= i < |hosts| ==> hosts[i] == i + 2 }

  /** An empty server fills up in order: .2, .3, ..., .254. */
  lemma {:induction false} EmptyServerInOrder(net: IPv4, n: nat)
    requires Valid(net) && n <= 253
    ensures |Given(net, [], n)| == n && InOrder(Given(net, [], n))
  {
    EmptyServerTakes253(net, n);
    if n > 0 {
      EmptyServerInOrder(net, n - 1);
      EmptyServerTakes253(net, n - 1);
      NothingOccupied(net);
      var left, i := NextGiven(net, [], n - 1);
      NextInOrder(Given(net, [], n - 1), i);
    }
  }

  lemma NextInOrder(hosts: seq<nat>, i: nat)
    requires |hosts| < 253 && InOrder(hosts) && IsLeast(i, Without(HostRange(2, 255), hosts))
    ensures InOrder(hosts + [i])
  {
    assert Between(2, |hosts| + 2, 255) && |hosts| + 2 in Without(HostRange(2, 255), hosts);
    forall j | 2 <= j < |hosts| + 2 ensures j in hosts { assert hosts[j - 2] == j; }
  }

  /** As many additions as there are free hosts hand out every one of them. */
  lemma AllFreeHostsGiven(net: IPv4, peers: seq<Peer>)
    requires Valid(net)
    ensures forall h :: h in FreeHosts(net, peers) ==> h in Given(net, peers, |FreeHosts(net, peers)|)
  {
    var free := FreeHosts(net, peers);
    var given := Given(net, peers, |free|);
    SuccessesAreFreeHosts(net, peers, |free|);
    AdditionsAreAccounted(net, peers, |free|);
    assert |Without(free, given)| == 0;
    forall h | h in free ensures h in given || h in Without(free, given) {}
  }

  /** Some number of additions to these peers hands out this address. */
  ghost predicate EverGiven(net: IPv4, peers: seq<Peer>, address: string) {
    exists n: nat, h: nat :: h in Given(net, peers, n) && Host(net, h) == address
  }

  /**
   The server's own address is never marked as occupied. Whatever peers there are, some run of
   additions hands it out iff its host number lies in the range the allocator walks and no peer
   holds it already.
   */
  lemma ServerAddressHandedOutIff(server: IPv4, peers: seq<Peer>)
    requires Valid(server)
    ensures EverGiven(server, peers, Format(server)) <==> 2 <= server.d <= 254 && Format(server) !in Occupied(peers)
  {
    assert server.(d := server.d) == server;
    assert Host(server, server.d) == Format(server);
    if n: nat, h: nat :| h in Given(server, peers, n) && Host(server, h) == Format(server) {
      AdditionsAreAccounted(server, peers, n);
      HostInjective(server, h, server.d);
    }
    if 2 <= server.d <= 254 && Format(server) !in Occupied(peers) {
      AllFreeHostsGiven(server, peers);
      assert server.d in FreeHosts(server, peers);
    }
  }

  /** No peer list makes the allocator hand out the address the provisioner gave the server of a /24. */
  lemma ProvisionedServerKeepsItsAddress(net: IPv4, peers: seq<Peer>)
    requires Valid(net)
    ensures !EverGiven(net, peers, ServerIPFromSubnet(Dotted3(net) + ".0/24"))
  {
    var server := net.(d := 1);
    ServerIPOfSubnet(net);
    if n: nat, h: nat :| h in Given(net, peers, n) && Host(net, h) == Format(server) {
      AdditionsAreAccounted(net, peers, n);
      HostInjective(net, h, 1);
    }
  }

  /**
   A peer dump that could not be read is taken for an empty one, so the allocator then starts
   over: the address it returns is already taken iff that happened and .2 is occupied.
   */
  lemma CollisionIffDumpUnread(net: IPv4, peers: seq<Peer>, dumpRead: bool)
    requires Valid(net)
    ensures var host := NextHost(net, if dumpRead then peers else []);
      (host.Some? && Host(net, host.value) in Occupied(peers)) <==> !dumpRead && Host(net, 2) in Occupied(peers)
  {
    NothingOccupied(net);
    assert Between(2, 2, 255) && 2 in HostRange(2, 255);
  }
}
