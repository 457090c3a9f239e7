/** Choosing the server address a client is told (ServiceContext::getServerIpFromClientIp)
    and reporting the interfaces (DeviceBindingService::GetNetworkInterfaces). */
module ServerAddress {
  import opened Text
  import opened Bits
  import opened Ipv4
  import opened Mac

  /** What the ioctls answer on one open interface; the three words are raw, in network
      order. get_ip(char*) reads `addr` (SIOCGIFADDR) but get_ip(uint32_t*) reads `dstAddr`
      (SIOCGIFDSTADDR); the two differ on point-to-point links. */
  datatype NetIf = NetIf(name: string, hwaddr: MacAddress, addr: uint32, dstAddr: uint32, mask: uint32)

  const LOCALHOST := "127.0.0.1"

  /** get_ip(char*) */
  function AddressText(e: Endian, i: NetIf): string {
    Dotted(Ntohl(e, i.addr))
  }

  lemma AddressTextSpells(e: Endian, i: NetIf)
    ensures Spells(e, i.addr, AddressText(e, i))
  {
    DottedSpells(e, i.addr);
  }

  predicate Matches(i: NetIf, client: uint32) {
    SameMasked(i.dstAddr, client, i.mask)
  }

  /** The least index of a matching interface, or the number of interfaces. */
  function FirstMatch(ifs: seq<NetIf>, client: uint32): (k: nat)
    ensures k <= |ifs|
  {
    if ifs == [] || Matches(ifs[0], client) then 0 else 1 + FirstMatch(ifs[1..], client)
  }

  function ServerIp(e: Endian, ifs: seq<NetIf>, client: uint32): string {
    var k := FirstMatch(ifs, client);
    if |ifs| == 1 then AddressText(e, ifs[0])
    else if k < |ifs| then AddressText(e, ifs[k])
    else LOCALHOST
  }

  /** What a client is told, in terms of host-order addresses: a single interface always
      answers; otherwise the first whose network, under its mask, is the client's; 127.0.0.1 if
      there is none. */
  ghost predicate ServedAs(e: Endian, ifs: seq<NetIf>, client: uint32, ip: string) {
    && (|ifs| == 1 ==> Spells(e, ifs[0].addr, ip))
    && (forall k | |ifs| >= 2 && 0 <= k < |ifs| && FirstOnNetwork(e, ifs, client, k) :: Spells(e, ifs[k].addr, ip))
    && (|ifs| != 1 && NoneOnNetwork(e, ifs, client) ==> ip == "127.0.0.1")
  }

  ghost predicate NoneOnNetwork(e: Endian, ifs: seq<NetIf>, client: uint32) {
    forall j | 0 <= j < |ifs| :: !OnNetwork(e, ifs[j], client)
  }

  ghost predicate FirstOnNetwork(e: Endian, ifs: seq<NetIf>, client: uint32, k: nat)
    requires k < |ifs|
  {
    OnNetwork(e, ifs[k], client) && forall j | 0 <= j < k :: !OnNetwork(e, ifs[j], client)
  }

  /** The host-order client address and the interface's peer address agree under the mask. */
  predicate OnNetwork(e: Endian, i: NetIf, client: uint32) {
    And(client, Ntohl(e, i.mask)) == And(Ntohl(e, i.dstAddr), Ntohl(e, i.mask))
  }

  method GetServerIpFromClientIp(e: Endian, ifs: seq<NetIf>, client: uint32) returns (ip: string)
    ensures ip == ServerIp(e, ifs, client)
    ensures ServedAs(e, ifs, Ntohl(e, client), ip)
  {
    if |ifs| == 1 {
      ServerIpServes(e, ifs, client);
      return AddressText(e, ifs[0]);
    }
    for i := 0 to |ifs|
      invariant forall j | 0 <= j < i :: !Matches(ifs[j], client)
    {
      FirstMatchIs(ifs, client, i);
      if SameMasked(ifs[i].dstAddr, client, ifs[i].mask) {
        ServerIpServes(e, ifs, client);
        return AddressText(e, ifs[i]);
      }
    }
    FirstMatchIs(ifs, client, |ifs|);
    ServerIpServes(e, ifs, client);
    return LOCALHOST;
  }

  lemma {:induction false} FirstMatchIs(ifs: seq<NetIf>, client: uint32, k: nat)
    requires k <= |ifs| && forall j | 0 <= j < k :: !Matches(ifs[j], client)
    ensures FirstMatch(ifs, client) >= k
    ensures k == |ifs| || Matches(ifs[k], client) ==> FirstMatch(ifs, client) == k
  {
    if k > 0 {
      FirstMatchIs(ifs[1..], client, k - 1);
    }
  }

  lemma {:induction false} FirstMatchMeaning(ifs: seq<NetIf>, client: uint32)
    ensures var k := FirstMatch(ifs, client);
            (k < |ifs| ==> Matches(ifs[k], client)) && forall j | 0 <= j < k :: !Matches(ifs[j], client)
  {
    if ifs != [] && !Matches(ifs[0], client) {
      FirstMatchMeaning(ifs[1..], client);
    }
  }

  lemma MatchesIffOnNetwork(e: Endian, i: NetIf, client: uint32)
    ensures Matches(i, client) <==> OnNetwork(e, i, Ntohl(e, client))
  {
    MaskingIgnoresByteOrder(e, i.dstAddr, client, i.mask);
  }

  lemma ServerIpServes(e: Endian, ifs: seq<NetIf>, client: uint32)
    ensures ServedAs(e, ifs, Ntohl(e, client), ServerIp(e, ifs, client))
  {
    forall k | 0 <= k < |ifs| ensures Matches(ifs[k], client) <==> OnNetwork(e, ifs[k], Ntohl(e, client)) {
      MatchesIffOnNetwork(e, ifs[k], client);
    }
    FirstMatchMeaning(ifs, client);
    forall k | |ifs| >= 2 && 0 <= k < |ifs| && FirstOnNetwork(e, ifs, Ntohl(e, client), k)
      ensures Spells(e, ifs[k].addr, ServerIp(e, ifs, client))
    {
      FirstMatchIs(ifs, client, k);
      AddressTextSpells(e, ifs[k]);
    }
    if |ifs| == 1 {
      AddressTextSpells(e, ifs[0]);
    }
  }

  /** The same for a client given in host order, as soap->ip is. */
  lemma ServerIpServesHost(e: Endian, ifs: seq<NetIf>, client: uint32)
    ensures ServedAs(e, ifs, client, ServerIp(e, ifs, Ntohl(e, client)))
  {
    ServerIpServes(e, ifs, Ntohl(e, client));
    NtohlInvolution(e, client);
  }

  /** The answer is always digits and dots. */
  lemma ServerIpShape(e: Endian, ifs: seq<NetIf>, client: uint32)
    ensures DigitsAndDots(ServerIp(e, ifs, client))
  {
    forall i: NetIf ensures DigitsAndDots(AddressText(e, i)) {
      DottedShape(Ntohl(e, i.addr));
    }
  }

  // ---------------------------------------------------------------- order of the interfaces

  /** The two masked networks meet: the addresses agree where both masks are set. */
  predicate SharesClient(x: NetIf, y: NetIf) {
    And(And(x.dstAddr, x.mask), y.mask) == And(And(y.dstAddr, x.mask), y.mask)
  }

  /** The networks meet exactly when some client matches both interfaces. */
  lemma SharesClientIff(x: NetIf, y: NetIf)
    ensures SharesClient(x, y) <==> exists client: uint32 :: Matches(x, client) && Matches(y, client)
  {
    if SharesClient(x, y) {
      var client := SharedClient(x, y);
    }
    if client: uint32 :| Matches(x, client) && Matches(y, client) {
      CommonClient(x, y, client);
    }
  }

  lemma SharedClient(x: NetIf, y: NetIf) returns (client: uint32)
    requires SharesClient(x, y)
    ensures Matches(x, client) && Matches(y, client)
  {
    Pow2OfByteAndWord();
    SelectBound(32, x.dstAddr, y.dstAddr, x.mask);
    SelectAgrees(x.dstAddr, y.dstAddr, x.mask, y.mask);
    client := Select(x.dstAddr, y.dstAddr, x.mask);
  }

  lemma CommonClient(x: NetIf, y: NetIf, client: uint32)
    requires Matches(x, client) && Matches(y, client)
    ensures SharesClient(x, y)
  {
    AndSwapMasks(client, x.mask, y.mask);
    AndSwapMasks(y.dstAddr, x.mask, y.mask);
  }

  /** Interfaces whose networks meet have the same address. */
  predicate NoConflict(ifs: seq<NetIf>) {
    forall x, y | x in ifs && y in ifs && SharesClient(x, y) :: x.addr == y.addr
  }

  ghost predicate OrderIrrelevant(e: Endian, ifs: seq<NetIf>) {
    forall ifs': seq<NetIf>, client: uint32 | multiset(ifs') == multiset(ifs) ::
      ServerIp(e, ifs', client) == ServerIp(e, ifs, client)
  }

  /** With pairwise disjoint networks the order of the interface list does not matter. */
  lemma DisjointNetworksOrderIrrelevant(e: Endian, ifs: seq<NetIf>)
    requires forall x, y | x in ifs && y in ifs && x != y :: !SharesClient(x, y)
    ensures OrderIrrelevant(e, ifs)
  {
    assert NoConflict(ifs);
    OrderMattersOnConflict(e, ifs);
  }

  /** In general the order is irrelevant exactly when no two interfaces with different
      addresses have networks that meet. */
  lemma OrderMattersOnConflict(e: Endian, ifs: seq<NetIf>)
    ensures OrderIrrelevant(e, ifs) <==> |ifs| == 1 || NoConflict(ifs)
  {
    if |ifs| == 1 || NoConflict(ifs) {
      forall ifs': seq<NetIf>, client: uint32 | multiset(ifs') == multiset(ifs)
        ensures ServerIp(e, ifs', client) == ServerIp(e, ifs, client)
      {
        PermutedAnswer(e, ifs, ifs', client);
      }
    }
    if |ifs| != 1 && OrderIrrelevant(e, ifs) {
      forall x, y | x in ifs && y in ifs && SharesClient(x, y) ensures x.addr == y.addr {
        var client := SharedClient(x, y);
        MovedToFront(e, ifs, x, client);
        MovedToFront(e, ifs, y, client);
        DottedInjective(Ntohl(e, x.addr), Ntohl(e, y.addr));
        NtohlInvolution(e, x.addr);
        NtohlInvolution(e, y.addr);
      }
    }
  }

  lemma PermutedAnswer(e: Endian, ifs: seq<NetIf>, ifs': seq<NetIf>, client: uint32)
    requires multiset(ifs') == multiset(ifs) && (|ifs| == 1 || NoConflict(ifs))
    ensures ServerIp(e, ifs', client) == ServerIp(e, ifs, client)
  {
    assert |ifs'| == |multiset(ifs')| == |multiset(ifs)| == |ifs|;
    forall x ensures x in ifs <==> x in ifs' {
      assert x in multiset(ifs) <==> x in multiset(ifs');
    }
    if |ifs| == 1 {
      assert ifs[0] in ifs';
    } else {
      SameFirstAddress(ifs, ifs', client);
    }
  }

  lemma SameFirstAddress(ifs: seq<NetIf>, ifs': seq<NetIf>, client: uint32)
    requires NoConflict(ifs) && forall x :: x in ifs <==> x in ifs'
    ensures var k, k' := FirstMatch(ifs, client), FirstMatch(ifs', client);
            (k == |ifs| <==> k' == |ifs'|) && (k < |ifs| && k' < |ifs'| ==> ifs[k].addr == ifs'[k'].addr)
  {
    FirstMatchMeaning(ifs, client);
    FirstMatchMeaning(ifs', client);
    var k, k' := FirstMatch(ifs, client), FirstMatch(ifs', client);
    assert k < |ifs| ==> ifs[k] in ifs';
    assert k' < |ifs'| ==> ifs'[k'] in ifs;
    if k < |ifs| && k' < |ifs'| {
      CommonClient(ifs[k], ifs'[k'], client);
    }
  }

  lemma MovedToFront(e: Endian, ifs: seq<NetIf>, x: NetIf, client: uint32)
    requires |ifs| != 1 && OrderIrrelevant(e, ifs) && x in ifs && Matches(x, client)
    ensures ServerIp(e, ifs, client) == AddressText(e, x)
  {
    var k :| 0 <= k < |ifs| && ifs[k] == x;
    var ifs' := [x] + (ifs[..k] + ifs[k + 1..]);
    assert ifs == ifs[..k] + [x] + ifs[k + 1..];
    SameItems(ifs[..k], x, ifs[k + 1..]);
    assert FirstMatch(ifs', client) == 0;
    assert ServerIp(e, ifs', client) == AddressText(e, x);
  }

  lemma SameItems(a: seq<NetIf>, x: NetIf, b: seq<NetIf>)
    ensures multiset([x] + (a + b)) == multiset(a + [x] + b)
  {
  }

  // ---------------------------------------------------------------- reporting

  /** What get_mask_prefix returns for the interface. */
  function ReportedPrefix(e: Endian, i: NetIf): (p: nat)
    ensures p <= 32
  {
    PrefixLength(Ntohl(e, i.mask))
  }

  /** One tt:NetworkInterface of the response. */
  datatype IfInfo = IfInfo(enabled: bool, name: string, hwAddress: string, address: string, prefixLength: nat)

  /** The record tells the name, the MAC text, the address in dotted decimal and the prefix
      length of the interface. */
  ghost predicate Reports(e: Endian, i: NetIf, info: IfInfo) {
    && info.enabled && info.name == i.name && info.hwAddress == PrintMac(i.hwaddr)
    && Spells(e, i.addr, info.address) && info.prefixLength == ReportedPrefix(e, i)
  }

  /** DeviceBindingService::GetNetworkInterfaces */
  method GetNetworkInterfaces(e: Endian, ifs: seq<NetIf>) returns (infos: seq<IfInfo>)
    ensures |infos| == |ifs|
    ensures forall k | 0 <= k < |ifs| :: Reports(e, ifs[k], infos[k])
  {
    infos := [];
    for i := 0 to |ifs|
      invariant |infos| == i
      invariant forall k | 0 <= k < i :: Reports(e, ifs[k], infos[k])
    {
      var info := ReportOne(e, ifs[i]);
      infos := infos + [info];
    }
  }

  /** One round of its loop. */
  method ReportOne(e: Endian, i: NetIf) returns (info: IfInfo)
    ensures Reports(e, i, info)
  {
    var prefix := GetMaskPrefix(e, i.mask);
    var hw := PrintMac(i.hwaddr);
    AddressTextSpells(e, i);
    info := IfInfo(true, i.name, hw, AddressText(e, i), prefix);
  }

  /** The client lies in the network of an address/prefix-length pair (host order). */
  predicate InNetwork(e: Endian, addr: uint32, prefix: nat, client: uint32)
    requires prefix <= 32
  {
    SamePrefix(Ntohl(e, addr), Ntohl(e, client), prefix)
  }

  /** The test the search makes is membership in the reported network. */
  ghost predicate TestsReportedNetwork(e: Endian, i: NetIf) {
    forall client: uint32 ::
      Matches(i, client) <==> InNetwork(e, i.addr, ReportedPrefix(e, i), client)
  }

  /** A mask without holes, and equal network parts of the two addresses the code reads. */
  ghost predicate Regular(e: Endian, i: NetIf) {
    Contiguous(32, Ntohl(e, i.mask)) && SameMasked(i.dstAddr, i.addr, i.mask)
  }

  /** For every client: the masked test, made in network byte order, is membership in the
      reported address/prefix-length network exactly for the regular interfaces. */
  lemma TestIsMembershipIffRegular(e: Endian, i: NetIf)
    ensures TestsReportedNetwork(e, i) <==> Regular(e, i)
  {
    if Regular(e, i) {
      forall client: uint32
        ensures Matches(i, client) <==> InNetwork(e, i.addr, ReportedPrefix(e, i), client)
      {
        MaskingIgnoresByteOrder(e, i.addr, client, i.mask);
        ContiguousMaskIsPrefix(Ntohl(e, i.addr), Ntohl(e, client), Ntohl(e, i.mask));
      }
    }
    if TestsReportedNetwork(e, i) {
      assert Matches(i, i.dstAddr);
      assert InNetwork(e, i.addr, ReportedPrefix(e, i), i.addr);
      assert Matches(i, i.addr);
      if !Contiguous(32, Ntohl(e, i.mask)) {
        var y, y' := HoleyMaskIsNotPrefix(Ntohl(e, i.dstAddr), Ntohl(e, i.mask));
        NtohlInvolution(e, y);
        NtohlInvolution(e, y');
        MaskingIgnoresByteOrder(e, i.dstAddr, Ntohl(e, y), i.mask);
        MaskingIgnoresByteOrder(e, i.dstAddr, Ntohl(e, y'), i.mask);
        assert Matches(i, Ntohl(e, y)) && Matches(i, Ntohl(e, y'));
        assert false;
      }
    }
  }

  /** For regular interfaces the reported Address/PrefixLength pairs decide which server
      address every client is given. */
  lemma ReportsDecideServer(e: Endian, ifs: seq<NetIf>, ifs': seq<NetIf>, client: uint32)
    requires |ifs| == |ifs'|
    requires forall k | 0 <= k < |ifs| :: Regular(e, ifs[k]) && Regular(e, ifs'[k])
    requires forall k | 0 <= k < |ifs| ::
      && AddressText(e, ifs[k]) == AddressText(e, ifs'[k])
      && ReportedPrefix(e, ifs[k]) == ReportedPrefix(e, ifs'[k])
    ensures ServerIp(e, ifs, client) == ServerIp(e, ifs', client)
  {
    forall k | 0 <= k < |ifs| ensures Matches(ifs[k], client) <==> Matches(ifs'[k], client) {
      TestIsMembershipIffRegular(e, ifs[k]);
      TestIsMembershipIffRegular(e, ifs'[k]);
      DottedInjective(Ntohl(e, ifs[k].addr), Ntohl(e, ifs'[k].addr));
      assert Matches(ifs[k], client)
        <==> InNetwork(e, ifs[k].addr, ReportedPrefix(e, ifs[k]), client);
      assert Matches(ifs'[k], client)
        <==> InNetwork(e, ifs'[k].addr, ReportedPrefix(e, ifs'[k]), client);
    }
    FirstMatchMeaning(ifs, client);
    FirstMatchIs(ifs', client, FirstMatch(ifs, client));
  }

  function Min(p: nat, q: nat): nat {
    if p < q then p else q
  }

  /** The networks of regular interfaces meet exactly when the reported addresses agree on the
      shorter reported prefix. */
  lemma RegularNetworksMeetIff(e: Endian, x: NetIf, y: NetIf)
    requires Regular(e, x) && Regular(e, y)
    ensures SharesClient(x, y) <==>
            InNetwork(e, x.addr, Min(ReportedPrefix(e, x), ReportedPrefix(e, y)), y.addr)
  {
    if SharesClient(x, y) {
      var client := SharedClient(x, y);
      MatchesReported(e, x, client);
      MatchesReported(e, y, client);
      AgreeOnShorter(Ntohl(e, x.addr), Ntohl(e, y.addr), Ntohl(e, client), ReportedPrefix(e, x), ReportedPrefix(e, y));
    }
    if InNetwork(e, x.addr, Min(ReportedPrefix(e, x), ReportedPrefix(e, y)), y.addr) {
      var client := if ReportedPrefix(e, x) < ReportedPrefix(e, y) then y.addr else x.addr;
      MatchesReported(e, x, client);
      MatchesReported(e, y, client);
      CommonClient(x, y, client);
    }
  }

  lemma MatchesReported(e: Endian, i: NetIf, client: uint32)
    requires Regular(e, i)
    ensures Matches(i, client) <==> InNetwork(e, i.addr, ReportedPrefix(e, i), client)
  {
    TestIsMembershipIffRegular(e, i);
  }

  /** Two addresses that share a prefix each with the same client agree on the shorter one. */
  lemma AgreeOnShorter(a: uint32, b: uint32, client: uint32, p: nat, q: nat)
    requires p <= 32 && q <= 32 && SamePrefix(a, client, p) && SamePrefix(b, client, q)
    ensures SamePrefix(a, b, Min(p, q))
  {
    SamePrefixShorter(a, client, p, Min(p, q));
    SamePrefixShorter(b, client, q, Min(p, q));
  }

  // ---------------------------------------------------------------- failing inputs

  function SampleIf(e: Endian, addr: uint32, dstAddr: uint32, mask: uint32): NetIf {
    NetIf("eth0", [0, 0, 0, 0, 0, 0], Ntohl(e, addr), Ntohl(e, dstAddr), Ntohl(e, mask))
  }

  /** Two different addresses on one network: which is told depends on the order. */
  lemma OverlapMatters(e: Endian, a: uint32, b: uint32, p: nat)
    requires p <= 32 && a != b && SamePrefix(a, b, p)
    ensures !OrderIrrelevant(e, [SampleIf(e, a, a, Netmask(p)), SampleIf(e, b, b, Netmask(p))])
  {
    var x, y := SampleIf(e, a, a, Netmask(p)), SampleIf(e, b, b, Netmask(p));
    SampleIsRegular(e, a, a, p);
    SampleIsRegular(e, b, b, p);
    RegularNetworksMeetIff(e, x, y);
    assert x in [x, y] && y in [x, y];
    OrderMattersOnConflict(e, [x, y]);
  }

  /** 192.168.0.1 and 192.168.0.2 on one /24 network. */
  lemma OverlapExample(e: Endian)
    ensures var a, b := Word(192, 168, 0, 1), Word(192, 168, 0, 2);
            !OrderIrrelevant(e, [SampleIf(e, a, a, Netmask(24)), SampleIf(e, b, b, Netmask(24))])
  {
    Pow2OfByteAndWord();
    OverlapMatters(e, Word(192, 168, 0, 1), Word(192, 168, 0, 2), 24);
  }

  lemma SampleIsRegular(e: Endian, addr: uint32, dstAddr: uint32, p: nat)
    requires p <= 32 && SamePrefix(dstAddr, addr, p)
    ensures var i := SampleIf(e, addr, dstAddr, Netmask(p));
            Regular(e, i) && ReportedPrefix(e, i) == p && Ntohl(e, i.addr) == addr
  {
    var i := SampleIf(e, addr, dstAddr, Netmask(p));
    NtohlInvolution(e, addr);
    NtohlInvolution(e, dstAddr);
    NtohlInvolution(e, Netmask(p));
    LeadingOnesContiguous(32, p);
    PrefixOfNetmask(p);
    MaskingIgnoresByteOrder(e, i.dstAddr, i.addr, i.mask);
    ContiguousMaskIsPrefix(dstAddr, addr, Netmask(p));
  }

  /** A mask with a hole: the test is not membership in the reported network. */
  lemma HoleMatters(e: Endian, a: uint32, m: uint32, i: nat, j: nat)
    requires i < j < 32 && Bit(m, i) && !Bit(m, j)
    ensures !TestsReportedNetwork(e, SampleIf(e, a, a, m))
  {
    NtohlInvolution(e, m);
    TestIsMembershipIffRegular(e, SampleIf(e, a, a, m));
  }

  /** The mask 255.0.255.0. */
  lemma HoleExample(e: Endian)
    ensures !TestsReportedNetwork(e, SampleIf(e, Word(10, 0, 1, 1), Word(10, 0, 1, 1), Word(255, 0, 255, 0)))
  {
    var m := Word(255, 0, 255, 0);
    BitAt(m, 8, 0xFF00FF);
    ShrShr(m, 8, 8);
    BitAt(m, 16, 0xFF00);
    HoleMatters(e, Word(10, 0, 1, 1), m, 8, 16);
  }

  lemma BitAt(x: nat, i: nat, q: nat)
    requires Shr(x, i) == q
    ensures Bit(x, i) <==> q % 2 == 1
  {
    ShrBit(x, i);
  }

  /** Two ioctls that answer addresses of different networks, as on a point-to-point link. */
  lemma PointToPointMatters(e: Endian, addr: uint32, dst: uint32, p: nat)
    requires p <= 32 && !SamePrefix(dst, addr, p)
    ensures !TestsReportedNetwork(e, SampleIf(e, addr, dst, Netmask(p)))
  {
    var i := SampleIf(e, addr, dst, Netmask(p));
    NtohlInvolution(e, addr);
    NtohlInvolution(e, dst);
    NtohlInvolution(e, Netmask(p));
    LeadingOnesContiguous(32, p);
    PrefixOfNetmask(p);
    MaskingIgnoresByteOrder(e, i.dstAddr, i.addr, i.mask);
    ContiguousMaskIsPrefix(dst, addr, Netmask(p));
    TestIsMembershipIffRegular(e, i);
  }

  /** 10.0.0.1 facing 192.168.0.1 under a /24 mask. */
  lemma PointToPointExample(e: Endian)
    ensures !TestsReportedNetwork(e, SampleIf(e, Word(10, 0, 0, 1), Word(192, 168, 0, 1), Netmask(24)))
  {
    Pow2OfByteAndWord();
    PointToPointMatters(e, Word(10, 0, 0, 1), Word(192, 168, 0, 1), 24);
  }
}
