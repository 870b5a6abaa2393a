/** The LAN-only packet policy: the filters the driver installs, and the addresses and ports they let through. */
module WfpPolicy {
  import opened Common
  import opened MaskPrefix

  datatype Layer = ConnectV4 | AcceptV4 | BindV4 | ConnectV6 | AcceptV6 | BindV6
  datatype Action = Permit | Block

  datatype AddrCond =
    | AnyAddr
    | V4Net(net: bv32, mask: bv32)
    | V6Net(net6: Bits128, prefix: nat)

  datatype Filter = Filter(layer: Layer, action: Action, addr: AddrCond, port: Option<bv16>, weight: nat)

  /** What one authorization is about; an IPv4 layer looks at `v4`, an IPv6 layer at `v6`. */
  datatype Packet = Packet(layer: Layer, v4: bv32, v6: Bits128, port: bv16, protocol: bv8)

  const PERMIT_W: nat := 0xF000
  const DENY_W: nat := 0x100

  // -------- the filters --------

  const V4_RANGES: seq<(bv32, bv32)> := [
    (0x0A00_0000, 0xFF00_0000), (0xAC10_0000, 0xFFF0_0000), (0xC0A8_0000, 0xFFFF_0000), (0xA9FE_0000, 0xFFFF_0000)]

  const MULTICAST: seq<(bv32, bv16)> := [(0xE000_00FB, 5353), (0xEFFF_FFFA, 1900)]

  /** Sixteen bytes of which only the first two can be other than zero. */
  function Lead(b0: bv8, b1: bv8): (r: Bits128)
    ensures r[0] == b0 && r[1] == b1 && forall i :: 2 <= i < 16 ==> r[i] == 0
  {
    [b0, b1] + Zeros(14)
  }

  const V6_RANGES: seq<(Bits128, Bits128)> := [(Lead(0xFE, 0x80), Lead(0xFF, 0xC0)), (Lead(0xFC, 0), Lead(0xFE, 0))]
  const V6_PREFIXES: seq<nat> := [10, 7]

  function V4Filter(layer: Layer, i: nat, weight: nat): Filter
    requires i < |V4_RANGES|
  {
    Filter(layer, Permit, V4Net(V4_RANGES[i].0, V4_RANGES[i].1), None, weight)
  }

  function V6Filter(layer: Layer, i: nat, weight: nat): Filter
    requires i < |V6_RANGES|
  {
    Filter(layer, Permit, V6Net(V6_RANGES[i].0, V6_PREFIXES[i]), None, weight)
  }

  function MulticastFilter(layer: Layer, i: nat, weight: nat): Filter
    requires i < |MULTICAST|
  {
    Filter(layer, Permit, V4Net(MULTICAST[i].0, 0xFFFF_FFFF), Some(MULTICAST[i].1), weight)
  }

  function DenyFilter(layer: Layer): Filter {
    Filter(layer, Block, AnyAddr, None, DENY_W)
  }

  function V4Lan(layer: Layer, weight: nat): seq<Filter> {
    seq(|V4_RANGES|, i requires 0 <= i < |V4_RANGES| => V4Filter(layer, i, weight))
  }

  function V6Lan(layer: Layer, weight: nat): seq<Filter> {
    seq(|V6_RANGES|, i requires 0 <= i < |V6_RANGES| => V6Filter(layer, i, weight))
  }

  function Discovery(layer: Layer, weight: nat): seq<Filter> {
    seq(|MULTICAST|, i requires 0 <= i < |MULTICAST| => MulticastFilter(layer, i, weight))
  }

  const DENY_LAYERS: seq<Layer> := [ConnectV4, ConnectV6, AcceptV4, AcceptV6, BindV4, BindV6]

  function Denials(): seq<Filter> {
    seq(|DENY_LAYERS|, i requires 0 <= i < |DENY_LAYERS| => DenyFilter(DENY_LAYERS[i]))
  }

  function V4Policy(): seq<Filter> {
    V4Lan(ConnectV4, PERMIT_W) + V4Lan(AcceptV4, PERMIT_W) + Discovery(ConnectV4, PERMIT_W)
  }

  function V6Policy(): seq<Filter> {
    V6Lan(ConnectV6, PERMIT_W) + V6Lan(AcceptV6, PERMIT_W)
  }

  /** Everything LgWfpInitialize installs, in its order. */
  function Policy(): seq<Filter> {
    V4Policy() + V6Policy() + Denials()
  }

  // -------- arbitration --------

  predicate Matches(f: Filter, p: Packet) {
    && f.layer == p.layer
    && (match f.addr
        case AnyAddr => true
        case V4Net(net, mask) => p.v4 & mask == net & mask
        case V6Net(net, prefix) => prefix <= 128 && PrefixAgrees(p.v6, net, prefix))
    && (f.port.Some? ==> p.port == f.port.value)
  }

  /** Scan a filter list for the heaviest match, the first among equals; traffic no filter matches is permitted. */
  function Best(fs: seq<Filter>, p: Packet): (r: Option<Filter>)
    ensures r.None? ==> forall f :: f in fs ==> !Matches(f, p)
    ensures r.Some? ==> r.value in fs && Matches(r.value, p)
    ensures r.Some? ==> forall f :: f in fs && Matches(f, p) ==> f.weight <= r.value.weight
  {
    if fs == [] then None
    else
      var rest := Best(fs[1..], p);
      if Matches(fs[0], p) && (rest.None? || rest.value.weight <= fs[0].weight) then Some(fs[0]) else rest
  }

  function Verdict(fs: seq<Filter>, p: Packet): Action {
    var best := Best(fs, p);
    if best.Some? then best.value.action else Permit
  }

  // -------- the plain specification: address intervals and ports --------

  /** The three private ranges of section 3 of RFC 1918, and 169.254.0.0/16. */
  predicate LanV4(a: bv32) {
    || 0x0A00_0000 <= a <= 0x0AFF_FFFF
    || 0xAC10_0000 <= a <= 0xAC1F_FFFF
    || 0xC0A8_0000 <= a <= 0xC0A8_FFFF
    || 0xA9FE_0000 <= a <= 0xA9FE_FFFF
  }

  predicate DiscoveryV4(a: bv32, port: bv16) {
    || (a == 0xE000_00FB && port == 5353)
    || (a == 0xEFFF_FFFA && port == 1900)
  }

  /** fe80::/10 (section 2.4 of RFC 4291) and fc00::/7 (section 3.1 of RFC 4193), by their leading bytes. */
  predicate LanV6(a: Bits128) {
    || (a[0] == 0xFE && 0x80 <= a[1] <= 0xBF)
    || 0xFC <= a[0] <= 0xFD
  }

  predicate Allowed(p: Packet) {
    match p.layer
    case ConnectV4 => LanV4(p.v4) || DiscoveryV4(p.v4, p.port)
    case AcceptV4 => LanV4(p.v4)
    case ConnectV6 | AcceptV6 => LanV6(p.v6)
    case BindV4 | BindV6 => false
  }

  // -------- the filters mean the specification --------

  lemma V4MasksAreIntervals(a: bv32)
    ensures a & 0xFF00_0000 == 0x0A00_0000 & 0xFF00_0000 <==> 0x0A00_0000 <= a <= 0x0AFF_FFFF
    ensures a & 0xFFF0_0000 == 0xAC10_0000 & 0xFFF0_0000 <==> 0xAC10_0000 <= a <= 0xAC1F_FFFF
    ensures a & 0xFFFF_0000 == 0xC0A8_0000 & 0xFFFF_0000 <==> 0xC0A8_0000 <= a <= 0xC0A8_FFFF
    ensures a & 0xFFFF_0000 == 0xA9FE_0000 & 0xFFFF_0000 <==> 0xA9FE_0000 <= a <= 0xA9FE_FFFF
  {
  }

  lemma V4LanMeans(layer: Layer, p: Packet)
    requires p.layer == layer
    ensures (exists i :: 0 <= i < |V4_RANGES| && Matches(V4Filter(layer, i, PERMIT_W), p)) <==> LanV4(p.v4)
  {
    V4MasksAreIntervals(p.v4);
    if LanV4(p.v4) {
      assert Matches(V4Filter(layer, 0, PERMIT_W), p) || Matches(V4Filter(layer, 1, PERMIT_W), p)
        || Matches(V4Filter(layer, 2, PERMIT_W), p) || Matches(V4Filter(layer, 3, PERMIT_W), p);
    }
  }

  lemma DiscoveryMeans(layer: Layer, p: Packet)
    requires p.layer == layer
    ensures (exists i :: 0 <= i < |MULTICAST| && Matches(MulticastFilter(layer, i, PERMIT_W), p)) <==> DiscoveryV4(p.v4, p.port)
  {
    FullMask(p.v4);
    if DiscoveryV4(p.v4, p.port) {
      assert Matches(MulticastFilter(layer, 0, PERMIT_W), p) || Matches(MulticastFilter(layer, 1, PERMIT_W), p);
    }
  }

  lemma FullMask(a: bv32)
    ensures a & 0xFFFF_FFFF == a
  {
  }

  /** The masks of the two IPv6 ranges are contiguous, of the prefix lengths given. */
  lemma V6MasksContiguous(i: nat, k: nat)
    requires i < |V6_RANGES| && k < 128
    ensures Bit(V6_RANGES[i].1, k) <==> k < V6_PREFIXES[i]
  {
    LeadBits(V6_RANGES[i].1, k);
  }

  lemma LeadBits(m: Bits128, k: nat)
    requires k < 128 && forall j :: 2 <= j < 16 ==> m[j] == 0
    ensures Bit(m, k) <==> (k < 8 && ByteBit(m[0], k)) || (8 <= k < 16 && ByteBit(m[1], k - 8))
  {
    if k >= 16 { NoBit(k % 8); }
  }

  lemma NoBit(j: nat)
    requires j < 8
    ensures !ByteBit(0, j)
  {
  }

  /** The prefix the driver's loop computes from each IPv6 mask. */
  lemma V6PrefixesAreLeadingOnes(i: nat)
    requires i < |V6_RANGES|
    ensures IsLeadingOnes(V6_RANGES[i].1, V6_PREFIXES[i])
  {
    forall k | 0 <= k < 128 ensures Bit(V6_RANGES[i].1, k) <==> k < V6_PREFIXES[i] {
      V6MasksContiguous(i, k);
    }
  }

  lemma V6TwoBytes(a0: bv8, a1: bv8)
    ensures a0 & 0xFF == 0xFE && a1 & 0xC0 == 0x80 <==> a0 == 0xFE && 0x80 <= a1 <= 0xBF
    ensures a0 & 0xFE == 0xFC <==> 0xFC <= a0 <= 0xFD
  {
  }

  lemma LeadMask(a: Bits128, i: nat)
    requires i < |V6_RANGES|
    ensures MaskAgrees(a, V6_RANGES[i].0, V6_RANGES[i].1) <==>
      a[0] & V6_RANGES[i].1[0] == V6_RANGES[i].0[0] && a[1] & V6_RANGES[i].1[1] == V6_RANGES[i].0[1]
  {
  }

  lemma V6RangeMeans(a: Bits128, i: nat)
    requires i < |V6_RANGES|
    ensures PrefixAgrees(a, V6_RANGES[i].0, V6_PREFIXES[i]) <==>
      if i == 0 then a[0] == 0xFE && 0x80 <= a[1] <= 0xBF else 0xFC <= a[0] <= 0xFD
  {
    var (net, mask) := V6_RANGES[i];
    forall k | 0 <= k < 128 ensures Bit(mask, k) <==> k < V6_PREFIXES[i] { V6MasksContiguous(i, k); }
    LeadMask(net, i);
    LeadMask(a, i);
    MaskTestIsPrefixTest(a, net, mask, V6_PREFIXES[i]);
    V6TwoBytes(a[0], a[1]);
  }

  lemma V6LanMeans(layer: Layer, p: Packet)
    requires p.layer == layer
    ensures (exists i :: 0 <= i < |V6_RANGES| && Matches(V6Filter(layer, i, PERMIT_W), p)) <==> LanV6(p.v6)
  {
    V6RangeMeans(p.v6, 0);
    V6RangeMeans(p.v6, 1);
    if LanV6(p.v6) {
      assert Matches(V6Filter(layer, 0, PERMIT_W), p) || Matches(V6Filter(layer, 1, PERMIT_W), p);
    }
  }

  predicate IsPolicyPermit(f: Filter) {
    || ((f.layer == ConnectV4 || f.layer == AcceptV4) && exists i :: 0 <= i < |V4_RANGES| && f == V4Filter(f.layer, i, PERMIT_W))
    || (f.layer == ConnectV4 && exists i :: 0 <= i < |MULTICAST| && f == MulticastFilter(f.layer, i, PERMIT_W))
    || ((f.layer == ConnectV6 || f.layer == AcceptV6) && exists i :: 0 <= i < |V6_RANGES| && f == V6Filter(f.layer, i, PERMIT_W))
  }

  lemma V4LanMembers(layer: Layer, f: Filter)
    ensures f in V4Lan(layer, PERMIT_W) <==> exists i :: 0 <= i < |V4_RANGES| && f == V4Filter(layer, i, PERMIT_W)
  {
    if i: nat :| i < |V4_RANGES| && f == V4Filter(layer, i, PERMIT_W) {
      assert V4Lan(layer, PERMIT_W)[i] == f;
    }
  }

  lemma V6LanMembers(layer: Layer, f: Filter)
    ensures f in V6Lan(layer, PERMIT_W) <==> exists i :: 0 <= i < |V6_RANGES| && f == V6Filter(layer, i, PERMIT_W)
  {
    if i: nat :| i < |V6_RANGES| && f == V6Filter(layer, i, PERMIT_W) {
      assert V6Lan(layer, PERMIT_W)[i] == f;
    }
  }

  lemma DiscoveryMembers(layer: Layer, f: Filter)
    ensures f in Discovery(layer, PERMIT_W) <==> exists i :: 0 <= i < |MULTICAST| && f == MulticastFilter(layer, i, PERMIT_W)
  {
    if i: nat :| i < |MULTICAST| && f == MulticastFilter(layer, i, PERMIT_W) {
      assert Discovery(layer, PERMIT_W)[i] == f;
    }
  }

  lemma PolicyMembers(f: Filter)
    ensures f in Policy() <==> IsPolicyPermit(f) || f == DenyFilter(f.layer)
  {
    V4LanMembers(ConnectV4, f);
    V4LanMembers(AcceptV4, f);
    DiscoveryMembers(ConnectV4, f);
    V6LanMembers(ConnectV6, f);
    V6LanMembers(AcceptV6, f);
    DenialMembers(f);
  }

  lemma DenialMembers(f: Filter)
    ensures f in Denials() <==> f == DenyFilter(f.layer)
  {
    if f == DenyFilter(f.layer) {
      var i := match f.layer case ConnectV4 => 0 case ConnectV6 => 1 case AcceptV4 => 2 case AcceptV6 => 3 case BindV4 => 4 case BindV6 => 5;
      assert Denials()[i] == f;
    }
  }

  /** Some permit filter matches exactly the allowed traffic. */
  lemma PermitsMean(p: Packet)
    ensures (exists f :: IsPolicyPermit(f) && Matches(f, p)) <==> Allowed(p)
  {
    V4LanMeans(p.layer, p);
    V6LanMeans(p.layer, p);
    DiscoveryMeans(p.layer, p);
    if Allowed(p) {
      if p.layer == ConnectV6 || p.layer == AcceptV6 {
        var i :| 0 <= i < |V6_RANGES| && Matches(V6Filter(p.layer, i, PERMIT_W), p);
        assert IsPolicyPermit(V6Filter(p.layer, i, PERMIT_W));
      } else if LanV4(p.v4) {
        var i :| 0 <= i < |V4_RANGES| && Matches(V4Filter(p.layer, i, PERMIT_W), p);
        assert IsPolicyPermit(V4Filter(p.layer, i, PERMIT_W));
      } else {
        var i :| 0 <= i < |MULTICAST| && Matches(MulticastFilter(p.layer, i, PERMIT_W), p);
        assert IsPolicyPermit(MulticastFilter(p.layer, i, PERMIT_W));
      }
    }
  }

  /**
   * The policy is the specification: for all addresses, ports and layers, and in whatever order the engine
   * holds the filters, traffic is permitted exactly when it is allowed.
   */
  lemma PolicyMeansAllowed(fs: seq<Filter>, p: Packet)
    requires forall f :: f in fs <==> f in Policy()
    ensures Verdict(fs, p) == Permit <==> Allowed(p)
  {
    var best := Best(fs, p);
    var deny := DenyFilter(p.layer);
    PolicyMembers(deny);
    assert Matches(deny, p);
    assert best.Some?;
    PolicyMembers(best.value);
    PermitsMean(p);
    if Allowed(p) {
      var f :| IsPolicyPermit(f) && Matches(f, p);
      PolicyMembers(f);
    }
  }

  const UDP: bv8 := 17

  /** What the comment on the discovery filters promises: the two multicast pairs over UDP only. */
  predicate AllowedUdp(p: Packet) {
    Allowed(p) && (p.layer == ConnectV4 && !LanV4(p.v4) ==> p.protocol == UDP)
  }

  /** No filter looks at the protocol, so the promise is kept exactly for what is not another protocol to a discovery pair. */
  lemma UdpOnlyExactlyWhen(fs: seq<Filter>, p: Packet)
    requires forall f :: f in fs <==> f in Policy()
    ensures (Verdict(fs, p) == Permit <==> AllowedUdp(p)) <==>
      !(p.layer == ConnectV4 && DiscoveryV4(p.v4, p.port) && p.protocol != UDP)
  {
    PolicyMeansAllowed(fs, p);
  }

  /** Such traffic exists, and is let through. */
  lemma TcpToDiscoveryPasses(fs: seq<Filter>, v6: Bits128)
    requires forall f :: f in fs <==> f in Policy()
    ensures var p := Packet(ConnectV4, 0xE000_00FB, v6, 5353, 6); Verdict(fs, p) == Permit && !AllowedUdp(p)
  {
    PolicyMeansAllowed(fs, Packet(ConnectV4, 0xE000_00FB, v6, 5353, 6));
  }

  lemma PolicyIsAllowed()
    ensures forall p :: Verdict(Policy(), p) == Permit <==> Allowed(p)
  {
    forall p { PolicyMeansAllowed(Policy(), p); }
  }
}
