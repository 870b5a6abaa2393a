/** The watchdog's wireless filter lists: the flat buffer they travel in, the check, and the repair. */
module Wlan {
  import opened Common

  type U8 = x: int | 0 <= x < 0x100
  type U32 = x: int | 0 <= x < 0x1_0000_0000

  // DOT11_NETWORK_LIST header and DOT11_NETWORK entry, as the API lays them out.
  const HEADER: nat := 8
  const ENTRY: nat := 40
  const SSID_MAX: nat := 32

  const INFRASTRUCTURE: U32 := 1
  const INDEPENDENT: U32 := 2

  type SsidBytes = b: seq<U8> | |b| == 32 witness Fill<U8>(0, 32)

  datatype Ssid = Ssid(length: U32, bytes: SsidBytes)
  datatype Network = Network(ssid: Ssid, bssType: U32)

  const EMPTY_SSID: Ssid := Ssid(0, Fill<U8>(0, 32))

  // -------- SSIDs --------

  function SsidFromString(s: seq<U8>): Option<Ssid> {
    if |s| > SSID_MAX then None else Some(Ssid(|s|, s + Fill<U8>(0, SSID_MAX - |s|)))
  }

  predicate SsidEquals(d: Ssid, s: seq<U8>) {
    if d.length != |s| || d.length > SSID_MAX then false else d.bytes[..d.length] == s
  }

  /** A stored SSID answers to a name exactly when it has its length, at most 32, and its bytes. */
  lemma SsidEqualsMeans(d: Ssid, s: seq<U8>)
    ensures SsidEquals(d, s) <==> d.length == |s| && |s| <= 32 && forall i :: 0 <= i < |s| ==> d.bytes[i] == s[i]
  {
    if d.length == |s| && |s| <= 32 && forall i :: 0 <= i < |s| ==> d.bytes[i] == s[i] {
      assert d.bytes[..d.length] == s;
    }
    if SsidEquals(d, s) {
      forall i | 0 <= i < |s| ensures d.bytes[i] == s[i] {
        assert d.bytes[..d.length][i] == s[i];
      }
    }
  }

  /** The stored form of a name answers to that name and to no other; a name over 32 bytes has none. */
  lemma SsidIdentifies(s: seq<U8>, t: seq<U8>)
    ensures SsidFromString(s).Some? <==> |s| <= SSID_MAX
    ensures SsidFromString(s).Some? ==> (SsidEquals(SsidFromString(s).value, t) <==> s == t)
  {
    if |s| <= SSID_MAX {
      assert SsidFromString(s).value.bytes[..|s|] == s;
    }
  }

  // -------- the flat buffer --------

  function Le4(v: U32): (b: seq<U8>)
    ensures |b| == 4
  {
    var high := v / 0x100;
    var higher := high / 0x100;
    [v % 0x100, high % 0x100, higher % 0x100, higher / 0x100]
  }

  function Of4(b: seq<U8>): U32
    requires |b| == 4
  {
    b[0] as int + 0x100 * (b[1] as int) + 0x1_0000 * (b[2] as int) + 0x100_0000 * (b[3] as int)
  }

  lemma Le4RoundTrip(v: U32)
    ensures Of4(Le4(v)) == v
  {
    var high := v / 0x100;
    var higher := high / 0x100;
    assert high == 0x100 * (higher / 0x100 * 0x100 + higher % 0x100) + high % 0x100;
  }

  function PackEntry(n: Network): (b: seq<U8>)
    ensures |b| == ENTRY
  {
    Le4(n.ssid.length) + n.ssid.bytes + Le4(n.bssType)
  }

  function UnpackEntry(b: seq<U8>): Network
    requires |b| == ENTRY
  {
    Network(Ssid(Of4(b[..4]), b[4..36]), Of4(b[36..40]))
  }

  lemma EntryRoundTrip(n: Network)
    ensures UnpackEntry(PackEntry(n)) == n
  {
    var b := PackEntry(n);
    assert b[..4] == Le4(n.ssid.length) && b[4..36] == n.ssid.bytes && b[36..40] == Le4(n.bssType);
    Le4RoundTrip(n.ssid.length);
    Le4RoundTrip(n.bssType);
  }

  function PackEntries(nets: seq<Network>): (b: seq<U8>)
    ensures |b| == ENTRY * |nets|
  {
    if nets == [] then [] else PackEntries(nets[..|nets| - 1]) + PackEntry(nets[|nets| - 1])
  }

  /** Entry `i` of a packed list lies at 8 + 40 i. */
  lemma {:induction false} EntryAt(nets: seq<Network>, i: nat)
    requires i < |nets|
    ensures PackEntries(nets)[ENTRY * i..ENTRY * i + ENTRY] == PackEntry(nets[i])
  {
    var init := nets[..|nets| - 1];
    if i < |nets| - 1 {
      EntryAt(init, i);
      assert PackEntries(nets)[ENTRY * i..ENTRY * i + ENTRY] == PackEntries(init)[ENTRY * i..ENTRY * i + ENTRY];
    }
  }

  /** The count as a 32-bit field, and a zero index. */
  function Header(n: nat): (b: seq<U8>)
    ensures |b| == HEADER
  {
    Le4(n % 0x1_0000_0000) + Le4(0)
  }

  /** What the packed buffer holds. */
  function Packed(nets: seq<Network>): (b: seq<U8>)
    ensures |b| == HEADER + ENTRY * |nets|
  {
    Header(|nets|) + PackEntries(nets)
  }

  predicate IsList(b: seq<U8>) {
    |b| >= HEADER && HEADER + ENTRY * Of4(b[..4]) <= |b|
  }

  function EntryOf(b: seq<U8>, i: nat): Network
    requires IsList(b) && i < Of4(b[..4])
  {
    UnpackEntry(b[HEADER + ENTRY * i..HEADER + ENTRY * i + ENTRY])
  }

  /** The list a buffer holds. */
  function Unpacked(b: seq<U8>): (nets: seq<Network>)
    requires IsList(b)
    ensures |nets| == Of4(b[..4])
  {
    seq(Of4(b[..4]), i requires 0 <= i < Of4(b[..4]) => EntryOf(b, i))
  }

  /** Unpacking a packed list gives the list back, as far as its 32-bit count reaches. */
  lemma PackUnpack(nets: seq<Network>)
    ensures IsList(Packed(nets)) && Unpacked(Packed(nets)) == nets[..|nets| % 0x1_0000_0000]
    ensures Unpacked(Packed(nets)) == nets <==> |nets| < 0x1_0000_0000
  {
    var b, n := Packed(nets), |nets| % 0x1_0000_0000;
    assert b[..4] == Le4(n);
    Le4RoundTrip(n);
    assert b[HEADER..] == PackEntries(nets);
    forall i | 0 <= i < n ensures EntryOf(b, i) == nets[i] {
      EntryAt(nets, i);
      assert b[HEADER + ENTRY * i..HEADER + ENTRY * i + ENTRY] == PackEntries(nets)[ENTRY * i..ENTRY * i + ENTRY];
      EntryRoundTrip(nets[i]);
    }
  }

  // -------- the layout, by offset and place value --------

  /** The 32-bit field at `at`, least significant byte first. */
  function FieldAt(b: seq<U8>, at: nat): int
    requires at + 4 <= |b|
  {
    b[at] as int + 0x100 * (b[at + 1] as int) + 0x1_0000 * (b[at + 2] as int) + 0x100_0000 * (b[at + 3] as int)
  }

  /** Where entry `i` lies in a buffer, and what it holds. */
  predicate HoldsAt(b: seq<U8>, i: nat, n: Network) {
    && 48 + 40 * i <= |b|
    && FieldAt(b, 8 + 40 * i) == n.ssid.length
    && b[12 + 40 * i..44 + 40 * i] == n.ssid.bytes
    && FieldAt(b, 44 + 40 * i) == n.bssType
  }

  lemma Le4Field(v: U32)
    ensures FieldAt(Le4(v), 0) == v
  {
    Le4RoundTrip(v);
  }

  lemma FieldMoves(a: seq<U8>, b: seq<U8>, at: nat, from: nat)
    requires at + 4 <= |a| && from + 4 <= |b| && a[at..at + 4] == b[from..from + 4]
    ensures FieldAt(a, at) == FieldAt(b, from)
  {
    assert a[at..at + 4][0] == b[from..from + 4][0] && a[at..at + 4][1] == b[from..from + 4][1];
    assert a[at..at + 4][2] == b[from..from + 4][2] && a[at..at + 4][3] == b[from..from + 4][3];
  }

  /** The packed buffer: the count, four zero bytes, and the entries. */
  lemma PackedLayout(nets: seq<Network>)
    ensures var b := Packed(nets);
      && |b| == 8 + 40 * |nets|
      && FieldAt(b, 0) == |nets| % 0x1_0000_0000
      && b[4] == b[5] == b[6] == b[7] == 0
      && forall i :: 0 <= i < |nets| ==> HoldsAt(b, i, nets[i])
  {
    var b, n := Packed(nets), |nets| % 0x1_0000_0000;
    assert b[0..4] == Le4(n)[0..4];
    Le4Field(n);
    FieldMoves(b, Le4(n), 0, 0);
    assert b[4..8] == Le4(0);
    assert b[4] == Le4(0)[0] && b[5] == Le4(0)[1] && b[6] == Le4(0)[2] && b[7] == Le4(0)[3];
    forall i | 0 <= i < |nets| ensures HoldsAt(b, i, nets[i]) {
      EntryLayout(nets, i);
    }
  }

  lemma EntryLayout(nets: seq<Network>, i: nat)
    requires i < |nets|
    ensures HoldsAt(Packed(nets), i, nets[i])
  {
    var b, e := Packed(nets), PackEntry(nets[i]);
    EntryAt(nets, i);
    assert b[HEADER..] == PackEntries(nets);
    assert b[8 + 40 * i..48 + 40 * i] == e;
    EntryFields(nets[i]);
    assert b[8 + 40 * i..12 + 40 * i] == e[0..4] && b[12 + 40 * i..44 + 40 * i] == e[4..36] && b[44 + 40 * i..48 + 40 * i] == e[36..40];
    FieldMoves(b, e, 8 + 40 * i, 0);
    FieldMoves(b, e, 44 + 40 * i, 36);
  }

  lemma EntryFields(n: Network)
    ensures var e := PackEntry(n); FieldAt(e, 0) == n.ssid.length && e[4..36] == n.ssid.bytes && FieldAt(e, 36) == n.bssType
  {
    var e := PackEntry(n);
    Le4Field(n.ssid.length);
    Le4Field(n.bssType);
    assert e[0..4] == Le4(n.ssid.length)[0..4] && e[36..40] == Le4(n.bssType)[0..4];
    FieldMoves(e, Le4(n.ssid.length), 0, 0);
    FieldMoves(e, Le4(n.bssType), 36, 0);
  }

  /** And what is read from any buffer long enough for its count lies at the same places. */
  lemma UnpackedLayout(b: seq<U8>)
    requires |b| >= 8 && 8 + 40 * FieldAt(b, 0) <= |b|
    ensures IsList(b) && |Unpacked(b)| == FieldAt(b, 0)
    ensures forall i :: 0 <= i < |Unpacked(b)| ==> HoldsAt(b, i, Unpacked(b)[i])
  {
    Of4Field(b, 0);
    assert b[..4] == b[0..4];
    forall i | 0 <= i < |Unpacked(b)| ensures HoldsAt(b, i, Unpacked(b)[i]) {
      var e := b[HEADER + ENTRY * i..HEADER + ENTRY * i + ENTRY];
      assert e[..4] == b[8 + 40 * i..12 + 40 * i] && e[4..36] == b[12 + 40 * i..44 + 40 * i] && e[36..40] == b[44 + 40 * i..48 + 40 * i];
      Of4Field(b, 8 + 40 * i);
      Of4Field(b, 44 + 40 * i);
    }
  }

  lemma Of4Field(b: seq<U8>, at: nat)
    requires at + 4 <= |b|
    ensures Of4(b[at..at + 4]) == FieldAt(b, at)
  {
  }

  /** One record stored at its place. */
  method Store(buf: array<U8>, at: nat, e: seq<U8>)
    requires at + |e| <= buf.Length
    modifies buf
    ensures buf[..at] == old(buf[..at]) && buf[at..at + |e|] == e
    ensures buf[..at + |e|] == old(buf[..at]) + e
  {
    forall k | 0 <= k < |e| { buf[at + k] := e[k]; }
    assert buf[at..at + |e|] == e;
    assert buf[..at + |e|] == buf[..at] + e;
  }

  /** The packed list as far as its first `i` entries. */
  function PackedFront(nets: seq<Network>, i: nat): (b: seq<U8>)
    requires i <= |nets|
    ensures |b| == HEADER + ENTRY * i
  {
    Header(|nets|) + PackEntries(nets[..i])
  }

  lemma OneMoreEntry(nets: seq<Network>, i: nat)
    requires i < |nets|
    ensures PackedFront(nets, i + 1) == PackedFront(nets, i) + PackEntry(nets[i])
  {
    assert nets[..i + 1][..i] == nets[..i];
  }

  lemma FrontEnds(nets: seq<Network>)
    ensures PackedFront(nets, 0) == Header(|nets|) && PackedFront(nets, |nets|) == Packed(nets)
  {
    assert nets[..|nets|] == nets;
  }

  /** The loop over the entries, behind a header already stored. */
  method StoreEntries(buf: array<U8>, nets: seq<Network>)
    requires buf.Length == HEADER + ENTRY * |nets| && buf[..HEADER] == PackedFront(nets, 0)
    modifies buf
    ensures buf[..] == PackedFront(nets, |nets|)
  {
    for i := 0 to |nets|
      invariant buf[..HEADER + ENTRY * i] == PackedFront(nets, i)
    {
      Store(buf, HEADER + ENTRY * i, PackEntry(nets[i]));
      OneMoreEntry(nets, i);
    }
    assert buf[..HEADER + ENTRY * |nets|] == buf[..];
  }

  /** wlanSetFilter's half: fill a fresh buffer entry by entry. */
  method Pack(nets: seq<Network>) returns (buf: array<U8>)
    ensures fresh(buf) && buf[..] == Packed(nets)
  {
    buf := new U8[HEADER + ENTRY * |nets|](_ => 0);
    FrontEnds(nets);
    Store(buf, 0, Header(|nets|));
    StoreEntries(buf, nets);
  }

  /** wlanGetFilter's half: read the count, then that many entries. */
  method Unpack(buf: array<U8>) returns (nets: seq<Network>)
    requires IsList(buf[..])
    ensures nets == Unpacked(buf[..])
  {
    var n := Of4(buf[..4]);
    assert buf[..][..4] == buf[..4];
    nets := [];
    for i := 0 to n
      invariant nets == Unpacked(buf[..])[..i]
    {
      var at := HEADER + ENTRY * i;
      assert buf[..][at..at + ENTRY] == buf[at..at + ENTRY];
      nets := nets + [UnpackEntry(buf[at..at + ENTRY])];
    }
  }

  // -------- check and repair --------

  type Guid = nat

  datatype Lists = Lists(permit: seq<Network>, deny: seq<Network>)

  /** What the check asks of one interface. */
  predicate Good(l: Lists, ssid: seq<U8>) {
    && (exists i :: 0 <= i < |l.permit| && SsidEquals(l.permit[i].ssid, ssid) && l.permit[i].bssType == INFRASTRUCTURE)
    && |l.deny| > 0
  }

  /** The check wants the name as an infrastructure network (type 1), and something denied. */
  lemma GoodMeans(l: Lists, ssid: seq<U8>)
    ensures Good(l, ssid) <==> |l.deny| > 0 && exists n :: n in l.permit && n.bssType == 1 && SsidEquals(n.ssid, ssid)
  {
    if n :| n in l.permit && n.bssType == 1 && SsidEquals(n.ssid, ssid) {
      var i :| 0 <= i < |l.permit| && l.permit[i] == n;
      assert SsidEquals(l.permit[i].ssid, ssid) && l.permit[i].bssType == INFRASTRUCTURE;
    }
  }

  /** An interface that denies every network: the empty SSID, of both kinds. */
  predicate DeniesAll(l: Lists) {
    Network(EMPTY_SSID, INFRASTRUCTURE) in l.deny && Network(EMPTY_SSID, INDEPENDENT) in l.deny
  }

  /** What the repair writes to one interface. */
  function Target(ssid: Ssid): Lists {
    Lists([Network(ssid, INFRASTRUCTURE)], [Network(EMPTY_SSID, INFRASTRUCTURE), Network(EMPTY_SSID, INDEPENDENT)])
  }

  /** The name permitted as infrastructure, and the empty SSID denied as infrastructure and as ad hoc (type 2). */
  lemma TargetMeans(ssid: Ssid)
    ensures |Target(ssid).permit| == 1 && Target(ssid).permit[0].ssid == ssid && Target(ssid).permit[0].bssType == 1
    ensures |Target(ssid).deny| == 2 && Target(ssid).deny[0].bssType == 1 && Target(ssid).deny[1].bssType == 2
    ensures Target(ssid).deny[0].ssid.length == 0 && Target(ssid).deny[1].ssid.length == 0
  {
  }

  function Listed(lists: map<Guid, Lists>, g: Guid): Lists {
    if g in lists then lists[g] else Lists([], [])
  }

  /** The lists after every interface in `gs` has been repaired. */
  function Repaired(lists: map<Guid, Lists>, gs: seq<Guid>, ssid: Ssid): map<Guid, Lists> {
    if gs == [] then lists else Repaired(lists, gs[..|gs| - 1], ssid)[gs[|gs| - 1] := Target(ssid)]
  }

  lemma OneMoreRepaired(lists: map<Guid, Lists>, gs: seq<Guid>, i: nat, ssid: Ssid)
    requires i < |gs|
    ensures Repaired(lists, gs[..i + 1], ssid) == Repaired(lists, gs[..i], ssid)[gs[i] := Target(ssid)]
  {
    assert gs[..i + 1][..i] == gs[..i];
  }

  /** The WLAN service. Any call may fail: `fails` decides by the number of the call. */
  class WlanApi {
    const fails: nat -> bool
    const ifaces: seq<Guid>
    var calls: nat
    var lists: map<Guid, Lists>

    constructor (fails: nat -> bool, ifaces: seq<Guid>, lists: map<Guid, Lists>)
      ensures this.fails == fails && this.ifaces == ifaces && this.lists == lists
    {
      this.fails, this.ifaces, this.lists, calls := fails, ifaces, lists, 0;
    }

    method Attempt() returns (ok: bool)
      modifies this`calls
      ensures ok == !fails(old(calls)) && calls == old(calls) + 1
    {
      ok := !fails(calls);
      calls := calls + 1;
    }

    /** The service parses the buffer it is given. */
    method SetFilterList(g: Guid, permit: bool, buf: array<U8>) returns (ok: bool)
      requires IsList(buf[..])
      modifies this`calls, this`lists
      ensures ok == !fails(old(calls)) && calls == old(calls) + 1
      ensures lists == if !ok then old(lists)
        else if permit then old(lists)[g := Lists(Unpacked(buf[..]), Listed(old(lists), g).deny)]
        else old(lists)[g := Lists(Listed(old(lists), g).permit, Unpacked(buf[..]))]
    {
      ok := Attempt();
      if ok {
        var l := Listed(lists, g);
        lists := lists[g := if permit then Lists(Unpacked(buf[..]), l.deny) else Lists(l.permit, Unpacked(buf[..]))];
      }
    }

    /** The service hands out a buffer in the same layout. */
    method GetFilterList(g: Guid, permit: bool) returns (ok: bool, buf: array<U8>)
      modifies this`calls
      ensures ok == !fails(old(calls)) && calls == old(calls) + 1
      ensures fresh(buf) && buf[..] == Packed(if permit then Listed(lists, g).permit else Listed(lists, g).deny)
    {
      ok := Attempt();
      buf := Pack(if permit then Listed(lists, g).permit else Listed(lists, g).deny);
    }
  }

  /** A list the service can hold: its count fits the header. */
  ghost predicate Fits(lists: map<Guid, Lists>) {
    forall g :: g in lists ==> |lists[g].permit| < 0x1_0000_0000 && |lists[g].deny| < 0x1_0000_0000
  }

  method SetFilter(api: WlanApi, g: Guid, permit: bool, nets: seq<Network>) returns (ok: bool)
    requires |nets| < 0x1_0000_0000
    modifies api`calls, api`lists
    ensures ok == !api.fails(old(api.calls)) && api.calls == old(api.calls) + 1
    ensures api.lists == if !ok then old(api.lists)
      else if permit then old(api.lists)[g := Lists(nets, Listed(old(api.lists), g).deny)]
      else old(api.lists)[g := Lists(Listed(old(api.lists), g).permit, nets)]
  {
    var buf := Pack(nets);
    PackUnpack(nets);
    ok := api.SetFilterList(g, permit, buf);
  }

  method GetFilter(api: WlanApi, g: Guid, permit: bool) returns (ok: bool, nets: seq<Network>)
    requires Fits(api.lists)
    modifies api`calls
    ensures ok == !api.fails(old(api.calls)) && api.calls == old(api.calls) + 1
    ensures ok ==> nets == if permit then Listed(api.lists, g).permit else Listed(api.lists, g).deny
  {
    var buf;
    ok, buf := api.GetFilterList(g, permit);
    if !ok { return ok, []; }
    PackUnpack(if permit then Listed(api.lists, g).permit else Listed(api.lists, g).deny);
    nets := Unpack(buf);
  }

  /** The check: no error, and every interface permits the network and denies something. None is an API error. */
  method FiltersOK(api: WlanApi, ssid: seq<U8>) returns (r: Option<bool>)
    requires Fits(api.lists)
    modifies api`calls
    ensures r.Some? ==> (r.value <==> forall i :: 0 <= i < |api.ifaces| ==> Good(Listed(api.lists, api.ifaces[i]), ssid))
    ensures api.calls >= old(api.calls) && (r.None? ==> api.calls > old(api.calls) && api.fails(api.calls - 1))
    ensures (forall k :: !api.fails(k)) ==> r.Some?
  {
    var ok := api.Attempt();  // WlanOpenHandle
    if !ok { return None; }
    ok := api.Attempt();      // WlanEnumInterfaces
    if !ok { return None; }
    for i := 0 to |api.ifaces|
      invariant api.calls > old(api.calls)
      invariant forall k :: 0 <= k < i ==> Good(Listed(api.lists, api.ifaces[k]), ssid)
    {
      var g := api.ifaces[i];
      var permit, deny;
      ok, permit := GetFilter(api, g, true);
      if !ok { return None; }
      ok, deny := GetFilter(api, g, false);
      if !ok { return None; }
      var found := false;
      for k := 0 to |permit|
        invariant !found
        invariant forall j :: 0 <= j < k ==> !(SsidEquals(permit[j].ssid, ssid) && permit[j].bssType == INFRASTRUCTURE)
      {
        if SsidEquals(permit[k].ssid, ssid) && permit[k].bssType == INFRASTRUCTURE {
          found := true;
          break;
        }
      }
      if !found || |deny| == 0 { return Some(false); }
    }
    return Some(true);
  }

  /**
   * The repair. On success every interface holds the target lists. On an error at interface `at`, all before it
   * do, all others are untouched, and `at` itself may have its permit list set.
   */
  method ApplyFilters(api: WlanApi, name: seq<U8>) returns (ok: bool, ghost at: nat)
    modifies api`calls, api`lists
    ensures |name| > SSID_MAX ==> !ok && api.lists == old(api.lists)
    ensures |name| <= SSID_MAX ==> var ssid := SsidFromString(name).value;
      && at <= |api.ifaces|
      && (ok ==> at == |api.ifaces|)
      && (|| api.lists == Repaired(old(api.lists), api.ifaces[..at], ssid)
          || (!ok && at < |api.ifaces|
              && var before := Repaired(old(api.lists), api.ifaces[..at], ssid);
                 var g := api.ifaces[at];
                 api.lists == before[g := Lists(Target(ssid).permit, Listed(before, g).deny)]))
    ensures |name| <= SSID_MAX && !ok ==> api.calls > old(api.calls) && api.fails(api.calls - 1)
    ensures |name| <= SSID_MAX && (forall k :: !api.fails(k)) ==> ok
    ensures ok ==> api.lists == Repaired(old(api.lists), api.ifaces, SsidFromString(name).value)
  {
    at := 0;
    var conv := SsidFromString(name);
    if conv.None? { return false, 0; }
    var ssid := conv.value;
    ghost var lists0 := api.lists;
    assert Repaired(lists0, api.ifaces[..0], ssid) == lists0;
    ok := api.Attempt();  // WlanOpenHandle
    if !ok { return; }
    ok := api.Attempt();  // WlanEnumInterfaces
    if !ok { return; }
    var permit := [Network(ssid, INFRASTRUCTURE)];
    var deny := [Network(EMPTY_SSID, INFRASTRUCTURE), Network(EMPTY_SSID, INDEPENDENT)];
    for i := 0 to |api.ifaces|
      invariant api.calls > old(api.calls)
      invariant ok && at == i && api.lists == Repaired(lists0, api.ifaces[..i], ssid)
    {
      var g := api.ifaces[i];
      ghost var before := api.lists;
      ok := SetFilter(api, g, true, permit);
      if !ok { return; }
      ok := SetFilter(api, g, false, deny);
      if !ok { return; }
      at := i + 1;
      assert api.lists == before[g := Target(ssid)];
      OneMoreRepaired(lists0, api.ifaces, i, ssid);
    }
    assert api.ifaces[..|api.ifaces|] == api.ifaces;
  }

  /** Repair sets the interfaces named and leaves the others alone. */
  lemma {:induction false} RepairedAt(lists: map<Guid, Lists>, gs: seq<Guid>, ssid: Ssid, g: Guid)
    ensures var r := Repaired(lists, gs, ssid);
      && (g in r <==> g in lists || g in gs)
      && Listed(r, g) == if g in gs then Target(ssid) else Listed(lists, g)
  {
    if gs != [] {
      RepairedAt(lists, gs[..|gs| - 1], ssid, g);
      assert gs == gs[..|gs| - 1] + [gs[|gs| - 1]];
    }
  }

  /** A repaired set of lists passes the check for every interface and every name that has an SSID. */
  lemma RepairedIsGood(lists: map<Guid, Lists>, gs: seq<Guid>, name: seq<U8>)
    requires |name| <= SSID_MAX
    ensures forall g :: g in gs ==> Good(Listed(Repaired(lists, gs, SsidFromString(name).value), g), name)
  {
    var ssid := SsidFromString(name).value;
    SsidIdentifies(name, name);
    forall g | g in gs ensures Good(Listed(Repaired(lists, gs, ssid), g), name) {
      RepairedAt(lists, gs, ssid, g);
      assert Target(ssid).permit[0] == Network(ssid, INFRASTRUCTURE);
    }
  }

  /** Repairing again changes nothing. */
  lemma RepairIsIdempotent(lists: map<Guid, Lists>, gs: seq<Guid>, ssid: Ssid)
    ensures var once := Repaired(lists, gs, ssid); Repaired(once, gs, ssid) == once
  {
    var once := Repaired(lists, gs, ssid);
    var twice := Repaired(once, gs, ssid);
    forall g: Guid ensures (g in twice <==> g in once) && Listed(twice, g) == Listed(once, g) {
      RepairedAt(lists, gs, ssid, g);
      RepairedAt(once, gs, ssid, g);
    }
    forall g | g in once ensures twice[g] == once[g] {
      assert Listed(twice, g) == Listed(once, g);
    }
  }

  predicate AllGood(lists: map<Guid, Lists>, gs: seq<Guid>, ssid: seq<U8>) {
    forall i :: 0 <= i < |gs| ==> Good(Listed(lists, gs[i]), ssid)
  }

  predicate AllDeny(lists: map<Guid, Lists>, gs: seq<Guid>) {
    forall i :: 0 <= i < |gs| ==> DeniesAll(Listed(lists, gs[i]))
  }

  lemma RepairedDeniesAll(lists: map<Guid, Lists>, gs: seq<Guid>, ssid: Ssid)
    ensures AllDeny(Repaired(lists, gs, ssid), gs)
  {
    forall i | 0 <= i < |gs| ensures DeniesAll(Listed(Repaired(lists, gs, ssid), gs[i])) {
      RepairedAt(lists, gs, ssid, gs[i]);
      assert Target(ssid).deny[0] == Network(EMPTY_SSID, INFRASTRUCTURE) && Target(ssid).deny[1] == Network(EMPTY_SSID, INDEPENDENT);
    }
  }

  /** The check asks for some denied network, not for all of them: denying one foreign network passes it. */
  lemma ForeignDenyPasses(name: seq<U8>, foreign: Ssid)
    requires |name| <= SSID_MAX && foreign != EMPTY_SSID
    ensures var l := Lists([Network(SsidFromString(name).value, INFRASTRUCTURE)], [Network(foreign, INFRASTRUCTURE)]);
      Good(l, name) && !DeniesAll(l)
  {
    SsidIdentifies(name, name);
    var l := Lists([Network(SsidFromString(name).value, INFRASTRUCTURE)], [Network(foreign, INFRASTRUCTURE)]);
    assert SsidEquals(l.permit[0].ssid, name);
  }

  /**
   * ensureWLANFilter: with no failing call, one pass leaves the check true, and a pass over good lists writes nothing.
   * So it leaves every network denied exactly when it repaired, or they were denied already.
   */
  method EnsureWlanFilter(api: WlanApi, name: seq<U8>) returns (ok: bool)
    requires Fits(api.lists)
    modifies api`calls, api`lists
    ensures AllGood(old(api.lists), api.ifaces, name) || name == [] ==> api.lists == old(api.lists)
    ensures ok && name != [] ==> AllGood(api.lists, api.ifaces, name)
    ensures |name| <= SSID_MAX && (forall k :: !api.fails(k)) ==> ok
    ensures |name| <= SSID_MAX && !ok ==> api.calls > old(api.calls) && api.fails(api.calls - 1)
    ensures 0 < |name| <= SSID_MAX && (forall k :: !api.fails(k)) ==>
      (AllDeny(api.lists, api.ifaces) <==> !AllGood(old(api.lists), api.ifaces, name) || AllDeny(old(api.lists), api.ifaces))
  {
    if name == [] { return true; }
    var r := FiltersOK(api, name);
    if r.None? { return false; }
    if r.value { return true; }
    ghost var lists0 := api.lists;
    ghost var at;
    ok, at := ApplyFilters(api, name);
    if ok {
      RepairedIsGood(lists0, api.ifaces, name);
      RepairedDeniesAll(lists0, api.ifaces, SsidFromString(name).value);
    }
  }
}
