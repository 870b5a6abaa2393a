/** Installing the packet policy: all of it or none of it, whichever engine call fails. */
module WfpEngine {
  import opened Common
  import opened MaskPrefix
  import opened WfpPolicy

  const LG_SUBLAYER: nat := 1
  const LG_MAX_FILTERS: nat := 64

  /** What a session holds: its filters, its sublayers, and whether a transaction is open. */
  datatype Holding = Holding(filters: map<nat, Filter>, sublayers: set<nat>, inTransaction: bool)

  /**
   * The filtering engine as one session sees it. `filters` and `sublayers` are this session's own; what belongs to
   * no open session of ours is `outside`. The source asks for a dynamic session, whose objects go when it closes;
   * those of any other session stay. Any call may fail: `fails` decides by the number of the call.
   */
  class Engine {
    const fails: nat -> bool
    const dynamic: bool
    var outside: map<nat, Filter>
    var outsideSublayers: set<nat>
    var calls: nat
    var open: bool
    var filters: map<nat, Filter>
    var sublayers: set<nat>
    var saved: Option<(map<nat, Filter>, set<nat>)>
    var nextId: nat
    ghost var closing: Holding  // what the last close found

    ghost predicate Valid()
      reads this
    {
      && (forall id :: id in outside ==> id < nextId)
      && (forall id :: id in filters ==> id < nextId && id !in outside)
      && (saved.Some? ==> forall id :: id in saved.value.0 ==> id < nextId && id !in outside)
      && (!open ==> filters == map[] && sublayers == {} && saved.None?)
    }

    /** No call fails. */
    ghost predicate Works() {
      forall k :: !fails(k)
    }

    /** Every filter installed on the machine. */
    function Visible(): map<nat, Filter>
      reads this
    {
      outside + filters
    }

    function VisibleSublayers(): set<nat>
      reads this
    {
      outsideSublayers + sublayers
    }

    constructor (fails: nat -> bool, dynamic: bool, outside: map<nat, Filter>, outsideSublayers: set<nat>, nextId: nat)
      requires forall id :: id in outside ==> id < nextId
      ensures Valid() && !open && this.fails == fails && this.dynamic == dynamic
      ensures Visible() == outside && VisibleSublayers() == outsideSublayers
    {
      this.dynamic, closing := dynamic, Holding(map[], {}, false);
      this.fails, this.outside, this.outsideSublayers, this.nextId := fails, outside, outsideSublayers, nextId;
      calls, open, filters, sublayers, saved := 0, false, map[], {}, None;
    }

    method Attempt() returns (ok: bool)
      modifies this`calls
      ensures ok == !fails(old(calls)) && calls == old(calls) + 1
    {
      ok := !fails(calls);
      calls := calls + 1;
    }

    method Open() returns (ok: bool)
      requires Valid() && !open
      modifies this`calls, this`open
      ensures ok == !fails(old(calls)) && calls == old(calls) + 1
      ensures Valid() && open == ok && unchanged(`filters) && unchanged(`sublayers) && unchanged(`saved)
    {
      ok := Attempt();
      if ok { open := true; }
    }

    method Begin() returns (ok: bool)
      requires Valid() && open
      modifies this`calls, this`saved
      ensures ok == !fails(old(calls)) && calls == old(calls) + 1
      ensures Valid() && saved == if ok then Some((filters, sublayers)) else old(saved)
    {
      ok := Attempt();
      if ok { saved := Some((filters, sublayers)); }
    }

    method SubLayerAdd(key: nat) returns (ok: bool)
      requires Valid() && open
      modifies this`calls, this`sublayers
      ensures Valid() && sublayers == if ok then old(sublayers) + {key} else old(sublayers)
      ensures ok <==> !fails(old(calls)) && key !in old(VisibleSublayers())
    {
      ok := Attempt();
      if key in VisibleSublayers() { ok := false; }
      if ok { sublayers := sublayers + {key}; }
    }

    method FilterAdd(f: Filter) returns (ok: bool, id: nat)
      requires Valid() && open
      modifies this`calls, this`filters, this`nextId
      ensures Valid() && filters == if ok then old(filters)[id := f] else old(filters)
      ensures ok == !fails(old(calls)) && (ok ==> id !in old(Visible()))
    {
      ok := Attempt();
      id := nextId;
      if ok {
        filters := filters[id := f];
        nextId := nextId + 1;
      }
    }

    method FilterDelete(id: nat) returns (ok: bool)
      requires Valid() && open
      modifies this`calls, this`filters
      ensures ok == !fails(old(calls))
      ensures Valid() && filters == if ok then old(filters) - {id} else old(filters)
    {
      ok := Attempt();
      if ok { filters := filters - {id}; }
    }

    /** A sublayer in use cannot be deleted, and all the session's filters are in the one it adds. */
    method SubLayerDelete(key: nat) returns (ok: bool)
      requires Valid() && open
      modifies this`calls, this`sublayers
      ensures ok <==> !fails(old(calls)) && filters == map[]
      ensures Valid() && sublayers == if ok then old(sublayers) - {key} else old(sublayers)
    {
      ok := Attempt();
      if filters != map[] { ok := false; }
      if ok { sublayers := sublayers - {key}; }
    }

    method Commit() returns (ok: bool)
      requires Valid() && open
      modifies this`calls, this`saved
      ensures ok == !fails(old(calls))
      ensures Valid() && saved == if ok then None else old(saved)
    {
      ok := Attempt();
      if ok { saved := None; }
    }

    method Abort() returns (ok: bool)
      requires Valid() && open && saved.Some?
      modifies this`calls, this`filters, this`sublayers, this`saved
      ensures Valid() && ok == !fails(old(calls)) && calls == old(calls) + 1
      ensures ok ==> (filters, sublayers) == old(saved).value && saved == None
      ensures !ok ==> unchanged(`filters) && unchanged(`sublayers) && unchanged(`saved)
    {
      ok := Attempt();
      if ok { filters, sublayers, saved := saved.value.0, saved.value.1, None; }
    }

    /** Closing rolls an open transaction back, and then drops a dynamic session's objects. */
    method Close()
      requires Valid() && open
      modifies this`open, this`filters, this`sublayers, this`saved, this`outside, this`outsideSublayers, this`closing
      ensures Valid() && !open
      ensures closing == Holding(old(filters), old(sublayers), old(saved).Some?)
      ensures var (kept, keptSublayers) := if old(saved).Some? then old(saved).value else (old(filters), old(sublayers));
        && Visible() == (if dynamic then old(outside) else old(outside) + kept)
        && VisibleSublayers() == (if dynamic then old(outsideSublayers) else old(outsideSublayers) + keptSublayers)
    {
      closing := Holding(filters, sublayers, saved.Some?);
      if saved.Some? { filters, sublayers, saved := saved.value.0, saved.value.1, None; }
      if !dynamic { outside, outsideSublayers := outside + filters, outsideSublayers + sublayers; }
      open, filters, sublayers := false, map[], {};
    }
  }

  /** The filters under a list of ids. */
  function Lookup(ids: seq<nat>, filters: map<nat, Filter>): (fs: seq<Filter>)
    requires forall i :: 0 <= i < |ids| ==> ids[i] in filters
    ensures |fs| == |ids|
  {
    seq(|ids|, i requires 0 <= i < |ids| => filters[ids[i]])
  }

  lemma LookupOneMore(ids: seq<nat>, filters: map<nat, Filter>, id: nat, f: Filter)
    requires id !in filters && forall i :: 0 <= i < |ids| ==> ids[i] in filters
    ensures Lookup(ids + [id], filters[id := f]) == Lookup(ids, filters) + [f]
  {
  }

  lemma OneMore(before: seq<Filter>, fs: seq<Filter>, i: nat)
    requires i < |fs|
    ensures (before + fs[..i]) + [fs[i]] == before + fs[..i + 1]
  {
  }

  lemma SixMore(before: seq<Filter>)
    ensures before + [DenyFilter(ConnectV4)] + [DenyFilter(ConnectV6)] + [DenyFilter(AcceptV4)] + [DenyFilter(AcceptV6)]
      + [DenyFilter(BindV4)] + [DenyFilter(BindV6)] == before + Denials()
  {
  }

  lemma Regroup(before: seq<Filter>, a: seq<Filter>, b: seq<Filter>, c: seq<Filter>)
    ensures ((before + a) + b) + c == before + (a + b + c)
  {
  }

  /** What the prefix loop finds in the mask of a range is the prefix length of that range. */
  lemma PrefixOfRange(i: nat, prefix: nat)
    requires i < |V6_RANGES| && IsLeadingOnes(V6_RANGES[i].1, prefix)
    ensures prefix == V6_PREFIXES[i]
  {
    V6PrefixesAreLeadingOnes(i);
    LeadingOnesUnique(V6_RANGES[i].1, prefix, V6_PREFIXES[i]);
  }

  /** The globals and functions of wfp.c. */
  class Wfp {
    const engine: Engine
    var handle: bool
    const filterIds: array<nat>
    var filterCount: nat

    ghost predicate Valid()
      reads this, engine
    {
      && engine.Valid() && handle == engine.open
      && filterIds.Length == LG_MAX_FILTERS && filterCount <= LG_MAX_FILTERS
    }

    /** The ids recorded from position `start` on are distinct and are exactly the session's filters. */
    ghost predicate Tracks(start: nat)
      requires Valid()
      reads this, engine, filterIds
    {
      && start <= filterCount
      && (forall i, j :: start <= i < j < filterCount ==> filterIds[i] != filterIds[j])
      && (forall i :: start <= i < filterCount ==> filterIds[i] in engine.filters)
      && (forall id :: id in engine.filters ==> id in filterIds[start..filterCount])
    }

    /** Every filter of the session has its id in the table. */
    ghost predicate AllRecorded()
      requires Valid()
      reads this, engine, filterIds
    {
      forall id :: id in engine.filters ==> id in filterIds[..filterCount]
    }

    /** The filters recorded from position `start` on, in order. */
    ghost function Recorded(start: nat): (fs: seq<Filter>)
      requires Valid() && Tracks(start)
      reads this, engine, filterIds
      ensures |fs| == filterCount - start
    {
      Lookup(filterIds[start..filterCount], engine.filters)
    }

    constructor (engine: Engine)
      requires engine.Valid() && !engine.open
      ensures Valid() && !handle && filterCount == 0 && this.engine == engine && fresh(filterIds)
    {
      this.engine := engine;
      handle, filterCount := false, 0;
      filterIds := new nat[LG_MAX_FILTERS](_ => 0);
    }

    /** The second check of the table bound in the source can never fire: nothing runs between the two. */
    method AddFilter(f: Filter, ghost start: nat) returns (ok: bool)
      requires Valid() && engine.open && Tracks(start)
      modifies this`filterCount, filterIds, engine`calls, engine`filters, engine`nextId
      ensures Valid() && Tracks(start)
      ensures Recorded(start) == if ok then old(Recorded(start)) + [f] else old(Recorded(start))
      ensures ok <==> old(filterCount) < LG_MAX_FILTERS && !engine.fails(old(engine.calls))
    {
      if filterCount >= LG_MAX_FILTERS { return false; }
      ghost var ids, filters := filterIds[start..filterCount], engine.filters;
      var id;
      ok, id := engine.FilterAdd(f);
      if ok {
        filterIds[filterCount] := id;
        filterCount := filterCount + 1;
        assert filterIds[start..filterCount] == ids + [id];
        LookupOneMore(ids, filters, id, f);
      }
    }

    method InstallV4LanPermit(layer: Layer, weight: nat, ghost start: nat) returns (ok: bool)
      requires Valid() && engine.open && Tracks(start)
      modifies this`filterCount, filterIds, engine`calls, engine`filters, engine`nextId
      ensures Valid() && Tracks(start)
      ensures ok ==> Recorded(start) == old(Recorded(start)) + V4Lan(layer, weight)
      ensures engine.Works() && old(filterCount) + |V4_RANGES| <= LG_MAX_FILTERS ==> ok
    {
      ghost var before := Recorded(start);
      for i := 0 to |V4_RANGES|
        invariant Valid() && engine.open && Tracks(start)
        invariant Recorded(start) == before + V4Lan(layer, weight)[..i]
        invariant filterCount == old(filterCount) + i
      {
        var (net, mask) := V4_RANGES[i];
        ok := AddFilter(Filter(layer, Permit, V4Net(net, mask), None, weight), start);
        if !ok { return false; }
        OneMore(before, V4Lan(layer, weight), i);
      }
      assert V4Lan(layer, weight)[..|V4_RANGES|] == V4Lan(layer, weight);
      return true;
    }

    method InstallV6LanPermit(layer: Layer, weight: nat, ghost start: nat) returns (ok: bool)
      requires Valid() && engine.open && Tracks(start)
      modifies this`filterCount, filterIds, engine`calls, engine`filters, engine`nextId
      ensures Valid() && Tracks(start)
      ensures ok ==> Recorded(start) == old(Recorded(start)) + V6Lan(layer, weight)
      ensures engine.Works() && old(filterCount) + |V6_RANGES| <= LG_MAX_FILTERS ==> ok
    {
      ghost var before := Recorded(start);
      for i := 0 to |V6_RANGES|
        invariant Valid() && engine.open && Tracks(start)
        invariant Recorded(start) == before + V6Lan(layer, weight)[..i]
        invariant filterCount == old(filterCount) + i
      {
        var (net, mask) := V6_RANGES[i];
        var prefix := PrefixLength(mask);
        PrefixOfRange(i, prefix);
        ok := AddFilter(Filter(layer, Permit, V6Net(net, prefix), None, weight), start);
        if !ok { return false; }
        OneMore(before, V6Lan(layer, weight), i);
      }
      assert V6Lan(layer, weight)[..|V6_RANGES|] == V6Lan(layer, weight);
      return true;
    }

    method InstallMulticastDiscovery(layer: Layer, weight: nat, ghost start: nat) returns (ok: bool)
      requires Valid() && engine.open && Tracks(start)
      modifies this`filterCount, filterIds, engine`calls, engine`filters, engine`nextId
      ensures Valid() && Tracks(start)
      ensures ok ==> Recorded(start) == old(Recorded(start)) + Discovery(layer, weight)
      ensures engine.Works() && old(filterCount) + |MULTICAST| <= LG_MAX_FILTERS ==> ok
    {
      ghost var before := Recorded(start);
      for i := 0 to |MULTICAST|
        invariant Valid() && engine.open && Tracks(start)
        invariant Recorded(start) == before + Discovery(layer, weight)[..i]
        invariant filterCount == old(filterCount) + i
      {
        var (addr, port) := MULTICAST[i];
        ok := AddFilter(Filter(layer, Permit, V4Net(addr, 0xFFFF_FFFF), Some(port), weight), start);
        if !ok { return false; }
        OneMore(before, Discovery(layer, weight), i);
      }
      assert Discovery(layer, weight)[..|MULTICAST|] == Discovery(layer, weight);
      return true;
    }

    /** Default-deny at the lowest weight, so that every permit wins. */
    method InstallDefaultDeny(layer: Layer, ghost start: nat) returns (ok: bool)
      requires Valid() && engine.open && Tracks(start)
      modifies this`filterCount, filterIds, engine`calls, engine`filters, engine`nextId
      ensures Valid() && Tracks(start)
      ensures ok ==> Recorded(start) == old(Recorded(start)) + [DenyFilter(layer)]
      ensures engine.Works() && old(filterCount) + 1 <= LG_MAX_FILTERS ==> ok
    {
      ok := AddFilter(Filter(layer, Block, AnyAddr, None, 0x100), start);
    }

    /** The six calls of LgInstallDefaultDeny. */
    method InstallDenials(ghost start: nat) returns (ok: bool)
      requires Valid() && engine.open && Tracks(start)
      modifies this`filterCount, filterIds, engine`calls, engine`filters, engine`nextId
      ensures Valid() && Tracks(start)
      ensures ok ==> Recorded(start) == old(Recorded(start)) + Denials()
      ensures engine.Works() && old(filterCount) + 6 <= LG_MAX_FILTERS ==> ok
    {
      ghost var before := Recorded(start);
      ok := InstallDefaultDeny(ConnectV4, start);
      if !ok { return; }
      ok := InstallDefaultDeny(ConnectV6, start);
      if !ok { return; }
      ok := InstallDefaultDeny(AcceptV4, start);
      if !ok { return; }
      ok := InstallDefaultDeny(AcceptV6, start);
      if !ok { return; }
      ok := InstallDefaultDeny(BindV4, start);
      if !ok { return; }
      ok := InstallDefaultDeny(BindV6, start);
      SixMore(before);
    }

    /** The IPv4 part of the transaction. */
    method InstallV4(ghost start: nat) returns (ok: bool)
      requires Valid() && engine.open && Tracks(start)
      modifies this`filterCount, filterIds, engine`calls, engine`filters, engine`nextId
      ensures Valid() && Tracks(start)
      ensures ok ==> Recorded(start) == old(Recorded(start)) + V4Policy()
      ensures engine.Works() && old(filterCount) + 10 <= LG_MAX_FILTERS ==> ok
    {
      ghost var before := Recorded(start);
      ok := InstallV4LanPermit(ConnectV4, PERMIT_W, start);
      if !ok { return; }
      ok := InstallV4LanPermit(AcceptV4, PERMIT_W, start);
      if !ok { return; }
      ok := InstallMulticastDiscovery(ConnectV4, PERMIT_W, start);
      Regroup(before, V4Lan(ConnectV4, PERMIT_W), V4Lan(AcceptV4, PERMIT_W), Discovery(ConnectV4, PERMIT_W));
    }

    /** The IPv6 part. */
    method InstallV6(ghost start: nat) returns (ok: bool)
      requires Valid() && engine.open && Tracks(start)
      modifies this`filterCount, filterIds, engine`calls, engine`filters, engine`nextId
      ensures Valid() && Tracks(start)
      ensures ok ==> Recorded(start) == old(Recorded(start)) + V6Policy()
      ensures engine.Works() && old(filterCount) + 4 <= LG_MAX_FILTERS ==> ok
    {
      ok := InstallV6LanPermit(ConnectV6, PERMIT_W, start);
      if !ok { return; }
      ok := InstallV6LanPermit(AcceptV6, PERMIT_W, start);
    }

    /** The body of the transaction. */
    method InstallAll(ghost start: nat) returns (ok: bool)
      requires Valid() && engine.open && Tracks(start)
      modifies this`filterCount, filterIds, engine`calls, engine`filters, engine`nextId
      ensures Valid() && Tracks(start)
      ensures ok ==> Recorded(start) == old(Recorded(start)) + Policy()
      ensures engine.Works() && old(filterCount) + 20 <= LG_MAX_FILTERS ==> ok
    {
      ghost var before := Recorded(start);
      ok := InstallV4(start);
      if !ok { return; }
      ok := InstallV6(start);
      if !ok { return; }
      ok := InstallDenials(start);
      Regroup(before, V4Policy(), V6Policy(), Denials());
    }

    /** The transaction of LgWfpInitialize, up to its first failure. */
    method Transact(ghost start: nat) returns (ok: bool, inTx: bool)
      requires Valid() && engine.open && engine.saved.None? && Tracks(start)
      modifies this`filterCount, filterIds, engine`calls, engine`filters, engine`sublayers, engine`saved, engine`nextId
      ensures Valid()
      ensures ok ==> Tracks(start) && Recorded(start) == old(Recorded(start)) + Policy() && engine.saved.None?
      ensures ok ==> engine.sublayers == old(engine.sublayers) + {LG_SUBLAYER} && LG_SUBLAYER !in old(engine.VisibleSublayers())
      ensures engine.Works() && old(filterCount) + 20 <= LG_MAX_FILTERS && LG_SUBLAYER !in old(engine.VisibleSublayers()) ==> ok
      ensures !ok && inTx ==> engine.saved == Some(old((engine.filters, engine.sublayers)))
      ensures !ok && !inTx ==> engine.saved.None? && engine.filters == old(engine.filters) && engine.sublayers == old(engine.sublayers)
      ensures !ok && !inTx ==> engine.calls > 0 && engine.fails(engine.calls - 1)
    {
      inTx := engine.Begin();
      ok := inTx;
      if ok {
        ok := engine.SubLayerAdd(LG_SUBLAYER);
      }
      if ok {
        ok := InstallAll(start);
      }
      if ok {
        ok := engine.Commit();
      }
    }

    /** The failure exit of LgWfpInitialize. */
    method BackOut(inTx: bool)
      requires Valid() && engine.open && inTx == engine.saved.Some?
      requires !inTx ==> engine.calls > 0 && engine.fails(engine.calls - 1)
      modifies this`handle, engine`calls, engine`open, engine`filters, engine`sublayers, engine`saved,
        engine`outside, engine`outsideSublayers, engine`closing
      ensures Valid() && !handle
      ensures var (kept, keptSublayers) := if inTx then old(engine.saved).value else old((engine.filters, engine.sublayers));
        && engine.Visible() == (if engine.dynamic then old(engine.outside) else old(engine.outside) + kept)
        && engine.VisibleSublayers() == (if engine.dynamic then old(engine.outsideSublayers) else old(engine.outsideSublayers) + keptSublayers)
        && engine.calls > 0
        && (engine.fails(engine.calls - 1) || engine.closing == Holding(kept, keptSublayers, false))
    {
      if inTx {
        var _ := engine.Abort();
      }
      engine.Close();
      handle := false;
    }

    /**
     * All or nothing: on success the session's filters are exactly the policy, under the ids recorded by this
     * call, and let through exactly the allowed traffic. On failure, dynamic session or not, the machine's filters and
     * sublayers are those before the call; and unless the last engine call, the abort, has itself failed, the close
     * finds the session already back at the snapshot.
     */
    method Initialize() returns (ok: bool)
      requires Valid() && !handle
      modifies this`handle, this`filterCount, filterIds,
        engine`calls, engine`open, engine`filters, engine`sublayers, engine`saved, engine`nextId,
        engine`outside, engine`outsideSublayers, engine`closing
      ensures Valid() && handle == ok
      ensures ok ==> Tracks(old(filterCount)) && Recorded(old(filterCount)) == Policy()
      ensures ok ==> forall p :: Verdict(Recorded(old(filterCount)), p) == Permit <==> Allowed(p)
      ensures engine.Works() && old(filterCount) + 20 <= LG_MAX_FILTERS && LG_SUBLAYER !in old(engine.VisibleSublayers()) ==> ok
      ensures ok ==> AllRecorded() && engine.saved.None? && engine.sublayers == {LG_SUBLAYER}
      ensures ok ==> engine.outside == old(engine.outside) && engine.outsideSublayers == old(engine.outsideSublayers)
      ensures ok ==> LG_SUBLAYER !in engine.outsideSublayers
      ensures !ok ==> engine.Visible() == old(engine.Visible()) && engine.VisibleSublayers() == old(engine.VisibleSublayers())
      ensures !ok ==> engine.calls > 0 && (engine.fails(engine.calls - 1) || engine.closing == Holding(map[], {}, false))
    {
      ghost var start := filterCount;
      ok := engine.Open();
      if !ok { return false; }
      handle := true;
      var inTx;
      ok, inTx := Transact(start);
      if ok {
        PolicyIsAllowed();
        return true;
      }
      BackOut(inTx);
    }

    /** The loop of LgWfpFinalize over the id table. */
    method DeleteRecorded()
      requires Valid() && engine.open
      modifies engine`calls, engine`filters
      ensures Valid()
      ensures engine.Works() && old(AllRecorded()) ==> engine.filters == map[]
    {
      for i := 0 to filterCount
        invariant Valid() && engine.open
        invariant engine.Works() && old(AllRecorded()) ==> forall id :: id in engine.filters ==> id in filterIds[i..filterCount]
      {
        var _ := engine.FilterDelete(filterIds[i]);
      }
    }

    /** The transaction of LgWfpFinalize. */
    method EmptySession()
      requires Valid() && engine.open
      modifies engine`calls, engine`filters, engine`sublayers, engine`saved
      ensures Valid()
      ensures engine.Works() && old(AllRecorded()) ==>
        engine.filters == map[] && engine.sublayers == old(engine.sublayers) - {LG_SUBLAYER} && engine.saved.None?
    {
      var ok := engine.Begin();
      if ok {
        DeleteRecorded();
        var _ := engine.SubLayerDelete(LG_SUBLAYER);
        var _ := engine.Commit();
      }
    }

    /**
     * With no failing call, deleting the recorded ids and then the sublayer empties the session before it is closed,
     * so that dynamic or not the machine is left with what is not the session's. Closing a dynamic session comes to
     * the same whatever fails.
     */
    method Finalize()
      requires Valid()
      modifies this`handle, this`filterCount, engine`calls, engine`open, engine`filters, engine`sublayers, engine`saved,
        engine`outside, engine`outsideSublayers, engine`closing
      ensures Valid() && !handle
      ensures filterCount == if old(handle) then 0 else old(filterCount)
      ensures old(handle && AllRecorded()) && engine.Works() ==>
        engine.closing == Holding(map[], old(engine.sublayers) - {LG_SUBLAYER}, false)
      ensures engine.dynamic || (engine.Works() && old(AllRecorded() && engine.sublayers <= {LG_SUBLAYER})) ==>
        engine.Visible() == old(engine.outside) && engine.VisibleSublayers() == old(engine.outsideSublayers)
    {
      if !handle { return; }
      EmptySession();
      engine.Close();
      handle := false;
      filterCount := 0;
    }

    /** Bringing the filters up and down again leaves the machine as it was. */
    method UpAndDown()
      requires Valid() && !handle
      modifies this`handle, this`filterCount, filterIds,
        engine`calls, engine`open, engine`filters, engine`sublayers, engine`saved, engine`nextId,
        engine`outside, engine`outsideSublayers, engine`closing
      ensures engine.dynamic || engine.Works() ==>
        engine.Visible() == old(engine.Visible()) && engine.VisibleSublayers() == old(engine.VisibleSublayers())
    {
      var ok := Initialize();
      if ok { Finalize(); }
    }
  }

  /** The recorded list fits the table, and every permit of the policy outweighs every denial. */
  lemma PolicyFits()
    ensures |Policy()| == 20 && LG_MAX_FILTERS == 64
    ensures forall f :: f in Policy() ==> f.weight == if f.action == Permit then 0xF000 else 0x100
    ensures forall f, g :: f in Policy() && g in Policy() && f.action == Permit && g.action == Block ==> f.weight > g.weight
  {
    forall f | f in Policy() ensures f.weight == if f.action == Permit then PERMIT_W else DENY_W {
      PolicyMembers(f);
    }
  }
}
