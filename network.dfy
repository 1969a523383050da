/**
  The fixed-capacity network pool of the QEMU engine, as
  `TestNetworkCreateDestroy` (engines/qemu/network/pool_test.go) pins it
  down: `NewPool(N)` provisions N segments, `Network()` leases a free one or
  fails with `ErrAllNetworksInUse`, `Release()` hands a segment back, and
  `Dispose()` tears the pool down once every lease is back.

  The pool keeps one in-use flag per slot in an array. Creating the host
  tap devices, bridges and metadata listeners is I/O and is not modelled:
  the constructor receives the provisioned tap device names, and `Dispose`
  receives the outcome of tearing down each slot.
*/
module NetworkPool {
  import opened Wrappers
  import opened QemuOptions

  /** Errors `Network()` reports. */
  datatype PoolError = AllNetworksInUse

  /** An HTTP handler attached to a segment's metadata service; opaque here. */
  datatype Handler = Handler(name: string)

  /** Number of slots marked in use. */
  function CountInUse(s: seq<bool>): nat
    decreases |s|
  {
    if s == [] then 0 else CountInUse(s[..|s| - 1]) + (if s[|s| - 1] then 1 else 0)
  }

  /** The in-use count never exceeds the number of slots. */
  lemma {:induction false} CountBounded(s: seq<bool>)
    ensures CountInUse(s) <= |s|
    decreases |s|
  {
    if s != [] {
      CountBounded(s[..|s| - 1]);
    }
  }

  /** Every slot is in use exactly when the count reaches the number of slots. */
  lemma {:induction false} CountFull(s: seq<bool>)
    ensures CountInUse(s) == |s| <==> forall i :: 0 <= i < |s| ==> s[i]
    decreases |s|
  {
    if s != [] {
      var init := s[..|s| - 1];
      CountFull(init);
      CountBounded(init);
      if forall i :: 0 <= i < |s| ==> s[i] {
        assert forall i :: 0 <= i < |init| ==> init[i] == s[i];
      }
    }
  }

  /** No slot is in use exactly when the count is zero. */
  lemma {:induction false} CountEmpty(s: seq<bool>)
    ensures CountInUse(s) == 0 <==> forall i :: 0 <= i < |s| ==> !s[i]
    decreases |s|
  {
    if s != [] {
      var init := s[..|s| - 1];
      CountEmpty(init);
      if forall i :: 0 <= i < |s| ==> !s[i] {
        assert forall i :: 0 <= i < |init| ==> init[i] == s[i];
      }
    }
  }

  /** Marking a free slot in use raises the count by one; freeing a used slot lowers it by one. */
  lemma {:induction false} CountUpdate(s: seq<bool>, i: nat, b: bool)
    requires i < |s|
    ensures CountInUse(s[i := b]) ==
      CountInUse(s) + (if b && !s[i] then 1 else 0) - (if !b && s[i] then 1 else 0)
    decreases |s|
  {
    var n := |s| - 1;
    if i < n {
      CountUpdate(s[..n], i, b);
      assert s[i := b][..n] == s[..n][i := b];
    } else {
      assert s[i := b][..n] == s[..n];
    }
  }

  /** The slot a scan from the front would hand out: the lowest free one, if any. */
  function FirstFree(s: seq<bool>): (r: Option<nat>)
    ensures r.None? <==> forall i :: 0 <= i < |s| ==> s[i]
    ensures r.Some? ==> r.value < |s| && !s[r.value] && forall j :: 0 <= j < r.value ==> s[j]
    decreases |s|
  {
    if s == [] then None
    else if !s[0] then Some(0)
    else
      match FirstFree(s[1..])
      case None => None
      case Some(i) => Some(i + 1)
  }

  /** A lease fails exactly when the pool is at capacity. */
  lemma FirstFreeIffFull(s: seq<bool>)
    ensures FirstFree(s).None? <==> CountInUse(s) == |s|
  {
    CountFull(s);
  }

  /** The first teardown error, scanning the slots in order. */
  function FirstError(outcomes: seq<Option<Error>>): (r: Option<Error>)
    ensures r.None? <==> forall i :: 0 <= i < |outcomes| ==> outcomes[i].None?
    ensures r.Some? ==> exists k :: 0 <= k < |outcomes| && outcomes[k] == r
                                    && forall j :: 0 <= j < k ==> outcomes[j].None?
    decreases |outcomes|
  {
    if outcomes == [] then None
    else
      var init := outcomes[..|outcomes| - 1];
      var prev := FirstError(init);
      assert forall j :: 0 <= j < |init| ==> init[j] == outcomes[j];
      if prev.Some? then prev else outcomes[|outcomes| - 1]
  }

  /** One isolated segment: a tap device and the handler its metadata service delegates to. */
  class Network {
    /** The pool this segment belongs to. */
    const pool: Pool
    /** Index of this segment's slot in the pool. */
    const slot: nat
    /** The host tap interface the guest NIC is attached to. */
    const tapDevice: string
    /** Handler for metadata requests from the guest; `None` means requests are refused. */
    var handler: Option<Handler>

    constructor (pool: Pool, slot: nat, tapDevice: string)
      ensures this.pool == pool && this.slot == slot && this.tapDevice == tapDevice
      ensures handler == None
    {
      this.pool := pool;
      this.slot := slot;
      this.tapDevice := tapDevice;
      handler := None;
    }

    /**
      The value QEMU's `-netdev` option gets for this segment under `id`
      (network.go is not part of this model: a tap backend on this
      segment's device, declared under `id`).
    */
    function NetDev(id: string): string
    {
      Arg("tap", [("id", id), ("ifname", tapDevice), ("script", "no"), ("downscript", "no")])
    }

    /** The segment is currently lent out by its pool. */
    ghost predicate Leased()
      reads pool, pool.inUse
    {
      pool.Valid() && !pool.disposed && slot < pool.capacity
      && pool.networks[slot] == this && pool.inUse[slot]
    }

    /** Attaches the handler that metadata requests are delegated to. */
    method SetHandler(h: Handler)
      modifies this
      ensures handler == Some(h)
    {
      handler := Some(h);
    }

    /** Hands the segment back to its pool; releasing a free segment is a misuse. */
    method Release()
      requires Leased()
      modifies this, pool.inUse
      ensures pool.Valid() && !pool.disposed
      ensures pool.inUse[..] == old(pool.inUse[..])[slot := false]
      ensures pool.InUseCount() == old(pool.InUseCount()) - 1
      ensures handler == None
    {
      CountUpdate(pool.inUse[..], slot, false);
      pool.inUse[slot] := false;
      handler := None;
    }
  }

  /** A fixed set of segments with one in-use flag per slot. */
  class Pool {
    /** Number of segments, fixed at construction. */
    const capacity: nat
    /** The segments, one per slot. */
    var networks: seq<Network>
    /** Whether each slot is lent out. */
    var inUse: array<bool>
    /** Whether the pool has been torn down. */
    var disposed: bool

    ghost predicate Valid()
      reads this
    {
      && inUse.Length == capacity
      && |networks| == capacity
      && forall i :: 0 <= i < capacity ==> networks[i].pool == this && networks[i].slot == i
    }

    /** Number of segments lent out. */
    ghost function InUseCount(): (n: nat)
      reads this, inUse
      requires Valid()
      ensures n <= capacity
    {
      CountBounded(inUse[..]);
      CountInUse(inUse[..])
    }

    /** `NewPool(N)` with N = |tapDevices|: every segment provisioned and free. */
    constructor (tapDevices: seq<string>)
      ensures Valid() && !disposed && capacity == |tapDevices|
      ensures fresh(inUse) && InUseCount() == 0
      ensures forall i :: 0 <= i < capacity ==> !inUse[i]
      ensures forall i :: 0 <= i < capacity ==>
        fresh(networks[i]) && networks[i].tapDevice == tapDevices[i] && networks[i].handler == None
    {
      capacity := |tapDevices|;
      inUse := new bool[|tapDevices|](_ => false);
      networks := [];
      disposed := false;
      new;
      var i := 0;
      while i < |tapDevices|
        invariant 0 <= i <= |tapDevices|
        invariant inUse.Length == capacity && fresh(inUse) && !disposed
        invariant forall j :: 0 <= j < capacity ==> !inUse[j]
        invariant |networks| == i
        invariant forall j :: 0 <= j < i ==>
          && networks[j].pool == this && networks[j].slot == j && fresh(networks[j])
          && networks[j].tapDevice == tapDevices[j] && networks[j].handler == None
      {
        var n := new Network(this, i, tapDevices[i]);
        networks := networks + [n];
        i := i + 1;
      }
      CountEmpty(inUse[..]);
    }

    /**
      `Network()`: scans for a free slot, marks it in use and hands out its
      segment; with every slot in use it fails with `AllNetworksInUse` and
      changes nothing.
    */
    method Network() returns (r: Result<Network, PoolError>)
      requires Valid() && !disposed
      modifies inUse
      ensures Valid() && !disposed
      ensures r.Failure? <==> old(InUseCount()) == capacity
      ensures r.Failure? ==> r.error == AllNetworksInUse && inUse[..] == old(inUse[..])
      ensures r.Success? ==>
        && FirstFree(old(inUse[..])) == Some(r.value.slot)
        && r.value == networks[r.value.slot]
        && inUse[..] == old(inUse[..])[r.value.slot := true]
        && InUseCount() == old(InUseCount()) + 1
    {
      FirstFreeIffFull(inUse[..]);
      var i := 0;
      while i < inUse.Length
        invariant 0 <= i <= inUse.Length
        invariant forall j :: 0 <= j < i ==> inUse[j]
        invariant inUse[..] == old(inUse[..])
      {
        if !inUse[i] {
          assert FirstFree(inUse[..]) == Some(i);
          CountUpdate(inUse[..], i, true);
          inUse[i] := true;
          return Success(networks[i]);
        }
        i := i + 1;
      }
      return Failure(AllNetworksInUse);
    }

    /**
      `Dispose()`: tears down every slot's network primitives, given the
      outcome of each teardown, and reports the first error while still
      tearing down the rest. Disposing with leases outstanding is a misuse.
    */
    method Dispose(teardown: seq<Option<Error>>) returns (err: Option<Error>)
      requires Valid() && !disposed
      requires |teardown| == capacity
      requires forall i :: 0 <= i < inUse.Length ==> !inUse[i]
      modifies this
      ensures Valid() && disposed && networks == old(networks) && inUse == old(inUse)
      ensures err == FirstError(teardown)
    {
      err := None;
      for i := 0 to |teardown|
        invariant err == FirstError(teardown[..i])
      {
        assert teardown[..i + 1][..i] == teardown[..i];
        if err.None? {
          err := teardown[i];
        }
      }
      assert teardown[..|teardown|] == teardown;
      disposed := true;
    }
  }

  /** What one round of `TestNetworkCreateDestroy` observes. */
  datatype RoundOutcome = RoundOutcome(
    firstThreeLeased: bool,          // the first three `Network()` calls succeed
    fourthError: Option<PoolError>,  // the error of the fourth call
    leasedAfterRelease: bool,        // `Network()` succeeds again after one `Release()`
    disposeError: Option<Error>)     // the error `Dispose()` returns once all are released

  /** What the test asserts of each round. */
  const EXPECTED_ROUND := RoundOutcome(true, Some(AllNetworksInUse), true, None)

  /**
    One round of the test: a pool of three segments whose primitives tear
    down cleanly is leased empty, overflows once, leases a released segment
    again, and is disposed without error once everything is released.
  */
  method CreateDestroyRound() returns (outcome: RoundOutcome)
    ensures outcome == EXPECTED_ROUND
  {
    var p := new Pool(["tap0", "tap1", "tap2"]);
    var firstThree, n1, n2, n3 := LeaseThree(p);
    var fourth, again := OverflowAndReuse(p, n1);
    var err := ReleaseAllAndDispose(p, n1, n2, n3);
    outcome := RoundOutcome(firstThree, fourth, again, err);
  }

  /** The first three `Network()` calls on an empty pool of three all succeed, on three distinct slots. */
  method LeaseThree(p: Pool) returns (ok: bool, n1: Network, n2: Network, n3: Network)
    requires p.Valid() && !p.disposed && p.capacity == 3 && p.InUseCount() == 0
    modifies p.inUse
    ensures ok
    ensures p.Valid() && !p.disposed && p.InUseCount() == 3
    ensures n1.slot < 3 && n2.slot < 3 && n3.slot < 3
    ensures n1.slot != n2.slot && n1.slot != n3.slot && n2.slot != n3.slot
    ensures n1 == p.networks[n1.slot] && n2 == p.networks[n2.slot] && n3 == p.networks[n3.slot]
    ensures p.inUse[n1.slot] && p.inUse[n2.slot] && p.inUse[n3.slot]
  {
    var r1 := p.Network();
    var r2 := p.Network();
    var r3 := p.Network();
    ok := r1.Success? && r2.Success? && r3.Success?;
    assert ok;
    n1, n2, n3 := r1.value, r2.value, r3.value;
  }

  /**
    With every slot of a pool of three in use a fourth `Network()` fails
    with `AllNetworksInUse`; after releasing `n` the next one succeeds,
    on `n`'s slot.
  */
  method OverflowAndReuse(p: Pool, n: Network) returns (fourth: Option<PoolError>, again: bool)
    requires p.Valid() && !p.disposed && p.capacity == 3 && p.InUseCount() == 3
    requires n.slot < 3 && n == p.networks[n.slot] && p.inUse[n.slot]
    modifies p.inUse, n
    ensures fourth == Some(AllNetworksInUse) && again
    ensures p.Valid() && !p.disposed && p.InUseCount() == 3
    ensures p.inUse[..] == old(p.inUse[..])
  {
    CountFull(p.inUse[..]);
    var r4 := p.Network();
    fourth := if r4.Failure? then Some(r4.error) else None;
    n.Release();
    var r5 := p.Network();
    again := r5.Success?;
    assert r5.value.slot == n.slot;
  }

  /** Releasing the three leases empties the pool, which then disposes without error. */
  method ReleaseAllAndDispose(p: Pool, n1: Network, n2: Network, n3: Network) returns (err: Option<Error>)
    requires p.Valid() && !p.disposed && p.capacity == 3 && p.InUseCount() == 3
    requires n1.slot < 3 && n2.slot < 3 && n3.slot < 3
    requires n1.slot != n2.slot && n1.slot != n3.slot && n2.slot != n3.slot
    requires n1 == p.networks[n1.slot] && n2 == p.networks[n2.slot] && n3 == p.networks[n3.slot]
    requires p.inUse[n1.slot] && p.inUse[n2.slot] && p.inUse[n3.slot]
    modifies p, p.inUse, n1, n2, n3
    ensures err == None
  {
    n1.Release();
    n2.Release();
    n3.Release();
    CountEmpty(p.inUse[..]);
    err := p.Dispose([None, None, None]);
  }

  /** `TestNetworkCreateDestroy`: the whole cycle, twice, each time on a new pool. */
  method TestNetworkCreateDestroy() returns (outcomes: seq<RoundOutcome>)
    ensures |outcomes| == 2
    ensures forall k :: 0 <= k < |outcomes| ==> outcomes[k] == EXPECTED_ROUND
  {
    outcomes := [];
    for i := 0 to 2
      invariant |outcomes| == i
      invariant forall k :: 0 <= k < |outcomes| ==> outcomes[k] == EXPECTED_ROUND
    {
      var o := CreateDestroyRound();
      outcomes := outcomes + [o];
    }
  }
}
