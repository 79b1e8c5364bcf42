/**
 * The ROCm sleep allocator, after csrc/cumem_allocator.cpp and vllm/device_allocator/cumem.py.
 *
 * Every driver call may fail for reasons of its own; a call that fails changes nothing. What a driver call that
 * succeeds does is given by DeviceMemory. Every call is recorded in `log` with its answer, so that the contracts can
 * say which calls were made. Handles are numbered in the order in which they are created.
 */
module SleepAllocator {
  import opened Bytes
  import opened Chunking
  import opened DeviceMemory

  function Zeros(n: nat): Buffer { seq(n, _ => 0) }

  /** The error for a reservation that is not aligned. */
  const NOT_SUPPORTED := 801

  /** `d` with a handle for every chunk, mapped one after the other. */
  ghost function Attached(d: Device, base: nat, c: seq<nat>, first: nat): Device
    requires base in d.regions
  {
    WithMaps(d.(handles := Created(d.handles, c, first, |c|)), base, Placed(d.regions[base].maps, c, From(first, |c|), |c|))
  }

  /** The bytes changed only at `base`. */
  ghost predicate SameExcept(before: Memory, after: Memory, base: nat) {
    forall b :: b in before && b != base ==> b in after && after[b] == before[b]
  }

  // ---- The calls of create_and_map ----

  /** What create_and_map did: the error that stood on entry, and its calls in order. */
  datatype Attempt = Attempt(
    standing: int,
    context: seq<Event>,
    creates: seq<Event>,
    uncreates: seq<Event>,
    maps: seq<Event>,
    unmaps: seq<Event>,
    releases: seq<Event>,
    finish: seq<Event>)

  ghost function Flat(t: Attempt): seq<Event> {
    t.context + t.creates + t.uncreates + t.maps + t.unmaps + t.releases + t.finish
  }

  /** An error stands when the first handle is created. */
  ghost predicate Spoiled(t: Attempt) { t.standing != 0 || !AllOk(t.context) }

  /** Something failed before all chunks were mapped, and was undone. */
  ghost predicate Undone(t: Attempt) { Broken(t.creates) || Broken(t.maps) }

  ghost function Undo(t: Attempt): seq<Event> { t.uncreates + t.unmaps + t.releases }

  /** All calls but the last succeeded. */
  ghost predicate OkUpToLast(ev: seq<Event>) { ev != [] ==> AllOk(ev[..|ev| - 1]) }

  lemma OkToTheEnd(ev: seq<Event>)
    requires AllOk(ev)
    ensures OkUpToLast(ev) && !Broken(ev)
  {
    if ev != [] {
      var n := |ev| - 1;
      assert ev == ev[..n] + [ev[n]] && OkAt(ev, n);
      Concatenated(ev[..n], [ev[n]]);
    }
  }

  /** The calls after all chunks are mapped: access rights, then zeroing unless an error stands. */
  ghost predicate IsFinish(ev: seq<Event>, base: nat, size: nat, spoiled: bool) {
    && 1 <= |ev| <= 2 && ev[0].call == SetAccess(base, size)
    && (|ev| == 2 <==> !spoiled && ev[0].status == 0)
    && (|ev| == 2 ==> ev[1].call == Zero(base, size))
  }

  /**
   * The calls in the order in which they must be made: a handle for every chunk, and if one fails a release of every
   * handle before it; then a mapping of every chunk, and if one fails an unmapping of every chunk before it and a
   * release of every handle; then access rights and zeroing. When an error stands, one handle is created and nothing
   * follows.
   */
  ghost predicate WellShaped(t: Attempt, base: nat, size: nat, c: seq<nat>, first: nat) {
    && |t.context| == 1 && t.context[0].call == Context
    && Makes(t.creates, Creates(c)) && OkUpToLast(t.creates)
    && if Spoiled(t) && c != [] then
         |t.creates| == 1 && t.uncreates == t.maps == t.unmaps == t.releases == t.finish == []
       else if Broken(t.creates) then
         MakesAll(t.uncreates, Releases(From(first, |t.creates| - 1))) && t.maps == t.unmaps == t.releases == t.finish == []
       else
         && |t.creates| == |c| && t.uncreates == []
         && Makes(t.maps, Maps(base, c, From(first, |c|))) && OkUpToLast(t.maps)
         && if Broken(t.maps) then
              MakesAll(t.unmaps, Unmaps(base, c, |t.maps| - 1)) && MakesAll(t.releases, Releases(From(first, |c|))) && t.finish == []
            else
              |t.maps| == |c| && t.unmaps == t.releases == [] && IsFinish(t.finish, base, size, Spoiled(t))
  }

  /** The device is as it was: what was created was released and what was mapped was unmapped. */
  ghost predicate Restores(t: Attempt) {
    if Spoiled(t) then t.creates != [] && t.creates[0].status != 0 else Undone(t) && AllOk(Undo(t))
  }

  class Driver {
    var dev: Device
    /** The bytes seen through each reservation. */
    var memory: Memory
    var next: nat
    var errorCode: int
    ghost var log: seq<Event>

    ghost predicate Tidy()
      reads this
    { forall h :: h in dev.handles ==> h < next }

    // ---- Driver calls ----

    method MemCreate(size: nat) returns (status: int, h: nat)
      modifies `dev, `next, `log
      ensures log == old(log) + [Event(Create(size), status, h, true)]
      ensures status == 0 ==> h == old(next) && next == old(next) + 1 && dev == old(dev).(handles := old(dev).handles[h := size])
      ensures status != 0 ==> dev == old(dev) && next == old(next)
    {
      status, h := *, next;
      log := log + [Event(Create(size), status, h, true)];
      if status == 0 {
        dev := dev.(handles := dev.handles[h := size]);
        next := next + 1;
      }
    }

    method MemRelease(h: nat) returns (status: int)
      modifies `dev, `log
      ensures log == old(log) + [Event(Release(h), status, 0, Accepts(old(dev), Release(h)))]
      ensures status == 0 ==> h in old(dev).handles && dev == old(dev).(handles := old(dev).handles - {h})
      ensures status != 0 ==> dev == old(dev)
    {
      status := Answer(Release(h));
      log := log + [Event(Release(h), status, 0, Accepts(dev, Release(h)))];
      if status == 0 { dev := dev.(handles := dev.handles - {h}); }
    }

    /** Mapping says nothing about the bytes that become visible. */
    method MemMap(base: nat, off: nat, size: nat, h: nat) returns (status: int)
      modifies `dev, `memory, `log
      ensures log == old(log) + [Event(Map(base, off, size, h), status, 0, Accepts(old(dev), Map(base, off, size, h)))]
      ensures status == 0 ==> CanMap(old(dev), base, off, size, h)
      ensures status == 0 ==> dev == WithMaps(old(dev), base, old(dev).regions[base].maps[off := Mapping(size, h)])
      ensures status != 0 ==> dev == old(dev)
      ensures base in memory && memory == old(memory)[base := memory[base]]
    {
      var bytes: Buffer := *;
      status := Answer(Map(base, off, size, h));
      log := log + [Event(Map(base, off, size, h), status, 0, Accepts(dev, Map(base, off, size, h)))];
      if status == 0 { dev := WithMaps(dev, base, dev.regions[base].maps[off := Mapping(size, h)]); }
      memory := memory[base := bytes];
    }

    method MemUnmap(base: nat, off: nat, size: nat) returns (status: int)
      modifies `dev, `log
      ensures log == old(log) + [Event(Unmap(base, off, size), status, 0, Accepts(old(dev), Unmap(base, off, size)))]
      ensures status == 0 ==> CanUnmap(old(dev), base, off, size)
      ensures status == 0 ==> dev == WithMaps(old(dev), base, old(dev).regions[base].maps - {off})
      ensures status != 0 ==> dev == old(dev)
    {
      status := Answer(Unmap(base, off, size));
      log := log + [Event(Unmap(base, off, size), status, 0, Accepts(dev, Unmap(base, off, size)))];
      if status == 0 { dev := WithMaps(dev, base, dev.regions[base].maps - {off}); }
    }

    method AddressFree(addr: nat, size: nat) returns (status: int)
      modifies `dev, `log
      ensures log == old(log) + [Event(FreeRange(addr, size), status, 0, Accepts(old(dev), FreeRange(addr, size)))]
      ensures status == 0 ==> CanFree(old(dev), addr, size) && dev == old(dev).(regions := old(dev).regions - {addr})
      ensures status != 0 ==> dev == old(dev)
    {
      status := Answer(FreeRange(addr, size));
      log := log + [Event(FreeRange(addr, size), status, 0, Accepts(dev, FreeRange(addr, size)))];
      if status == 0 { dev := dev.(regions := dev.regions - {addr}); }
    }

    /** Reserves a range: at `hint` if the driver follows the hint, aligned if an alignment is asked for. */
    method AddressReserve(size: nat, alignment: nat, hint: nat) returns (status: int, addr: nat)
      modifies `dev, `log
      ensures log == old(log) + [Event(Reserve(size, alignment, hint), status, addr, true)]
      ensures status == 0 ==> addr != 0 && IsFree(old(dev), addr, size) && (alignment != 0 ==> addr % alignment == 0)
      ensures status == 0 ==> dev == old(dev).(regions := old(dev).regions[addr := Region(size, map[])])
      ensures status != 0 ==> dev == old(dev)
    {
      status, addr := *, *;
      if addr == 0 || !IsFree(dev, addr, size) || (alignment != 0 && addr % alignment != 0) {
        if status == 0 { status := 1; }
      }
      log := log + [Event(Reserve(size, alignment, hint), status, addr, true)];
      if status == 0 { dev := dev.(regions := dev.regions[addr := Region(size, map[])]); }
    }

    method SetAccessRights(base: nat, size: nat) returns (status: int)
      modifies `log
      ensures log == old(log) + [Event(SetAccess(base, size), status, 0, Accepts(dev, SetAccess(base, size)))]
      ensures status == 0 ==> Backed(dev, base, size)
    {
      status := Answer(SetAccess(base, size));
      log := log + [Event(SetAccess(base, size), status, 0, Accepts(dev, SetAccess(base, size)))];
    }

    /** A failure leaves any bytes behind. */
    method Memset(base: nat, size: nat) returns (status: int)
      modifies `memory, `log
      ensures log == old(log) + [Event(Zero(base, size), status, 0, Accepts(dev, Zero(base, size)))]
      ensures base in memory && memory == old(memory)[base := memory[base]]
      ensures status == 0 ==> memory[base] == Zeros(size)
    {
      var bytes: Buffer := *;
      status := Answer(Zero(base, size));
      log := log + [Event(Zero(base, size), status, 0, Accepts(dev, Zero(base, size)))];
      memory := memory[base := if status == 0 then Zeros(size) else bytes];
    }

    method CopyToHost(base: nat, size: nat) returns (status: int, bytes: Buffer)
      modifies `log
      ensures log == old(log) + [Event(CopyOut(base, size), status, 0, Accepts(dev, CopyOut(base, size)))]
      ensures status == 0 && base in memory ==> bytes == memory[base]
    {
      status := Answer(CopyOut(base, size));
      log := log + [Event(CopyOut(base, size), status, 0, Accepts(dev, CopyOut(base, size)))];
      bytes := if base in memory then memory[base] else [];
    }

    method CopyToDevice(base: nat, bytes: Buffer) returns (status: int)
      modifies `memory, `log
      ensures log == old(log) + [Event(CopyIn(base, |bytes|), status, 0, Accepts(dev, CopyIn(base, |bytes|)))]
      ensures base in memory && memory == old(memory)[base := memory[base]]
      ensures status == 0 ==> memory[base] == bytes
    {
      var garbage: Buffer := *;
      status := Answer(CopyIn(base, |bytes|));
      log := log + [Event(CopyIn(base, |bytes|), status, 0, Accepts(dev, CopyIn(base, |bytes|)))];
      memory := memory[base := if status == 0 then bytes else garbage];
    }

    /** Any answer, but a refusal to a call the driver must refuse. */
    method Answer(call: Call) returns (status: int)
      ensures status == 0 ==> Accepts(dev, call)
    {
      status := *;
      if status == 0 && !Accepts(dev, call) { status := 1; }
    }

    /** A call that changes nothing but may set the error. */
    method Query(call: Call) returns (ghost ev: seq<Event>)
      requires call.Context? || call.Granularity?
      modifies `errorCode, `log
      ensures |ev| == 1 && ev[0].call == call && ev[0].legal && log == old(log) + ev
      ensures errorCode == if ev[0].status != 0 then ev[0].status else old(errorCode)
    {
      var status := Answer(call);
      ev := [Event(call, status, 0, true)];
      log := log + ev;
      Check(status);
    }

    /** Records an error; nothing clears one. */
    method Check(status: int)
      modifies `errorCode
      ensures errorCode == if status != 0 then status else old(errorCode)
    {
      if status != 0 { errorCode := status; }
    }

    // ---- Walks over the chunks ----

    /** Releases every handle: one call each, in order, whatever happens on the way. */
    method ReleaseHandles(hs: seq<nat>) returns (firstError: int, ghost ev: seq<Event>)
      modifies `dev, `log
      ensures log == old(log) + ev && MakesAll(ev, Releases(hs)) && firstError == FirstError(ev)
      ensures dev == old(dev).(handles := old(dev).handles - Released(hs, ev))
      ensures Distinct(hs) && (forall h :: h in hs ==> h in old(dev).handles) ==> AllLegal(ev)
    {
      firstError, ev := 0, [];
      ghost var d0 := dev;
      ghost var ready := Distinct(hs) && forall h :: h in hs ==> h in d0.handles;
      for i := 0 to |hs|
        invariant |ev| == i && log == old(log) + ev && firstError == FirstError(ev)
        invariant Makes(ev, Releases(hs)) && (ready ==> AllLegal(ev))
        invariant dev == d0.(handles := d0.handles - Released(hs, ev))
      {
        if ready {
          NotReleasedYet(hs, ev);
          assert hs[i] in hs;
        }
        ghost var legal := Accepts(dev, Release(hs[i]));
        var status := MemRelease(hs[i]);
        if status != 0 && firstError == 0 { firstError := status; }
        ghost var e := Event(Release(hs[i]), status, 0, legal);
        FirstErrorOf(ev, e);
        ReleaseStep(d0.handles, hs, ev, e);
        Appended(ev, e, Releases(hs));
        Grown(old(log), ev, e);
        ev := ev + [e];
      }
    }

    /** One call of the walk that unmaps the chunks, after the calls `done`. */
    method UnmapNext(base: nat, c: seq<nat>, n: nat, i: nat, off: nat, ghost d0: Device, ghost done: seq<Event>)
      returns (status: int, ghost ev: seq<Event>)
      requires base in d0.regions && i == |done| < n <= |c| && off == Sum(c, i) && Makes(done, Unmaps(base, c, n))
      requires dev == WithMaps(d0, base, d0.regions[base].maps - Unmapped(c, done))
      modifies `dev, `log
      ensures |ev| == i + 1 && ev[i].status == status && ev[..i] == done && log == old(log) + ev[i..]
      ensures Makes(ev, Unmaps(base, c, n)) && dev == WithMaps(d0, base, d0.regions[base].maps - Unmapped(c, ev))
      ensures Positive(c) && Seated(d0.regions[base].maps, c, n) && AllLegal(done) ==> AllLegal(ev)
    {
      ghost var d1, legal := dev, Accepts(dev, Unmap(base, off, c[i]));
      if Positive(c) && Seated(d0.regions[base].maps, c, n) { UnmapIsLegal(d0, base, c, n, done); }
      status := MemUnmap(base, off, c[i]);
      ghost var e := Event(Unmap(base, off, c[i]), status, 0, legal);
      UnmapStep(d0, base, c, n, done, e, d1, dev);
      ev := done + [e];
    }

    /** Unmaps the first `n` chunks: one call each, in order, at its place, whatever happens on the way. */
    method UnmapChunks(base: nat, c: seq<nat>, n: nat) returns (firstError: int, ghost ev: seq<Event>)
      requires base in dev.regions && n <= |c|
      modifies `dev, `log
      ensures log == old(log) + ev && MakesAll(ev, Unmaps(base, c, n)) && firstError == FirstError(ev)
      ensures dev == WithMaps(old(dev), base, old(dev).regions[base].maps - Unmapped(c, ev))
      ensures Positive(c) && Seated(old(dev).regions[base].maps, c, n) ==> AllLegal(ev)
    {
      firstError, ev := 0, [];
      var size := 0;
      ghost var d0, maps := dev, dev.regions[base].maps;
      ghost var ready := Positive(c) && Seated(maps, c, n);
      WithMapsLast(d0, base, maps, maps);
      assert maps - {} == maps;
      for i := 0 to n
        invariant |ev| == i && log == old(log) + ev && firstError == FirstError(ev) && size == Sum(c, i)
        invariant Makes(ev, Unmaps(base, c, n)) && (ready ==> AllLegal(ev))
        invariant dev == WithMaps(d0, base, maps - Unmapped(c, ev))
      {
        var status;
        ghost var done := ev;
        status, ev := UnmapNext(base, c, n, i, size, d0, done);
        if status != 0 && firstError == 0 { firstError := status; }
        size := size + c[i];
        assert ev[i..] == [ev[i]] && ev == done + [ev[i]];
        FirstErrorOf(done, ev[i]);
        Grown(old(log), done, ev[i]);
      }
    }

    /** Creates a handle for every chunk; when one fails, releases those created before it. */
    method CreateHandles(c: seq<nat>) returns (ok: bool, hs: seq<nat>, ghost creates: seq<Event>, ghost undo: seq<Event>)
      requires Tidy()
      modifies `dev, `next, `errorCode, `log
      ensures Tidy() && log == old(log) + creates + undo && dev.regions == old(dev).regions
      ensures Makes(creates, Creates(c)) && OkUpToLast(creates) && AllLegal(creates) && AllLegal(undo)
      ensures ok <==> AllOk(creates) && (c == [] || old(errorCode) == 0)
      ensures ok ==> errorCode == old(errorCode) && |creates| == |c| && undo == [] && hs == From(old(next), |c|)
      ensures ok ==> dev == old(dev).(handles := Created(old(dev).handles, c, old(next), |c|))
      ensures !ok ==> errorCode != 0 && creates != []
      ensures !ok && old(errorCode) == 0 ==> Broken(creates) && MakesAll(undo, Releases(From(old(next), |creates| - 1)))
      ensures !ok && old(errorCode) == 0 ==> (dev == old(dev) <==> AllOk(undo))
      ensures !ok && old(errorCode) != 0 ==> |creates| == 1 && undo == []
      ensures !ok && old(errorCode) != 0 ==>
                dev == if creates[0].status == 0 then old(dev).(handles := old(dev).handles[old(next) := c[0]]) else old(dev)
    {
      hs, creates, undo, ok := [], [], [], true;
      ghost var first, d0 := next, dev;
      for i := 0 to |c|
        invariant i == 0 || errorCode == 0
        invariant errorCode == old(errorCode) && next == first + i && hs == From(first, i)
        invariant dev == d0.(handles := Created(d0.handles, c, first, i)) && Tidy()
        invariant |creates| == i && log == old(log) + creates
        invariant Makes(creates, Creates(c)) && AllOk(creates) && AllLegal(creates)
      {
        var status, h := MemCreate(c[i]);
        ghost var e := Event(Create(c[i]), status, h, true);
        Appended(creates, e, Creates(c));
        Grown(old(log), creates, e);
        creates := creates + [e];
        Check(status);
        if errorCode != 0 {
          undo := Uncreate(hs, c, d0, first);
          return false, hs, creates, undo;
        }
        hs := hs + [h];
      }
      OkToTheEnd(creates);
    }

    /** Releases the handles created before a failure. */
    method Uncreate(hs: seq<nat>, c: seq<nat>, ghost d0: Device, ghost first: nat) returns (ghost undo: seq<Event>)
      requires |hs| <= |c| && hs == From(first, |hs|) && forall h :: h in d0.handles ==> h < first
      requires dev.regions == d0.regions
      requires dev.handles == Created(d0.handles, c, first, |hs|) || (hs == [] && c != [] && dev.handles == d0.handles[first := c[0]])
      modifies `dev, `log
      ensures log == old(log) + undo && MakesAll(undo, Releases(hs)) && AllLegal(undo)
      ensures dev.handles.Keys <= old(dev).handles.Keys && dev.regions == d0.regions
      ensures hs == [] ==> undo == [] && dev == old(dev)
      ensures old(dev).handles == Created(d0.handles, c, first, |hs|) ==> (dev == d0 <==> AllOk(undo))
    {
      var ignored;
      CreatedIs(d0.handles, c, first, |hs|);
      FromIsDistinct(first, |hs|);
      ignored, undo := ReleaseHandles(hs);
      ReleaseUndoesCreate(d0.handles, c, first, |hs|, undo);
      assert old(dev).handles - {} == old(dev).handles;
    }

    /** Maps every chunk at its place; when one fails, unmaps those before it and releases every handle. */
    method MapChunks(base: nat, c: seq<nat>, hs: seq<nat>)
      returns (ok: bool, ghost maps: seq<Event>, ghost unmaps: seq<Event>, ghost releases: seq<Event>)
      requires base in dev.regions && |hs| == |c| && Positive(c) && (c == [] || errorCode == 0)
      modifies `dev, `memory, `errorCode, `log
      ensures SameExcept(old(memory), memory, base) && log == old(log) + maps + unmaps + releases
      ensures Makes(maps, Maps(base, c, hs)) && OkUpToLast(maps) && (ok <==> AllOk(maps))
      ensures ok ==> errorCode == old(errorCode) && |maps| == |c| && unmaps == releases == []
      ensures ok ==> dev == WithMaps(old(dev), base, Placed(old(dev).regions[base].maps, c, hs, |c|))
      ensures !ok ==> errorCode != 0 && Broken(maps)
      ensures !ok ==> MakesAll(unmaps, Unmaps(base, c, |maps| - 1)) && MakesAll(releases, Releases(hs))
      ensures !ok ==> dev.handles == old(dev).handles - Released(hs, releases)
      ensures !ok ==> (dev.regions == old(dev).regions <==> AllOk(unmaps))
      ensures ReadyToMap(old(dev), base, c, hs) ==> AllLegal(maps) && AllLegal(unmaps) && AllLegal(releases)
      ensures SameRanges(old(dev), dev)
    {
      unmaps, releases := [], [];
      ghost var d0 := dev;
      var n;
      n, maps := MapUntilFailure(base, c, hs);
      ok := n == |c|;
      if !ok {
        unmaps, releases := RollBack(base, c, hs, n, d0);
      }
    }

    /** Maps chunk after chunk until one fails. */
    method MapUntilFailure(base: nat, c: seq<nat>, hs: seq<nat>) returns (n: nat, ghost maps: seq<Event>)
      requires base in dev.regions && |hs| == |c| && Positive(c) && (c == [] || errorCode == 0)
      modifies `dev, `memory, `errorCode, `log
      ensures SameExcept(old(memory), memory, base) && log == old(log) + maps
      ensures n <= |c| && Makes(maps, Maps(base, c, hs)) && OkUpToLast(maps)
      ensures dev == WithMaps(old(dev), base, Placed(old(dev).regions[base].maps, c, hs, n))
      ensures NothingThere(old(dev).regions[base].maps, c, n)
      ensures n == |c| ==> |maps| == n && AllOk(maps) && errorCode == old(errorCode)
      ensures n < |c| ==> |maps| == n + 1 && Broken(maps) && !AllOk(maps) && errorCode != 0
      ensures ReadyToMap(old(dev), base, c, hs) ==> AllLegal(maps)
    {
      maps, n := [], 0;
      ghost var d0, m0 := dev, dev.regions[base].maps;
      ghost var ready := ReadyToMap(d0, base, c, hs);
      var size := 0;
      WithMapsLast(d0, base, m0, m0);
      while n < |c|
        invariant n <= |c| && errorCode == old(errorCode) && size == Sum(c, n) && SameExcept(old(memory), memory, base)
        invariant dev == WithMaps(d0, base, Placed(m0, c, hs, n)) && NothingThere(m0, c, n)
        invariant |maps| == n && log == old(log) + maps
        invariant Makes(maps, Maps(base, c, hs)) && AllOk(maps) && (ready ==> AllLegal(maps))
      {
        ghost var legal := Accepts(dev, Map(base, size, c[n], hs[n]));
        if ready { MapIsLegal(d0, base, c, hs, n); }
        var status := MemMap(base, size, c[n], hs[n]);
        ghost var e := Event(Map(base, size, c[n], hs[n]), status, 0, legal);
        Appended(maps, e, Maps(base, c, hs));
        Grown(old(log), maps, e);
        maps := maps + [e];
        Check(status);
        if errorCode != 0 {
          return;
        }
        MapStep(d0, base, c, hs, n);
        size := size + c[n];
        n := n + 1;
      }
      OkToTheEnd(maps);
    }

    /** Undoes the mapping of the first `n` chunks and gives up all handles. */
    method RollBack(base: nat, c: seq<nat>, hs: seq<nat>, n: nat, ghost d0: Device)
      returns (ghost unmaps: seq<Event>, ghost releases: seq<Event>)
      requires base in d0.regions && n <= |c| == |hs| && Positive(c)
      requires dev == WithMaps(d0, base, Placed(d0.regions[base].maps, c, hs, n))
      requires NothingThere(d0.regions[base].maps, c, n)
      modifies `dev, `log
      ensures log == old(log) + unmaps + releases
      ensures MakesAll(unmaps, Unmaps(base, c, n)) && MakesAll(releases, Releases(hs))
      ensures dev.handles == d0.handles - Released(hs, releases)
      ensures dev.regions == d0.regions <==> AllOk(unmaps)
      ensures AllLegal(unmaps) && (ReadyToMap(d0, base, c, hs) ==> AllLegal(releases)) && SameRanges(d0, dev)
    {
      ghost var maps := d0.regions[base].maps;
      ghost var placed := Placed(maps, c, hs, n);
      var ignored;
      PlacedAreSeated(maps, c, hs, n);
      ignored, unmaps := UnmapChunks(base, c, n);
      WithMapsLast(d0, base, placed, placed - Unmapped(c, unmaps));
      UnmapUndoesMap(maps, c, hs, n, unmaps);
      WithMapsLast(d0, base, maps, maps);
      if ReadyToMap(d0, base, c, hs) { ReadyHandlesLive(d0, base, c, hs); }
      ignored, releases := ReleaseHandles(hs);
      assert dev.regions[base].maps == placed - Unmapped(c, unmaps);
    }

    /** Access rights, then zeroing unless an error stands. */
    method Finish(base: nat, size: nat) returns (ghost ev: seq<Event>)
      modifies `memory, `errorCode, `log
      ensures log == old(log) + ev && IsFinish(ev, base, size, old(errorCode) != 0)
      ensures SameExcept(old(memory), memory, base)
      ensures errorCode == 0 <==> old(errorCode) == 0 && AllOk(ev)
      ensures errorCode == 0 ==> base in memory && memory[base] == Zeros(size)
      ensures Backed(dev, base, size) ==> AllLegal(ev)
    {
      ghost var legal := Backed(dev, base, size);
      var status := SetAccessRights(base, size);
      ev := [Event(SetAccess(base, size), status, 0, legal)];
      Check(status);
      assert OkAt(ev, 0) == (status == 0);
      if errorCode == 0 {
        status := Memset(base, size);
        ev := ev + [Event(Zero(base, size), status, 0, legal)];
        Check(status);
        assert OkAt(ev, 0) && OkAt(ev, 1) == (status == 0);
      }
    }

    /** create_and_map after all handles exist. */
    method MapAndFinish(base: nat, size: nat, c: seq<nat>, hs: seq<nat>, ghost t0: Attempt, ghost d0: Device, ghost first: nat)
      returns (ghost t: Attempt)
      requires base in d0.regions && Positive(c) && hs == From(first, |c|) && forall h :: h in d0.handles ==> h < first
      requires dev == d0.(handles := Created(d0.handles, c, first, |c|)) && (c == [] || errorCode == 0)
      requires Opened(t0, c) && (Spoiled(t0) <==> errorCode != 0)
      modifies `dev, `memory, `errorCode, `log
      ensures SameExcept(old(memory), memory, base) && dev.handles.Keys <= old(dev).handles.Keys && SameRanges(d0, dev)
      ensures t == t0.(maps := t.maps, unmaps := t.unmaps, releases := t.releases, finish := t.finish)
      ensures log == old(log) + Closing(t) && WellShaped(t, base, size, c, first) && Leads(t, d0, dev, base, c, first)
      ensures errorCode == 0 <==> old(errorCode) == 0 && AllOk(Closing(t))
      ensures errorCode == 0 ==> base in memory && memory[base] == Zeros(size)
      ensures EmptyRange(d0, base, size, c) ==> AllLegal(Closing(t))
    {
      ghost var maps, unmaps, releases, finish;
      finish := [];
      if EmptyRange(d0, base, size, c) { CreatedAreReady(d0, base, c, first); }
      OkToTheEnd(t0.creates);
      var ok;
      ok, maps, unmaps, releases := MapChunks(base, c, hs);
      t := t0.(maps := maps, unmaps := unmaps, releases := releases);
      ClosingParts(t);
      Joined(old(log), maps, unmaps, releases, []);
      if !ok {
        UndoneIff(d0, dev, base, c, first, t);
        return t;
      }
      OkToTheEnd(maps);
      if EmptyRange(d0, base, size, c) { PlacedIsBacked(dev, base, c, hs); }
      finish := Finish(base, size);
      t := t.(finish := finish);
      ClosingParts(t);
      Joined(old(log), maps, unmaps, releases, finish);
    }

    /**
     * Backs the reservation at `base` with memory and zeroes it; `t` is what it asked of the driver. It succeeds exactly
     * when no error stands and every call succeeds. Whichever create or map fails first, the device is restored exactly
     * when the calls that undo the work succeed. With an error standing one handle stays behind exactly when it could be
     * created.
     */
    method CreateAndMap(base: nat, size: nat, c: seq<nat>) returns (hs: seq<nat>, ghost t: Attempt)
      requires Tidy() && base in dev.regions && Positive(c)
      modifies `dev, `memory, `next, `errorCode, `log
      ensures Tidy() && SameExcept(old(memory), memory, base) && SameRanges(old(dev), dev)
      ensures log == old(log) + Flat(t) && t.standing == old(errorCode)
      ensures WellShaped(t, base, size, c, old(next)) && Leads(t, old(dev), dev, base, c, old(next))
      ensures errorCode == 0 <==> old(errorCode) == 0 && AllOk(Flat(t))
      ensures errorCode == 0 ==> hs == From(old(next), |c|) && base in memory && memory[base] == Zeros(size)
      ensures EmptyRange(old(dev), base, size, c) ==> AllLegal(Flat(t))
    {
      ghost var d0, first, standing := dev, next, errorCode;
      ghost var context := Query(Context);
      assert AllOk(context) <==> OkAt(context, 0);
      assert AllLegal(context) <==> LegalAt(context, 0);
      var ok;
      ghost var creates, uncreates;
      ok, hs, creates, uncreates := CreateHandles(c);
      t := Attempt(standing, context, creates, uncreates, [], [], [], []);
      if ok {
        t := MapAndFinish(base, size, c, hs, t, d0, first);
      } else {
        EndsEarly(t, d0, dev, base, size, c, first);
      }
      FlatParts(t);
      Joined(old(log), context, creates, uncreates, Closing(t));
    }

    /**
     * Unmaps and releases every chunk: one call each, whatever happens on the way. The first error of the walk is
     * reported.
     */
    method UnmapAndRelease(base: nat, c: seq<nat>, hs: seq<nat>)
      returns (ghost context: seq<Event>, ghost unmaps: seq<Event>, ghost releases: seq<Event>)
      requires base in dev.regions && |hs| == |c|
      modifies `dev, `errorCode, `log
      ensures log == old(log) + context + unmaps + releases && |context| == 1 && context[0].call == Context
      ensures MakesAll(unmaps, Unmaps(base, c, |c|)) && MakesAll(releases, Releases(hs))
      ensures dev.regions == WithMaps(old(dev), base, old(dev).regions[base].maps - Unmapped(c, unmaps)).regions
      ensures dev.handles == old(dev).handles - Released(hs, releases)
      ensures errorCode == 0 <==> old(errorCode) == 0 && AllOk(context) && AllOk(unmaps) && AllOk(releases)
      ensures FirstError(unmaps + releases) != 0 ==> errorCode == FirstError(unmaps + releases)
      ensures AllLegal(context) && (Positive(c) && Seated(old(dev).regions[base].maps, c, |c|) ==> AllLegal(unmaps))
      ensures Distinct(hs) && (forall h :: h in hs ==> h in old(dev).handles) ==> AllLegal(releases)
    {
      context := Query(Context);
      assert AllOk(context) <==> OkAt(context, 0);
      assert AllLegal(context) <==> LegalAt(context, 0);
      var firstUnmap, firstRelease;
      firstUnmap, unmaps := UnmapChunks(base, c, |c|);
      firstRelease, releases := ReleaseHandles(hs);
      FirstErrorOfBoth(unmaps, releases);
      Check(if firstUnmap != 0 then firstUnmap else firstRelease);
    }

    /** Reserves with an alignment, or without one if the result happens to be aligned; gives back what is not. */
    method ReserveRocm(size: nat, alignment: nat, hint: nat) returns (status: int, addr: nat, ghost ev: seq<Event>)
      modifies `dev, `log
      ensures log == old(log) + ev && IsReservation(ev, size, alignment, hint) && AllLegal(ev)
      ensures status == 0 <==> Reserves(ev, alignment)
      ensures ev[0].status == 0 ==> status == 0
      ensures status == 0 ==> addr == ev[|ev| - 1].result != 0 && IsFree(old(dev), addr, size) && (alignment != 0 ==> addr % alignment == 0)
      ensures status == 0 ==> dev == WithRange(old(dev), addr, size)
      ensures status != 0 ==> dev == if |ev| == 3 && ev[2].status != 0 then WithRange(old(dev), ev[1].result, size) else old(dev)
    {
      ghost var d0 := dev;
      status, addr := AddressReserve(size, alignment, hint);
      ev := [Event(Reserve(size, alignment, hint), status, addr, true)];
      if status == 0 || alignment == 0 {
        return;
      }
      status, addr := AddressReserve(size, 0, hint);
      ev := ev + [Event(Reserve(size, 0, hint), status, addr, true)];
      if status != 0 || addr % alignment == 0 {
        return;
      }
      status := AddressFree(addr, size);
      ev := ev + [Event(FreeRange(addr, size), status, 0, true)];
      assert d0.regions[addr := Region(size, map[])] - {addr} == d0.regions;
      status := NOT_SUPPORTED;
    }

    /** Gives a range back and reserves the same range again, empty; a range elsewhere is given back and is an error. */
    method HoldAddress(addr: nat, size: nat) returns (ghost ev: seq<Event>)
      requires errorCode == 0 && addr != 0
      modifies `dev, `errorCode, `log
      ensures log == old(log) + ev && IsHolding(ev, addr, size) && (CanFree(old(dev), addr, size) ==> AllLegal(ev))
      ensures errorCode == 0 <==> AllSucceed(ev)
      ensures errorCode == 0 ==> CanFree(old(dev), addr, size) && dev == WithRange(old(dev), addr, size)
      ensures dev.handles == old(dev).handles
    {
      ghost var d0, legal := dev, CanFree(dev, addr, size);
      var status := AddressFree(addr, size);
      ev := [Event(FreeRange(addr, size), status, 0, legal)];
      assert AllSucceed(ev) <==> SucceededAt(ev, 0);
      Check(status);
      if errorCode == 0 {
        var reserved;
        ghost var more;
        status, reserved, more := ReserveRocm(size, 0, addr);
        Concatenated(ev, more);
        ev := ev + more;
        Check(status);
        assert AllSucceed(ev) ==> SucceededAt(ev, 1);
        assert (d0.regions - {addr})[addr := Region(size, map[])] == d0.regions[addr := Region(size, map[])];
        if errorCode == 0 && reserved != addr {
          status := AddressFree(reserved, size);
          ghost var e := Event(FreeRange(reserved, size), status, 0, true);
          assert AllLegal([e]) <==> LegalAt([e], 0);
          Concatenated(ev, [e]);
          assert !SucceededAt(ev, 1);
          ev := ev + [e];
          errorCode := 1;
        }
      }
    }

    /** Backs a newly reserved range, or gives it back. */
    method BackRange(base: nat, size: nat, c: seq<nat>) returns (ok: bool, hs: seq<nat>, ghost t: Attempt, ghost freed: seq<Event>)
      requires Tidy() && EmptyRange(dev, base, size, c) && Positive(c) && errorCode == 0
      modifies `dev, `memory, `next, `errorCode, `log
      ensures Tidy() && SameExcept(old(memory), memory, base) && WellShaped(t, base, size, c, old(next)) && t.standing == 0
      ensures log == old(log) + (Flat(t) + freed) && AllLegal(Flat(t) + freed) && (ok <==> AllOk(Flat(t) + freed))
      ensures ok <==> errorCode == 0
      ensures ok ==> freed == [] && hs == From(old(next), |c|) && dev == Attached(old(dev), base, c, old(next))
      ensures ok ==> base in memory && memory[base] == Zeros(size)
      ensures !ok ==> |freed| == 1 && freed[0].call == FreeRange(base, size)
      ensures !ok && Restores(t) && AllOk(freed) ==> dev == old(dev).(regions := old(dev).regions - {base})
    {
      ghost var d0, first := dev, next;
      hs, t := CreateAndMap(base, size, c);
      ok, freed := errorCode == 0, [];
      if ok {
        CompleteIsAttached(t, base, size, c, first);
      } else {
        if Restores(t) { RestoresDevice(t, d0, dev, base, size, c, first); }
        var status := AddressFree(base, size);
        freed := [Event(FreeRange(base, size), status, 0, true)];
        assert AllLegal(freed) <==> LegalAt(freed, 0);
        assert AllOk(freed) <==> OkAt(freed, 0);
        Check(status);
      }
      Concatenated(Flat(t), freed);
      assert old(log) + Flat(t) + freed == old(log) + (Flat(t) + freed);
    }
  }

  function WithRange(d: Device, addr: nat, size: nat): Device { d.(regions := d.regions[addr := Region(size, map[])]) }

  /** A reservation; if it fails with an alignment, one without; if that is not aligned, it is given back. */
  ghost predicate IsReservation(ev: seq<Event>, size: nat, alignment: nat, hint: nat) {
    && 1 <= |ev| <= 3 && ev[0].call == Reserve(size, alignment, hint)
    && (|ev| > 1 <==> ev[0].status != 0 && alignment != 0)
    && (|ev| > 1 ==> ev[1].call == Reserve(size, 0, hint))
    && (|ev| == 3 <==> |ev| > 1 && ev[1].status == 0 && ev[1].result % alignment != 0)
    && (|ev| == 3 ==> ev[2].call == FreeRange(ev[1].result, size))
  }

  /** The last call reserved an aligned range. */
  ghost predicate Reserves(ev: seq<Event>, alignment: nat) {
    ev != [] && var e := ev[|ev| - 1]; e.call.Reserve? && e.status == 0 && (alignment != 0 ==> e.result % alignment == 0)
  }

  /** The range is freed; then it is reserved again; a range elsewhere is given back. */
  ghost predicate IsHolding(ev: seq<Event>, addr: nat, size: nat) {
    && 1 <= |ev| <= 3 && ev[0].call == FreeRange(addr, size)
    && (|ev| > 1 <==> ev[0].status == 0)
    && (|ev| > 1 ==> ev[1].call == Reserve(size, 0, addr))
    && (|ev| == 3 <==> |ev| > 1 && ev[1].status == 0 && ev[1].result != addr)
    && (|ev| == 3 ==> ev[2].call == FreeRange(ev[1].result, size))
  }

  /** The same ranges are reserved. */
  ghost predicate SameRanges(d: Device, d': Device) {
    d'.regions.Keys == d.regions.Keys && forall b :: b in d.regions ==> d'.regions[b].size == d.regions[b].size
  }

  /** The calls from the mapping on. */
  ghost function Closing(t: Attempt): seq<Event> { t.maps + t.unmaps + t.releases + t.finish }

  /** The range is reserved at that size and empty, and the chunks fill it. */
  ghost predicate EmptyRange(d: Device, base: nat, size: nat, c: seq<nat>) {
    base in d.regions && d.regions[base] == Region(size, map[]) && Sum(c, |c|) == size
  }

  /** All handles have been created and nothing else has been done. */
  ghost predicate Opened(t: Attempt, c: seq<nat>) {
    && |t.context| == 1 && t.context[0].call == Context && t.uncreates == []
    && MakesAll(t.creates, Creates(c)) && AllOk(t.creates)
    && t.maps == t.unmaps == t.releases == t.finish == []
  }

  /**
   * The device afterwards. With an error standing it is as before, but for a handle if one could be created; after an
   * undone attempt it is as before exactly when every call that undoes it succeeded; otherwise everything is mapped.
   */
  ghost predicate Leads(t: Attempt, d0: Device, d: Device, base: nat, c: seq<nat>, first: nat)
    requires base in d0.regions
  {
    if Spoiled(t) && c != [] then
      t.creates != [] && d == if t.creates[0].status == 0 then d0.(handles := d0.handles[first := c[0]]) else d0
    else if Undone(t) then
      d == d0 <==> AllOk(Undo(t))
    else
      d == Attached(d0, base, c, first)
  }

  /** An attempt that ends while handles are created has the right shape and outcome. */
  lemma EndsEarly(t: Attempt, d0: Device, d: Device, base: nat, size: nat, c: seq<nat>, first: nat)
    requires base in d0.regions && |t.context| == 1 && t.context[0].call == Context
    requires Makes(t.creates, Creates(c)) && OkUpToLast(t.creates) && t.creates != []
    requires t.maps == t.unmaps == t.releases == t.finish == []
    requires Spoiled(t) ==> |t.creates| == 1 && t.uncreates == []
    requires Spoiled(t) ==> d == if t.creates[0].status == 0 then d0.(handles := d0.handles[first := c[0]]) else d0
    requires !Spoiled(t) ==> Broken(t.creates) && MakesAll(t.uncreates, Releases(From(first, |t.creates| - 1)))
    requires !Spoiled(t) ==> (d == d0 <==> AllOk(t.uncreates))
    ensures WellShaped(t, base, size, c, first) && Leads(t, d0, d, base, c, first)
    ensures Closing(t) == [] && (!Spoiled(t) ==> !AllOk(t.creates))
  {
    assert Undo(t) == t.uncreates;
    assert Broken(t.creates) ==> !OkAt(t.creates, |t.creates| - 1);
  }

  lemma Grown(log: seq<Event>, ev: seq<Event>, e: Event)
    ensures log + ev + [e] == log + (ev + [e]) && (ev + [e])[..|ev|] == ev
  {
  }

  lemma Joined(log: seq<Event>, a: seq<Event>, b: seq<Event>, c: seq<Event>, d: seq<Event>)
    ensures log + a + b + c + d == log + (a + b + c + d)
  {
  }

  /** An attempt all of whose calls succeeded, with no error standing, was not undone. */
  lemma CompleteIsAttached(t: Attempt, base: nat, size: nat, c: seq<nat>, first: nat)
    requires WellShaped(t, base, size, c, first) && t.standing == 0 && AllOk(Flat(t))
    ensures !Spoiled(t) && !Undone(t)
  {
    FlatParts(t);
    Concatenated(t.maps, t.unmaps);
    Concatenated(t.maps + t.unmaps, t.releases);
    Concatenated(t.maps + t.unmaps + t.releases, t.finish);
    OkToTheEnd(t.creates);
    OkToTheEnd(t.maps);
  }

  lemma RestoresDevice(t: Attempt, d0: Device, d: Device, base: nat, size: nat, c: seq<nat>, first: nat)
    requires base in d0.regions && WellShaped(t, base, size, c, first) && Leads(t, d0, d, base, c, first) && Restores(t)
    ensures d == d0
  {
    assert Spoiled(t) ==> c != [];
  }

  lemma ClosingParts(t: Attempt)
    ensures AllOk(Closing(t)) <==> AllOk(t.maps) && AllOk(t.unmaps) && AllOk(t.releases) && AllOk(t.finish)
    ensures AllLegal(Closing(t)) <==> AllLegal(t.maps) && AllLegal(t.unmaps) && AllLegal(t.releases) && AllLegal(t.finish)
  {
    Concatenated(t.maps, t.unmaps);
    Concatenated(t.maps + t.unmaps, t.releases);
    Concatenated(t.maps + t.unmaps + t.releases, t.finish);
  }

  lemma FlatParts(t: Attempt)
    ensures Flat(t) == t.context + t.creates + t.uncreates + Closing(t)
    ensures AllOk(Flat(t)) <==> AllOk(t.context) && AllOk(t.creates) && AllOk(t.uncreates) && AllOk(Closing(t))
    ensures AllLegal(Flat(t)) <==> AllLegal(t.context) && AllLegal(t.creates) && AllLegal(t.uncreates) && AllLegal(Closing(t))
    ensures AllSucceed(Flat(t)) <==> AllSucceed(t.context) && AllSucceed(t.creates) && AllSucceed(t.uncreates) && AllSucceed(Closing(t))
  {
    Concatenated(t.context, t.creates);
    Concatenated(t.context + t.creates, t.uncreates);
    Concatenated(t.context + t.creates + t.uncreates, Closing(t));
  }

  lemma CreatedAreReady(d: Device, base: nat, c: seq<nat>, first: nat)
    requires base in d.regions && d.regions[base].maps == map[] && Sum(c, |c|) <= d.regions[base].size
    ensures ReadyToMap(d.(handles := Created(d.handles, c, first, |c|)), base, c, From(first, |c|))
  {
    var d', hs := d.(handles := Created(d.handles, c, first, |c|)), From(first, |c|);
    CreatedIs(d.handles, c, first, |c|);
    FromIsDistinct(first, |c|);
    forall i: nat | i < |c| ensures HasHandle(d', c, hs, i) { }
  }

  /** A failed mapping is undone exactly when every chunk is unmapped and every handle released. */
  lemma UndoneIff(d0: Device, d: Device, base: nat, c: seq<nat>, first: nat, t: Attempt)
    requires |t.releases| == |c| && t.uncreates == [] && forall h :: h in d0.handles ==> h < first
    requires d.handles == Created(d0.handles, c, first, |c|) - Released(From(first, |c|), t.releases)
    requires d.regions == d0.regions <==> AllOk(t.unmaps)
    ensures d == d0 <==> AllOk(Undo(t))
  {
    Concatenated(t.uncreates, t.unmaps);
    Concatenated(t.uncreates + t.unmaps, t.releases);
    ReleaseUndoesCreate(d0.handles, c, first, |c|, t.releases);
  }

  lemma MapIsLegal(d: Device, base: nat, c: seq<nat>, hs: seq<nat>, i: nat)
    requires base in d.regions && i < |c| == |hs| && Positive(c) && ReadyToMap(d, base, c, hs)
    ensures CanMap(WithMaps(d, base, Placed(d.regions[base].maps, c, hs, i)), base, Sum(c, i), c[i], hs[i])
  {
    assert HasHandle(d, c, hs, i);
    NextFits(WithMaps(d, base, Placed(map[], c, hs, i)), base, c, hs, i);
  }

  /** Mapping the next chunk where nothing was mapped. */
  lemma MapStep(d: Device, base: nat, c: seq<nat>, hs: seq<nat>, i: nat)
    requires base in d.regions && i < |c| == |hs| && Sum(c, i) !in Placed(d.regions[base].maps, c, hs, i)
    requires NothingThere(d.regions[base].maps, c, i)
    ensures NothingThere(d.regions[base].maps, c, i + 1)
    ensures
      var placed := Placed(d.regions[base].maps, c, hs, i);
      WithMaps(WithMaps(d, base, placed), base, placed[Sum(c, i) := Mapping(c[i], hs[i])]) ==
      WithMaps(d, base, Placed(d.regions[base].maps, c, hs, i + 1))
  {
    var placed := Placed(d.regions[base].maps, c, hs, i);
    WithMapsLast(d, base, placed, placed[Sum(c, i) := Mapping(c[i], hs[i])]);
    PlacedKeeps(d.regions[base].maps, c, hs, i);
    assert Vacant(d.regions[base].maps, c, i);
  }

  /** The handle for chunk `i` is live and as large as the chunk. */
  ghost predicate HasHandle(d: Device, c: seq<nat>, hs: seq<nat>, i: nat)
    requires i < |c| == |hs|
  { hs[i] in d.handles && d.handles[hs[i]] == c[i] }

  /** The range is empty and large enough, and there is a handle for every chunk. */
  ghost predicate ReadyToMap(d: Device, base: nat, c: seq<nat>, hs: seq<nat>)
    requires base in d.regions && |c| == |hs|
  {
    && d.regions[base].maps == map[] && Sum(c, |c|) <= d.regions[base].size && Distinct(hs)
    && forall i: nat {:trigger HasHandle(d, c, hs, i)} :: i < |c| ==> HasHandle(d, c, hs, i)
  }

  lemma ReadyHandlesLive(d: Device, base: nat, c: seq<nat>, hs: seq<nat>)
    requires base in d.regions && |c| == |hs| && ReadyToMap(d, base, c, hs)
    ensures forall h :: h in hs ==> h in d.handles
  {
    forall h | h in hs ensures h in d.handles {
      var i: nat :| i < |hs| && hs[i] == h;
      assert HasHandle(d, c, hs, i);
    }
  }

  lemma ReleaseStep(handles: map<nat, nat>, hs: seq<nat>, ev: seq<Event>, e: Event)
    requires |ev| < |hs|
    ensures
      var left := handles - Released(hs, ev);
      handles - Released(hs, ev + [e]) == if e.status == 0 then left - {hs[|ev|]} else left
  {
    assert (ev + [e])[..|ev|] == ev;
    assert Released(hs, ev + [e]) == Released(hs, ev) + (if e.status == 0 then {hs[|ev|]} else {});
  }

  lemma UnmapIsLegal(d: Device, base: nat, c: seq<nat>, n: nat, ev: seq<Event>)
    requires base in d.regions && |ev| < n <= |c| && Positive(c) && Seated(d.regions[base].maps, c, n)
    ensures CanUnmap(WithMaps(d, base, d.regions[base].maps - Unmapped(c, ev)), base, Sum(c, |ev|), c[|ev|])
  {
    NotUnmappedYet(c, ev);
    assert Seat(d.regions[base].maps, c, |ev|);
  }

  /** One call of the walk that unmaps the chunks. */
  lemma UnmapStep(d0: Device, base: nat, c: seq<nat>, n: nat, ev: seq<Event>, e: Event, d1: Device, d2: Device)
    requires base in d0.regions && |ev| < n <= |c| && Makes(ev, Unmaps(base, c, n)) && e.call == Unmap(base, Sum(c, |ev|), c[|ev|])
    requires d1 == WithMaps(d0, base, d0.regions[base].maps - Unmapped(c, ev))
    requires d2 == if e.status == 0 then WithMaps(d1, base, d1.regions[base].maps - {Sum(c, |ev|)}) else d1
    ensures d2 == WithMaps(d0, base, d0.regions[base].maps - Unmapped(c, ev + [e]))
    ensures Makes(ev + [e], Unmaps(base, c, n)) && (AllLegal(ev + [e]) <==> AllLegal(ev) && e.legal)
  {
    var maps := d0.regions[base].maps;
    var left := maps - Unmapped(c, ev);
    assert (ev + [e])[..|ev|] == ev;
    assert Unmapped(c, ev + [e]) == Unmapped(c, ev) + (if e.status == 0 then {Sum(c, |ev|)} else {});
    assert maps - Unmapped(c, ev + [e]) == if e.status == 0 then left - {Sum(c, |ev|)} else left;
    WithMapsLast(d0, base, left, left - {Sum(c, |ev|)});
    Appended(ev, e, Unmaps(base, c, n));
  }
}
