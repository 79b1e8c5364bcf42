/**
 * What holds between the allocator's registry and the device, whatever has been allocated, put to sleep, woken and
 * freed before: see vllm/device_allocator/cumem.py and the ROCm paths of csrc/cumem_allocator.cpp.
 */
module SleepInvariant {
  import opened Bytes
  import opened Chunking
  import opened DeviceMemory
  import opened SleepAllocator

  type Tag(==)

  datatype Backup = NoBackup | Saved(bytes: Buffer)

  /** One entry of the registry; `cells` are the handles of the chunks, stale while the allocation is asleep. */
  datatype Allocation = Allocation(size: nat, chunks: seq<nat>, cells: seq<nat>, tag: Tag, backup: Backup, asleep: bool)

  type Registry = map<nat, Allocation>

  /** The handle in cell `i` is live and as large as its chunk. */
  ghost predicate IsLive(d: Device, al: Allocation, i: nat)
    requires i < |al.chunks| && |al.cells| == |al.chunks|
  { al.cells[i] in d.handles && d.handles[al.cells[i]] == al.chunks[i] }

  ghost predicate AsleepOk(r: Region, al: Allocation) {
    r.maps == map[] && (al.backup.Saved? ==> |al.backup.bytes| == al.size)
  }

  ghost predicate AwakeOk(d: Device, r: Region, al: Allocation) {
    && |al.cells| == |al.chunks| && al.backup == NoBackup && Distinct(al.cells)
    && r.maps == Placed(map[], al.chunks, al.cells, |al.chunks|)
    && forall i: nat {:trigger IsLive(d, al, i)} :: i < |al.chunks| ==> IsLive(d, al, i)
  }

  ghost predicate AllocationOk(d: Device, memory: Memory, reg: Registry, a: nat)
    requires a in reg
  {
    var al := reg[a];
    && a in d.regions && d.regions[a].size == al.size && Positive(al.chunks) && Sum(al.chunks, |al.chunks|) == al.size
    && (if al.asleep then AsleepOk(d.regions[a], al)
        else AwakeOk(d, d.regions[a], al) && a in memory && |memory[a]| == al.size)
  }

  /** Handle `h` belongs to the allocation at `a`. */
  ghost predicate Claims(reg: Registry, a: nat, h: nat) { a in reg && !reg[a].asleep && h in reg[a].cells }

  ghost predicate Owned(reg: Registry, h: nat) { exists a: nat :: Claims(reg, a, h) }

  ghost predicate RangesApart(d: Device, a: nat, b: nat)
    requires a in d.regions && b in d.regions
  { Apart(a, d.regions[a].size, b, d.regions[b].size) }

  ghost predicate Disjoint(d: Device) {
    forall a: nat, b: nat {:trigger RangesApart(d, a, b)} :: a in d.regions && b in d.regions && a != b ==> RangesApart(d, a, b)
  }

  /** No handle belongs to two allocations. */
  ghost predicate Exclusive(reg: Registry) {
    forall a: nat, b: nat, h: nat {:trigger Claims(reg, a, h), Claims(reg, b, h)} :: Claims(reg, a, h) && Claims(reg, b, h) ==> a == b
  }

  /** The reservations are those of the registry, and the live handles those of the allocations that are awake. */
  ghost predicate Inv(d: Device, next: nat, memory: Memory, reg: Registry) {
    && d.regions.Keys == reg.Keys && 0 !in d.regions && Disjoint(d) && Exclusive(reg)
    && (forall a: nat {:trigger AllocationOk(d, memory, reg, a)} :: a in reg ==> AllocationOk(d, memory, reg, a))
    && forall h :: h in d.handles ==> h < next && Owned(reg, h)
  }

  // ---- Each transition keeps the invariant ----

  /** The handles that an awake allocation at `x` needs are as they were. */
  ghost predicate Untouched(d: Device, d': Device, reg: Registry, x: nat) {
    forall h: nat {:trigger Claims(reg, x, h)} :: Claims(reg, x, h) && h in d.handles ==> h in d'.handles && d'.handles[h] == d.handles[h]
  }

  /** An allocation whose region, bytes and handles are as they were is still in order. */
  lemma OtherKeeps(d: Device, d': Device, memory: Memory, memory': Memory, reg: Registry, reg': Registry, x: nat)
    requires x in reg && x in reg' && reg'[x] == reg[x] && AllocationOk(d, memory, reg, x)
    requires x in d'.regions && d'.regions[x] == d.regions[x] && Untouched(d, d', reg, x)
    requires x in memory ==> x in memory' && memory'[x] == memory[x]
    ensures AllocationOk(d', memory', reg', x)
  {
    var al := reg[x];
    if !al.asleep {
      forall i: nat | i < |al.chunks| ensures IsLive(d', al, i) {
        assert IsLive(d, al, i);
        assert Claims(reg, x, al.cells[i]);
      }
    }
  }

  /** Only the entry at `a` differs. */
  ghost predicate DiffersAt(reg: Registry, reg': Registry, a: nat) {
    forall x: nat {:trigger x in reg'} :: x != a ==> (x in reg' <==> x in reg) && (x in reg ==> reg'[x] == reg[x])
  }

  ghost predicate RegionsDifferAt(d: Device, d': Device, a: nat) {
    forall x: nat {:trigger x in d'.regions} :: x != a ==> (x in d'.regions <==> x in d.regions) && (x in d.regions ==> d'.regions[x] == d.regions[x])
  }

  /** All other allocations are in order after a change at `a` that touches none of their handles. */
  lemma OthersKeep(d: Device, d': Device, next: nat, memory: Memory, memory': Memory, reg: Registry, reg': Registry, a: nat)
    requires Inv(d, next, memory, reg) && DiffersAt(reg, reg', a) && RegionsDifferAt(d, d', a) && SameExcept(memory, memory', a)
    requires forall x: nat {:trigger Untouched(d, d', reg, x)} :: x != a && x in reg ==> Untouched(d, d', reg, x)
    ensures forall x: nat {:trigger AllocationOk(d', memory', reg', x)} :: x in reg' && x != a ==> AllocationOk(d', memory', reg', x)
  {
    forall x: nat | x in reg' && x != a ensures AllocationOk(d', memory', reg', x) {
      assert x in reg && AllocationOk(d, memory, reg, x) && Untouched(d, d', reg, x);
      assert x in d.regions.Keys && x in d'.regions;
      OtherKeeps(d, d', memory, memory', reg, reg', x);
    }
  }

  /** Ranges stay apart when only the one at `a` is new or gone, and a new one was free. */
  lemma StayDisjoint(d: Device, d': Device, a: nat)
    requires Disjoint(d) && RegionsDifferAt(d, d', a)
    requires a in d'.regions ==> (a in d.regions && d'.regions[a].size == d.regions[a].size) || IsFree(d, a, d'.regions[a].size)
    ensures Disjoint(d')
  {
    forall x: nat, y: nat | x in d'.regions && y in d'.regions && x != y ensures RangesApart(d', x, y) {
      assert x != a ==> x in d.regions;
      assert y != a ==> y in d.regions;
      if x in d.regions && y in d.regions { assert RangesApart(d, x, y); }
    }
  }

  /** An entry is reserved; its mapping comes later. */
  lemma ReserveKeeps(d: Device, next: nat, memory: Memory, reg: Registry, a: nat, al: Allocation)
    requires Inv(d, next, memory, reg) && a != 0 && IsFree(d, a, al.size)
    requires al.asleep && al.backup == NoBackup && Positive(al.chunks) && Sum(al.chunks, |al.chunks|) == al.size
    ensures Inv(WithRange(d, a, al.size), next, memory, reg[a := al])
  {
    var d', reg' := WithRange(d, a, al.size), reg[a := al];
    StayDisjoint(d, d', a);
    OthersKeep(d, d', next, memory, memory, reg, reg', a);
    assert a !in reg by { assert a !in d.regions.Keys; }
    forall x: nat, h: nat ensures Claims(reg', x, h) <==> Claims(reg, x, h) { }
    forall h | h in d'.handles ensures Owned(reg', h) {
      assert Owned(reg, h);
      var x: nat :| Claims(reg, x, h);
      assert Claims(reg', x, h);
    }
    assert AllocationOk(d', memory, reg', a);
  }

  /** `d` without the mappings at `a` and without some handles. */
  function Detached(d: Device, a: nat, gone: set<nat>): Device
    requires a in d.regions
  { Device(d.regions[a := Region(d.regions[a].size, map[])], d.handles - gone) }

  /** An awake allocation gives up its mappings and its handles. */
  lemma DetachKeeps(d: Device, next: nat, memory: Memory, reg: Registry, a: nat, gone: set<nat>, al: Allocation)
    requires Inv(d, next, memory, reg) && a in reg && !reg[a].asleep && forall h :: h in gone <==> h in reg[a].cells
    requires al == reg[a].(asleep := true, backup := al.backup) && (al.backup.Saved? ==> |al.backup.bytes| == al.size)
    ensures a in d.regions && Inv(Detached(d, a, gone), next, memory, reg[a := al])
  {
    assert AllocationOk(d, memory, reg, a);
    var d', reg' := Detached(d, a, gone), reg[a := al];
    StayDisjoint(d, d', a);
    forall x: nat | x != a && x in reg ensures Untouched(d, d', reg, x) {
      forall h: nat | Claims(reg, x, h) && h in d.handles ensures h in d'.handles && d'.handles[h] == d.handles[h] {
        assert h in gone ==> Claims(reg, a, h);
      }
    }
    OthersKeep(d, d', next, memory, memory, reg, reg', a);
    forall x: nat, h: nat ensures Claims(reg', x, h) <==> x != a && Claims(reg, x, h) { }
    forall h | h in d'.handles ensures Owned(reg', h) {
      assert Owned(reg, h);
      var x: nat :| Claims(reg, x, h);
      assert Claims(reg', x, h);
    }
    assert AllocationOk(d', memory, reg', a);
  }

  /** A sleeping allocation gets new handles, mapped into its reservation. */
  lemma AttachKeeps(d: Device, next: nat, next': nat, memory: Memory, memory': Memory, reg: Registry, a: nat, al: Allocation)
    requires Inv(d, next, memory, reg) && a in reg && reg[a].asleep && SameExcept(memory, memory', a)
    requires al == reg[a].(asleep := false, cells := From(next, |reg[a].chunks|), backup := NoBackup)
    requires a in memory' && |memory'[a]| == al.size
    requires a in d.regions && forall h :: h in Attached(d, a, al.chunks, next).handles ==> h < next'
    ensures Inv(Attached(d, a, al.chunks, next), next', memory', reg[a := al])
  {
    assert AllocationOk(d, memory, reg, a);
    var d', reg' := Attached(d, a, al.chunks, next), reg[a := al];
    StayDisjoint(d, d', a);
    AttachTouchesNothing(d, next, memory, reg, a, al.chunks);
    OthersKeep(d, d', next, memory, memory', reg, reg', a);
    NewHandlesAreFresh(d, next, memory, reg, a, al);
    NewHandlesAreOwned(d, next, memory, reg, a, al);
    AttachedIsOk(d, al, a, next);
    assert AllocationOk(d', memory', reg', a);
  }

  lemma AttachTouchesNothing(d: Device, next: nat, memory: Memory, reg: Registry, a: nat, c: seq<nat>)
    requires Inv(d, next, memory, reg) && a in d.regions
    ensures forall x: nat {:trigger Untouched(d, Attached(d, a, c, next), reg, x)} :: Untouched(d, Attached(d, a, c, next), reg, x)
  {
    CreatedIs(d.handles, c, next, |c|);
  }

  lemma NewHandlesAreOwned(d: Device, next: nat, memory: Memory, reg: Registry, a: nat, al: Allocation)
    requires Inv(d, next, memory, reg) && a in reg && reg[a].asleep && !al.asleep && al.cells == From(next, |al.chunks|)
    ensures a in d.regions && forall h :: h in Attached(d, a, al.chunks, next).handles ==> Owned(reg[a := al], h)
  {
    assert AllocationOk(d, memory, reg, a);
    var d', reg' := Attached(d, a, al.chunks, next), reg[a := al];
    CreatedIs(d.handles, al.chunks, next, |al.chunks|);
    forall h | h in d'.handles ensures Owned(reg', h) {
      if h in d.handles {
        assert Owned(reg, h);
        var x: nat :| Claims(reg, x, h);
        assert Claims(reg', x, h);
      } else {
        assert al.cells[h - next] == h;
        assert Claims(reg', a, h);
      }
    }
  }

  /** The new handles belong to nobody else. */
  lemma NewHandlesAreFresh(d: Device, next: nat, memory: Memory, reg: Registry, a: nat, al: Allocation)
    requires Inv(d, next, memory, reg) && a in reg && !al.asleep && al.cells == From(next, |al.chunks|)
    ensures Exclusive(reg[a := al])
  {
    var reg' := reg[a := al];
    forall x: nat, h: nat | x != a && Claims(reg', x, h) ensures Claims(reg, x, h) && h < next {
      assert Claims(reg, x, h) && AllocationOk(d, memory, reg, x);
      var i: nat :| i < |reg[x].cells| && reg[x].cells[i] == h;
      assert IsLive(d, reg[x], i);
    }
    forall x: nat, y: nat, h: nat | Claims(reg', x, h) && Claims(reg', y, h) ensures x == y {
      if x != a && y != a { assert Claims(reg, x, h) && Claims(reg, y, h); }
    }
  }

  lemma AttachedIsOk(d: Device, al: Allocation, a: nat, next: nat)
    requires a in d.regions && d.regions[a].maps == map[] && al.backup == NoBackup && al.cells == From(next, |al.chunks|)
    ensures
      var d' := Attached(d, a, al.chunks, next);
      AwakeOk(d', d'.regions[a], al)
  {
    var d' := Attached(d, a, al.chunks, next);
    CreatedIs(d.handles, al.chunks, next, |al.chunks|);
    forall i: nat | i < |al.chunks| ensures IsLive(d', al, i) { }
    forall i: nat, j: nat | i < j < |al.cells| ensures Differ(al.cells, i, j) { }
  }

  /** Bytes at a sleeping allocation and the numbering of handles do not matter. */
  lemma QuietKeeps(d: Device, next: nat, next': nat, memory: Memory, memory': Memory, reg: Registry, a: nat)
    requires Inv(d, next, memory, reg) && a in reg && reg[a].asleep && SameExcept(memory, memory', a)
    requires forall h :: h in d.handles ==> h < next'
    ensures Inv(d, next', memory', reg)
  {
    OthersKeep(d, d, next, memory, memory', reg, reg, a);
    assert AllocationOk(d, memory, reg, a);
    assert AllocationOk(d, memory', reg, a);
  }

  /** A reservation that is not mapped is given back together with its entry. */
  lemma RemoveKeeps(d: Device, next: nat, memory: Memory, reg: Registry, a: nat)
    requires Inv(d, next, memory, reg) && a in reg && reg[a].asleep
    ensures Inv(d.(regions := d.regions - {a}), next, memory, reg - {a})
  {
    var d', reg' := d.(regions := d.regions - {a}), reg - {a};
    StayDisjoint(d, d', a);
    OthersKeep(d, d', next, memory, memory, reg, reg', a);
    forall x: nat, h: nat ensures Claims(reg', x, h) <==> Claims(reg, x, h) { }
    forall h | h in d'.handles ensures Owned(reg', h) {
      assert Owned(reg, h);
      var x: nat :| Claims(reg, x, h);
      assert Claims(reg', x, h);
    }
  }

  // ---- What the invariant says about every byte ----

  /** The byte at address `x` is backed by the mapping at offset `off` of the reservation at `b`. */
  ghost predicate Backs(d: Device, b: nat, off: nat, x: nat) {
    && b in d.regions && off in d.regions[b].maps
    && b + off <= x < b + off + d.regions[b].maps[off].size && x < b + d.regions[b].size
  }

  lemma BackedInside(d: Device, next: nat, memory: Memory, reg: Registry, a: nat, x: nat)
    requires Inv(d, next, memory, reg) && a in reg && a <= x < a + reg[a].size
    ensures forall b: nat, off: nat :: Backs(d, b, off, x) ==> b == a
  {
    assert AllocationOk(d, memory, reg, a);
    forall b: nat, off: nat | Backs(d, b, off, x) ensures b == a {
      assert b != a ==> RangesApart(d, a, b);
    }
  }

  /** Every byte of an awake allocation is mapped exactly once, and to a live handle of that allocation. */
  lemma AwakeByteIsMappedOnce(d: Device, next: nat, memory: Memory, reg: Registry, a: nat, x: nat)
    requires Inv(d, next, memory, reg) && a in reg && !reg[a].asleep && a <= x < a + reg[a].size
    ensures exists off: nat :: Backs(d, a, off, x) && d.regions[a].maps[off].handle in d.handles
    ensures forall b: nat, off: nat, b': nat, off': nat ::
              Backs(d, b, off, x) && Backs(d, b', off', x) ==> b == b' && off == off'
  {
    assert AllocationOk(d, memory, reg, a);
    var al, maps := reg[a], d.regions[a].maps;
    BackedInside(d, next, memory, reg, a, x);
    PlacedIs(map[], al.chunks, al.cells, |al.chunks|);
    var i := ByteHasOneChunk(al.chunks, |al.chunks|, x - a);
    assert Sits(maps, al.chunks, al.cells, i) && IsLive(d, al, i);
    assert Backs(d, a, Sum(al.chunks, i), x);
    forall off: nat | Backs(d, a, off, x) ensures off == Sum(al.chunks, i) {
      var j: nat :| BeginsAt(al.chunks, |al.chunks|, j, off);
      assert Sits(maps, al.chunks, al.cells, j);
      assert InChunk(al.chunks, j, x - a);
    }
  }

  /** No byte of a sleeping allocation is mapped, and no live handle is its. */
  lemma AsleepByteIsNotMapped(d: Device, next: nat, memory: Memory, reg: Registry, a: nat, x: nat)
    requires Inv(d, next, memory, reg) && a in reg && reg[a].asleep && a <= x < a + reg[a].size
    ensures a in d.regions && d.regions[a].size == reg[a].size
    ensures forall b: nat, off: nat :: !Backs(d, b, off, x)
  {
    assert AllocationOk(d, memory, reg, a);
    BackedInside(d, next, memory, reg, a, x);
  }

  /** A handle is live exactly when it is in a cell of an awake allocation, and of only one. */
  lemma LiveHandlesAreThoseAwake(d: Device, next: nat, memory: Memory, reg: Registry, h: nat)
    requires Inv(d, next, memory, reg)
    ensures h in d.handles <==> exists a: nat :: Claims(reg, a, h)
    ensures forall a: nat, b: nat :: Claims(reg, a, h) && Claims(reg, b, h) ==> a == b
  {
    if a: nat :| Claims(reg, a, h) {
      assert AllocationOk(d, memory, reg, a);
      var i: nat :| i < |reg[a].cells| && reg[a].cells[i] == h;
      assert IsLive(d, reg[a], i);
    }
    if h in d.handles { assert Owned(reg, h); }
  }
}
