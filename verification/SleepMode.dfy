/**
 * Allocating, freeing, sleeping and waking, after vllm/device_allocator/cumem.py and the entry points my_malloc,
 * my_free, python_unmap_and_release and python_create_and_map of csrc/cumem_allocator.cpp.
 *
 * Every operation tells in `ev` which calls it made, and its contract says what follows from their answers. Host
 * memory, the order of the registry's dictionary and device synchronization are not modelled.
 */
module SleepMode {
  import opened Bytes
  import opened Chunking
  import opened DeviceMemory
  import opened SleepAllocator
  import opened SleepChunks
  import opened SleepInvariant

  /** What the owner of an allocation can tell: the bytes, or what is kept of them while it is asleep. */
  datatype Content = Awake(bytes: Buffer) | Asleep(backup: Backup)

  /** An allocation as its owner knows it, and the chunks its memory comes in. */
  datatype Slot = Slot(size: nat, chunks: seq<nat>, tag: Tag, content: Content)

  datatype Tags = All | Only(tags: set<Tag>)

  predicate Selects(t: Tags, tag: Tag) { t.All? || tag in t.tags }

  function Slept(s: Slot, offload: set<Tag>): Slot {
    match s.content
    case Awake(bytes) => s.(content := Asleep(if s.tag in offload then Saved(bytes) else NoBackup))
    case Asleep(_) => s
  }

  function Woken(s: Slot, tags: Tags): Slot {
    match s.content
    case Awake(_) => s
    case Asleep(backup) =>
      if !Selects(tags, s.tag) then s
      else s.(content := Awake(if backup.Saved? then backup.bytes else Zeros(s.size)))
  }

  /** Awake again with its own size, chunks and tag; if it was awake before, with its bytes if they were offloaded and zeros if not. */
  ghost predicate CameBack(before: Slot, after: Slot, offload: set<Tag>) {
    && after.size == before.size && after.chunks == before.chunks && after.tag == before.tag && after.content.Awake?
    && (before.content.Awake? ==>
          after.content.bytes == if before.tag in offload then before.content.bytes else Zeros(before.size))
  }

  lemma SleptThenWoken(s: Slot, offload: set<Tag>)
    ensures CameBack(s, Woken(Slept(s, offload), All), offload)
  {
  }

  /** The slot of an entry, given the bytes seen at its address. */
  ghost function SlotOf(al: Allocation, memory: Memory, a: nat): Slot {
    Slot(al.size, al.chunks, al.tag, if al.asleep then Asleep(al.backup) else Awake(if a in memory then memory[a] else []))
  }

  // ---- Answers ----

  ghost predicate Plain(calls: seq<Call>) { forall i :: 0 <= i < |calls| ==> !calls[i].Reserve? }

  /** Without reservations, succeeding is having status zero. */
  lemma PlainSucceeds(ev: seq<Event>, calls: seq<Call>)
    requires Makes(ev, calls) && Plain(calls)
    ensures AllSucceed(ev) <==> AllOk(ev)
  {
    forall i: nat | i < |ev| ensures SucceededAt(ev, i) == OkAt(ev, i) { assert CallAt(ev, calls, i); }
  }

  lemma OneSucceeds(ev: seq<Event>)
    requires |ev| == 1 && !ev[0].call.Reserve?
    ensures AllSucceed(ev) <==> ev[0].status == 0
    ensures AllOk(ev) <==> ev[0].status == 0
    ensures AllLegal(ev) <==> ev[0].legal
  {
    assert SucceededAt(ev, 0) == OkAt(ev, 0) == (ev[0].status == 0) && LegalAt(ev, 0) == ev[0].legal;
  }

  lemma FinishSucceeds(ev: seq<Event>, base: nat, size: nat, spoiled: bool)
    requires IsFinish(ev, base, size, spoiled)
    ensures AllSucceed(ev) <==> AllOk(ev)
  {
    forall i: nat | i < |ev| ensures SucceededAt(ev, i) == OkAt(ev, i) { }
  }

  /** create_and_map reserves nothing. */
  lemma AttemptSucceeds(t: Attempt, base: nat, size: nat, c: seq<nat>, first: nat)
    requires WellShaped(t, base, size, c, first)
    ensures AllSucceed(Flat(t)) <==> AllOk(Flat(t))
  {
    OneSucceeds(t.context);
    PlainSucceeds(t.creates, Creates(c));
    if t.uncreates != [] { PlainSucceeds(t.uncreates, Releases(From(first, |t.creates| - 1))); }
    if t.maps != [] { PlainSucceeds(t.maps, Maps(base, c, From(first, |c|))); }
    if t.unmaps != [] { PlainSucceeds(t.unmaps, Unmaps(base, c, |t.maps| - 1)); }
    if t.releases != [] { PlainSucceeds(t.releases, Releases(From(first, |c|))); }
    if t.finish != [] { FinishSucceeds(t.finish, base, size, Spoiled(t)); }
    FlatParts(t);
    Concatenated(t.maps, t.unmaps);
    Concatenated(t.maps + t.unmaps, t.releases);
    Concatenated(t.maps + t.unmaps + t.releases, t.finish);
  }

  lemma Together(log: seq<Event>, a: seq<Event>, b: seq<Event>)
    ensures log + a + b == log + (a + b)
    ensures AllOk(a + b) <==> AllOk(a) && AllOk(b)
    ensures AllLegal(a + b) <==> AllLegal(a) && AllLegal(b)
    ensures AllSucceed(a + b) <==> AllSucceed(a) && AllSucceed(b)
  {
    Concatenated(a, b);
  }

  /** Nothing, or one copy to the device. */
  ghost predicate AtMostCopies(ev: seq<Event>) { ev != [] ==> |ev| == 1 && ev[0].call.CopyIn? }

  lemma ThreeParts(log: seq<Event>, a: seq<Event>, b: seq<Event>, c: seq<Event>)
    ensures log + a + b + c == log + (a + b + c)
  {
  }

  lemma RangeGivenBack(d: Device, a: nat, size: nat)
    requires a !in d.regions
    ensures WithRange(d, a, size).(regions := WithRange(d, a, size).regions - {a}) == d
  {
    assert WithRange(d, a, size).regions - {a} == d.regions;
  }

  lemma Reregistered(reg: Registry, a: nat, was: Allocation, now: Allocation)
    ensures reg[a := was][a := now] == reg[a := now]
  {
  }

  ghost predicate EndsWith(ev: seq<Event>, end: seq<Event>) { |end| <= |ev| && ev[|ev| - |end|..] == end }

  class CuMemAllocator {
    const driver: Driver
    var registry: Registry

    constructor (driver: Driver)
      requires driver.dev == Device(map[], map[])
      ensures Valid() && this.driver == driver && registry == map[]
    {
      this.driver := driver;
      registry := map[];
    }

    ghost predicate Valid()
      reads this, driver
    { Inv(driver.dev, driver.next, driver.memory, registry) }

    ghost function At(a: nat): Slot
      reads this, driver
      requires a in registry
    { SlotOf(registry[a], driver.memory, a) }

    /** The calls since `log` are `ev`, and the driver had no reason to refuse any of them. */
    ghost predicate Asked(log: seq<Event>, ev: seq<Event>)
      reads driver
    { driver.log == log + ev && AllLegal(ev) }

    // ---- Sleep ----

    /**
     * Releases the memory of an awake allocation and holds its address with an empty reservation. It succeeds exactly
     * when no error stands and every call succeeds. Whatever fails, every chunk is unmapped and every handle released
     * as far as the driver lets it.
     */
    method UnmapOne(a: nat) returns (ok: bool, ghost gone: set<nat>, ghost ev: seq<Event>)
      requires Valid() && a in registry && !registry[a].asleep
      modifies driver
      ensures |registry[a].cells| == |registry[a].chunks|
      ensures driver.memory == old(driver.memory) && driver.next == old(driver.next) && driver.errorCode == 0
      ensures Asked(old(driver.log), ev) && (ok <==> old(driver.errorCode) == 0 && AllSucceed(ev))
      ensures ok ==> (forall h :: h in gone <==> h in registry[a].cells)
      ensures ok ==> old(a in driver.dev.regions) && driver.dev == Detached(old(driver.dev), a, gone)
      ensures IsWalk(ev, a, registry[a]) && gone == Released(registry[a].cells, WalkReleases(ev, registry[a]))
      ensures driver.dev.handles == old(driver.dev).handles - gone
    {
      ghost var d0 := driver.dev;
      var al := registry[a];
      AwakeIsReleasable(d0, driver.next, driver.memory, registry, a);
      gone, ev := Walk(a, al);
      if driver.errorCode == 0 {
        ghost var more := driver.HoldAddress(a, al.size);
        Together(old(driver.log), ev, more);
        WalkGoesOn(a, al, ev, more);
        ev := ev + more;
      }
      ok := driver.errorCode == 0;
      driver.errorCode := 0;
    }

    /** Unmaps every chunk and releases every handle of an awake allocation. */
    method Walk(a: nat, al: Allocation) returns (ghost gone: set<nat>, ghost ev: seq<Event>)
      requires a in driver.dev.regions && AwakeOk(driver.dev, driver.dev.regions[a], al) && Positive(al.chunks)
      requires Seated(driver.dev.regions[a].maps, al.chunks, |al.chunks|) && forall h :: h in al.cells ==> h in driver.dev.handles
      modifies driver`dev, driver`errorCode, driver`log
      ensures Asked(old(driver.log), ev) && IsWalk(ev, a, al) && (AllSucceed(ev) <==> AllOk(ev))
      ensures driver.errorCode == 0 <==> old(driver.errorCode) == 0 && AllOk(ev)
      ensures gone == Released(al.cells, WalkReleases(ev, al)) && driver.dev.handles == old(driver.dev).handles - gone
      ensures a in driver.dev.regions && driver.dev.regions[a].size == old(driver.dev).regions[a].size
      ensures AllOk(ev) ==> driver.dev == Detached(old(driver.dev), a, gone) && forall h :: h in gone <==> h in al.cells
    {
      ghost var context, unmaps, releases := driver.UnmapAndRelease(a, al.chunks, al.cells);
      gone, ev := Released(al.cells, releases), context + unmaps + releases;
      WalkSucceeds(a, al, context, unmaps, releases);
      StartsWithWalk(a, al, context, unmaps, releases);
      ThreeParts(old(driver.log), context, unmaps, releases);
      if AllOk(ev) { AllGone(old(driver.dev), al, a, unmaps, releases); }
    }

    /** Offloads and releases an awake entry, and marks it asleep even when the release failed. */
    method SleepAwake(a: nat, offload: set<Tag>) returns (ok: bool, ghost ev: seq<Event>)
      requires Valid() && a in registry && !registry[a].asleep
      modifies this, driver
      ensures a in registry && registry == old(registry)[a := registry[a]] && driver.memory == old(driver.memory)
      ensures Asked(old(driver.log), ev) && (ok <==> old(driver.errorCode) == 0 && AllSucceed(ev))
      ensures old(driver.errorCode) == 0 ==> driver.errorCode == 0
      ensures registry[a] == old(registry)[a].(asleep := registry[a].asleep, backup := registry[a].backup)
      ensures !registry[a].asleep <==> |ev| == 1 && ev[0].call.CopyOut? && ev[0].status != 0
      ensures ok ==> Valid() && registry[a].asleep
      ensures ok ==> At(a) == Slept(old(At(a)), offload)
    {
      AwakeIsReleasable(driver.dev, driver.next, driver.memory, registry, a);
      var al := registry[a];
      ev := [];
      if al.tag in offload {
        var status, bytes := driver.CopyToHost(a, al.size);
        ev := [Event(CopyOut(a, al.size), status, 0, true)];
        OneSucceeds(ev);
        if status != 0 {
          return false, ev;
        }
        al := al.(backup := Saved(bytes));
      }
      ghost var gone, more;
      ok, gone, more := UnmapOne(a);
      Together(old(driver.log), ev, more);
      ev := ev + more;
      al := al.(asleep := true);
      if ok {
        DetachKeeps(old(driver.dev), old(driver.next), old(driver.memory), old(registry), a, gone, al);
      }
      registry := registry[a := al];
    }

    /** The allocator is in order and has put all entries to sleep but those of `todo`. */
    ghost predicate Sleeping(reg: Registry, offload: set<Tag>, todo: set<nat>)
      reads this, driver
    { Valid() && AllSlept(reg, registry, driver.memory, offload, todo) }

    /** One step of sleep; an entry that is asleep already is left as it is. */
    method SleepOne(a: nat, offload: set<Tag>, ghost reg: Registry, ghost todo: set<nat>) returns (ok: bool, ghost ev: seq<Event>)
      requires a in todo && Sleeping(reg, offload, todo)
      modifies this, driver
      ensures registry.Keys == old(registry.Keys) && driver.memory == old(driver.memory)
      ensures Asked(old(driver.log), ev)
      ensures old(driver.errorCode) == 0 ==> driver.errorCode == 0 && (ok <==> AllSucceed(ev))
      ensures ok ==> Sleeping(reg, offload, todo - {a})
    {
      ok, ev := true, [];
      if !registry[a].asleep {
        ok, ev := SleepAwake(a, offload);
      }
      if ok {
        SleptOneMore(reg, old(registry), registry, driver.memory, offload, todo, a);
      }
    }

    method SleepAll(offload: set<Tag>) returns (ok: bool, ghost ev: seq<Event>)
      requires Valid()
      modifies this, driver
      ensures registry.Keys == old(registry.Keys) && driver.memory == old(driver.memory)
      ensures Asked(old(driver.log), ev)
      ensures old(driver.errorCode) == 0 ==> driver.errorCode == 0 && (ok <==> AllSucceed(ev))
      ensures ok ==> Sleeping(old(registry), offload, {})
    {
      var todo := registry.Keys;
      ok, ev := true, [];
      while ok && todo != {}
        invariant driver.memory == old(driver.memory) && registry.Keys == old(registry.Keys)
        invariant Asked(old(driver.log), ev)
        invariant old(driver.errorCode) == 0 ==> driver.errorCode == 0 && (ok <==> AllSucceed(ev))
        invariant ok ==> Sleeping(old(registry), offload, todo)
        decreases ok, |todo|
      {
        var a :| a in todo;
        ghost var more;
        ok, more := SleepOne(a, offload, old(registry), todo);
        Together(old(driver.log), ev, more);
        ev := ev + more;
        todo := todo - {a};
      }
    }

    /**
     * Sleep: every allocation is asleep afterwards, with its bytes saved if its tag asks for it. Unless an error stood,
     * it succeeds exactly when every call of the driver does.
     */
    method Sleep(offload: set<Tag>) returns (ok: bool, ghost ev: seq<Event>)
      requires Valid()
      modifies this, driver
      ensures registry.Keys == old(registry.Keys) && Asked(old(driver.log), ev)
      ensures old(driver.errorCode) == 0 ==> driver.errorCode == 0 && (ok <==> AllSucceed(ev))
      ensures ok ==> Valid() && forall a :: a in registry ==> registry[a].asleep && At(a) == Slept(old(At(a)), offload)
    {
      ok, ev := SleepAll(offload);
      if ok {
        forall a | a in registry ensures registry[a].asleep && At(a) == Slept(old(At(a)), offload) {
          assert HasSlept(old(registry), registry, driver.memory, offload, {}, a);
        }
      }
    }

    // ---- Wake ----

    /**
     * Backs a sleeping entry with memory again. It succeeds exactly when no error stands and every call succeeds; when
     * it fails and everything could be undone, registry and device still agree.
     */
    method MapOne(a: nat) returns (ok: bool, hs: seq<nat>, ghost t: Attempt)
      requires Valid() && a in registry && registry[a].asleep
      modifies driver
      ensures driver.Tidy() && SameExcept(old(driver.memory), driver.memory, a) && driver.errorCode == 0
      ensures Asked(old(driver.log), Flat(t)) && (ok <==> old(driver.errorCode) == 0 && AllSucceed(Flat(t)))
      ensures ok ==> old(a in driver.dev.regions) && hs == From(old(driver.next), |registry[a].chunks|)
      ensures ok ==> driver.dev == Attached(old(driver.dev), a, registry[a].chunks, old(driver.next))
      ensures ok ==> a in driver.memory && driver.memory[a] == Zeros(registry[a].size)
      ensures ok ==> CreateSizes(Flat(t)) == registry[a].chunks
      ensures !ok && Restores(t) ==> Valid()
    {
      ghost var d0, first, memory := driver.dev, driver.next, driver.memory;
      assert AllocationOk(d0, memory, registry, a);
      hs, t := driver.CreateAndMap(a, registry[a].size, registry[a].chunks);
      AttemptSucceeds(t, a, registry[a].size, registry[a].chunks, first);
      ok := driver.errorCode == 0;
      driver.errorCode := 0;
      if ok {
        CompleteIsAttached(t, a, registry[a].size, registry[a].chunks, first);
        SizesOfAttempt(t, a, registry[a].size, registry[a].chunks, first);
      } else if Restores(t) {
        RestoresDevice(t, d0, driver.dev, a, registry[a].size, registry[a].chunks, first);
        QuietKeeps(d0, first, driver.next, memory, driver.memory, registry, a);
      }
    }

    /** Copies the saved bytes of a newly backed entry and marks it awake. */
    method CopyBack(a: nat, hs: seq<nat>, ghost d0: Device, ghost first: nat, ghost memory: Memory) returns (ok: bool, ghost ev: seq<Event>)
      requires Inv(d0, first, memory, registry) && a in registry && registry[a].asleep && a in d0.regions
      requires driver.Tidy() && SameExcept(memory, driver.memory, a) && hs == From(first, |registry[a].chunks|)
      requires driver.dev == Attached(d0, a, registry[a].chunks, first)
      requires a in driver.memory && driver.memory[a] == Zeros(registry[a].size)
      modifies this, driver`memory, driver`log
      ensures a in registry && registry == old(registry)[a := registry[a]] && SameExcept(memory, driver.memory, a)
      ensures Asked(old(driver.log), ev) && (ok <==> AllSucceed(ev)) && (ok || ev != []) && AtMostCopies(ev)
      ensures ok ==> Valid() && At(a) == Woken(SlotOf(old(registry)[a], memory, a), All)
    {
      assert AllocationOk(d0, memory, registry, a);
      var al := registry[a].(asleep := false, cells := hs);
      ok, ev := true, [];
      if al.backup.Saved? {
        PlacedIsBacked(driver.dev, a, al.chunks, hs);
        var status := driver.CopyToDevice(a, al.backup.bytes);
        ev := [Event(CopyIn(a, |al.backup.bytes|), status, 0, true)];
        OneSucceeds(ev);
        ok := status == 0;
        if ok {
          al := al.(backup := NoBackup);
        }
      }
      if ok {
        AttachKeeps(d0, first, driver.next, memory, driver.memory, registry, a, al);
      }
      registry := registry[a := al];
    }

    /** Wakes a sleeping entry and copies its bytes back. */
    method WakeAsleep(a: nat) returns (ok: bool, ghost t: Attempt, ghost copied: seq<Event>)
      requires Valid() && a in registry && registry[a].asleep
      modifies this, driver
      ensures registry.Keys == old(registry.Keys) && SameExcept(old(driver.memory), driver.memory, a) && driver.errorCode == 0
      ensures Asked(old(driver.log), Flat(t) + copied)
      ensures ok <==> old(driver.errorCode) == 0 && AllSucceed(Flat(t) + copied)
      ensures ok ==> Valid() && registry == old(registry)[a := registry[a]] && At(a) == Woken(old(At(a)), All)
      ensures !ok && copied == [] && Restores(t) ==> Valid() && registry == old(registry)
      ensures AtMostCopies(copied) && (ok ==> CreateSizes(Flat(t) + copied) == old(registry)[a].chunks)
    {
      ghost var d0, first, memory := driver.dev, driver.next, driver.memory;
      var hs;
      copied := [];
      ok, hs, t := MapOne(a);
      // When it fails the cells keep what was written to them; nothing reads them while the entry is asleep.
      if ok {
        ok, copied := CopyBack(a, hs, d0, first, memory);
      }
      Together(old(driver.log), Flat(t), copied);
      assert AllSucceed([]);
      if copied != [] { OneSize(copied); }
      SizesConcatenate(Flat(t), copied);
    }

    /** The allocator is in order and has woken all entries but those of `todo`. */
    ghost predicate Waking(reg: Registry, memory: Memory, tags: Tags, todo: set<nat>)
      reads this, driver
    { Valid() && AllWoken(reg, memory, registry, driver.memory, tags, todo) }

    /** One step of wake; an entry that is awake or has another tag is left as it is. */
    method WakeOne(a: nat, tags: Tags, ghost reg: Registry, ghost memory: Memory, ghost todo: set<nat>)
      returns (ok: bool, ghost ev: seq<Event>, ghost t: Attempt, ghost copied: seq<Event>)
      requires a in todo && Waking(reg, memory, tags, todo)
      modifies this, driver
      ensures registry.Keys == old(registry.Keys) && Asked(old(driver.log), ev)
      ensures old(driver.errorCode) == 0 ==> driver.errorCode == 0 && (ok <==> AllSucceed(ev))
      ensures !ok ==> ev == Flat(t) + copied && AtMostCopies(copied)
      ensures ok ==> Waking(reg, memory, tags, todo - {a})
      ensures ok ==> CreateSizes(ev) == if IsWoken(reg, tags, a) then reg[a].chunks else []
      ensures !ok && copied == [] && Restores(t) ==> Waking(reg, memory, tags, todo)
    {
      ok, ev, t, copied := true, [], Attempt(0, [], [], [], [], [], [], []), [];
      ghost var d0, first := driver.dev, driver.next;
      assert HasWoken(reg, memory, registry, driver.memory, tags, todo, a);
      if registry[a].asleep && Selects(tags, registry[a].tag) {
        ok, t, copied := WakeAsleep(a);
        ev := Flat(t) + copied;
      }
      OthersLookTheSame(d0, first, old(registry), old(driver.memory), driver.memory, a);
      if ok {
        WokenOneMore(reg, memory, old(registry), old(driver.memory), registry, driver.memory, tags, todo, a);
      } else if copied == [] && Restores(t) {
        StillAsleep(reg, memory, registry, old(driver.memory), driver.memory, tags, todo, a);
      }
    }

    method WakeAll(tags: Tags)
      returns (ok: bool, ghost ev: seq<Event>, ghost t: Attempt, ghost copied: seq<Event>, ghost todo: set<nat>, ghost woken: seq<nat>)
      requires Valid()
      modifies this, driver
      ensures registry.Keys == old(registry.Keys) && Asked(old(driver.log), ev) && (ok ==> todo == {})
      ensures old(driver.errorCode) == 0 ==> driver.errorCode == 0 && (ok <==> AllSucceed(ev))
      ensures !ok ==> EndsWith(ev, Flat(t) + copied) && AtMostCopies(copied)
      ensures ok || (copied == [] && Restores(t)) ==> Waking(old(registry), old(driver.memory), tags, todo)
      ensures ok ==> AreWoken(old(registry), tags, {}, woken) && CreateSizes(ev) == AllChunks(old(registry), woken)
    {
      var left := registry.Keys;
      woken := [];
      ok, ev, t, copied := true, [], Attempt(0, [], [], [], [], [], [], []), [];
      NoneWoken(registry, driver.memory, tags);
      while ok && left != {}
        invariant registry.Keys == old(registry.Keys) && Asked(old(driver.log), ev)
        invariant old(driver.errorCode) == 0 ==> driver.errorCode == 0 && (ok <==> AllSucceed(ev))
        invariant !ok ==> EndsWith(ev, Flat(t) + copied) && AtMostCopies(copied)
        invariant ok || (copied == [] && Restores(t)) ==> Waking(old(registry), old(driver.memory), tags, left)
        invariant ok ==> AreWoken(old(registry), tags, left, woken) && CreateSizes(ev) == AllChunks(old(registry), woken)
        decreases ok, |left|
      {
        var a :| a in left;
        ghost var more;
        ok, more, t, copied := WakeOne(a, tags, old(registry), old(driver.memory), left);
        Together(old(driver.log), ev, more);
        SizesConcatenate(ev, more);
        ev := ev + more;
        if ok {
          woken := OneMoreWoken(old(registry), tags, left, woken, a);
          left := left - {a};
        }
      }
      todo := left;
    }

    /**
     * Wake: the selected allocations have the bytes that were saved, or zeros. Unless an error stood, it succeeds
     * exactly when every call of the driver does. When the calls end with an attempt to back an entry that was undone
     * completely, that entry is asleep as before and the call can be repeated.
     */
    method WakeUp(tags: Tags)
      returns (ok: bool, ghost ev: seq<Event>, ghost t: Attempt, ghost copied: seq<Event>, ghost woken: seq<nat>)
      requires Valid()
      modifies this, driver
      ensures registry.Keys == old(registry.Keys) && Asked(old(driver.log), ev)
      ensures old(driver.errorCode) == 0 ==> driver.errorCode == 0 && (ok <==> AllSucceed(ev))
      ensures ok ==> Valid() && forall a :: a in registry ==> At(a) == Woken(old(At(a)), tags)
      ensures ok ==> forall a :: a in registry ==>
                (registry[a].asleep <==> old(registry)[a].asleep && tags.Only? && old(registry)[a].tag !in tags.tags)
      ensures ok ==> AreWoken(old(registry), tags, {}, woken) && CreateSizes(ev) == AllChunks(old(registry), woken)
      ensures !ok ==> EndsWith(ev, Flat(t) + copied) && AtMostCopies(copied)
      ensures !ok && copied == [] && Restores(t) ==>
                Valid() && forall a :: a in registry ==> At(a) == old(At(a)) || At(a) == Woken(old(At(a)), tags)
    {
      ghost var todo;
      ok, ev, t, copied, todo, woken := WakeAll(tags);
      if ok || (copied == [] && Restores(t)) {
        forall a | a in registry
          ensures (a in todo ==> At(a) == old(At(a))) && (a !in todo ==> At(a) == Woken(old(At(a)), tags)) {
          assert HasWoken(old(registry), old(driver.memory), registry, driver.memory, tags, todo, a);
        }
      }
    }

    // ---- Allocate ----

    /** The rounded size of an allocation and its chunks. */
    method Plan(size: nat, g: nat, s: Setting) returns (aligned: nat, chunks: seq<nat>)
      requires NoWrap(size, g, s)
      ensures aligned == AlignUp(size, g) && Sum(chunks, |chunks|) == aligned && Positive(chunks)
      ensures ChunksOk(chunks, g, AlignUp(ChunkSetting(s), g))
    {
      aligned := AlignUp(size, g);
      var whole := AlignUp(ChunkSetting(s), g);
      AlignUpIff(size, g);
      AlignUpIff(ChunkSetting(s), g);
      AlignUpIsZeroIff(ChunkSetting(s), g);
      var ok, c := ComputeChunks(aligned, g, whole);
      chunks := c[..];
      forall i: nat | i < |chunks| ensures chunks[i] > 0 { assert ChunkOk(chunks, g, whole, i); }
    }

    /** Reserves an aligned range for an allocation; no error stands afterwards exactly when the last call reserved it. */
    method Admit(size: nat, g: nat, s: Setting) returns (addr: nat, aligned: nat, chunks: seq<nat>, ghost ev: seq<Event>)
      requires NoWrap(size, g, s)
      modifies driver`dev, driver`errorCode, driver`log
      ensures Asked(old(driver.log), ev) && (driver.errorCode == 0 <==> Reserves(ev, g))
      ensures old(driver.errorCode) == 0 && AllSucceed(ev) ==> Reserves(ev, g)
      ensures old(driver.errorCode) != 0 ==> !Reserves(ev, g) && driver.dev == old(driver.dev)
      ensures Reserves(ev, g) ==> aligned == AlignUp(size, g) && Sum(chunks, |chunks|) == aligned && Positive(chunks)
      ensures Reserves(ev, g) ==> ChunksOk(chunks, g, AlignUp(ChunkSetting(s), g))
      ensures Reserves(ev, g) ==> addr == ev[|ev| - 1].result != 0 && addr % g == 0 && IsFree(old(driver.dev), addr, aligned)
      ensures Reserves(ev, g) ==> driver.dev == WithRange(old(driver.dev), addr, aligned)
    {
      ev := driver.Query(Context);
      ghost var more := driver.Query(Granularity);
      OneSucceeds(ev);
      OneSucceeds(more);
      Together(old(driver.log), ev, more);
      ev := ev + more;
      if driver.errorCode != 0 {
        assert ev[0].call.Context? && ev[1].call.Granularity?;
        assert AllSucceed(ev) ==> SucceededAt(ev, 0) && SucceededAt(ev, 1);
        return 0, 0, [], ev;
      }
      aligned, chunks := Plan(size, g, s);
      var status;
      status, addr, more := driver.ReserveRocm(aligned, g, 0);
      Together(old(driver.log), ev, more);
      assert AllSucceed(more) ==> SucceededAt(more, 0);
      ev := ev + more;
      driver.Check(status);
    }

    /**
     * Registers an allocation, then backs its reservation with memory or gives the reservation back. It succeeds exactly
     * when every call does; the entry stays in any case.
     */
    method BackNew(a: nat, entry: Allocation, ghost d0: Device) returns (ok: bool, ghost t: Attempt, ghost freed: seq<Event>)
      requires Inv(d0, driver.next, driver.memory, registry) && driver.errorCode == 0
      requires a != 0 && IsFree(d0, a, entry.size) && driver.dev == WithRange(d0, a, entry.size)
      requires !entry.asleep && entry.backup == NoBackup && Positive(entry.chunks) && Sum(entry.chunks, |entry.chunks|) == entry.size
      modifies this, driver
      ensures a in registry && registry == old(registry)[a := registry[a]] && SameExcept(old(driver.memory), driver.memory, a)
      ensures Asked(old(driver.log), Flat(t) + freed) && (ok <==> AllOk(Flat(t) + freed))
      ensures AllSucceed(Flat(t) + freed) <==> AllOk(Flat(t) + freed)
      ensures ok ==> Valid() && driver.errorCode == 0 && At(a) == Slot(entry.size, entry.chunks, entry.tag, Awake(Zeros(entry.size)))
      ensures registry[a].chunks == entry.chunks && WellShaped(t, a, entry.size, entry.chunks, old(driver.next)) && t.standing == 0
      ensures ok ==> freed == []
      ensures !ok ==> driver.errorCode != 0 && |freed| == 1 && freed[0].call == FreeRange(a, entry.size)
      ensures !ok && Restores(t) && AllOk(freed) ==> driver.dev == d0
    {
      ghost var first, memory, reg := driver.next, driver.memory, registry;
      registry := registry[a := entry];
      var hs;
      assert driver.Tidy();
      ok, hs, t, freed := driver.BackRange(a, entry.size, entry.chunks);
      AttemptSucceeds(t, a, entry.size, entry.chunks, first);
      if freed != [] { OneSucceeds(freed); }
      Together(driver.log, Flat(t), freed);
      Reregistered(reg, a, entry, entry.(cells := hs));
      registry := registry[a := entry.(cells := hs)];
      if ok {
        NewKeeps(d0, first, driver.next, memory, driver.memory, reg, a, entry, driver.dev);
      } else {
        RangeGivenBack(d0, a, entry.size);
      }
    }

    /** The same; it asks for memory in the chunks of the entry. */
    method BackInChunks(a: nat, entry: Allocation, ghost d0: Device) returns (ok: bool, ghost t: Attempt, ghost freed: seq<Event>)
      requires Inv(d0, driver.next, driver.memory, registry) && driver.errorCode == 0
      requires a != 0 && IsFree(d0, a, entry.size) && driver.dev == WithRange(d0, a, entry.size)
      requires !entry.asleep && entry.backup == NoBackup && Positive(entry.chunks) && Sum(entry.chunks, |entry.chunks|) == entry.size
      modifies this, driver
      ensures a in registry && registry == old(registry)[a := registry[a]] && SameExcept(old(driver.memory), driver.memory, a)
      ensures Asked(old(driver.log), Flat(t) + freed) && (ok <==> AllOk(Flat(t) + freed))
      ensures AllSucceed(Flat(t) + freed) <==> AllOk(Flat(t) + freed)
      ensures ok ==> Valid() && driver.errorCode == 0 && At(a) == Slot(entry.size, entry.chunks, entry.tag, Awake(Zeros(entry.size)))
      ensures registry[a].chunks == entry.chunks && CreateSizes(Flat(t)) <= entry.chunks
      ensures ok ==> CreateSizes(Flat(t)) == entry.chunks
      ensures ok ==> freed == []
      ensures !ok ==> driver.errorCode != 0 && |freed| == 1 && freed[0].call == FreeRange(a, entry.size)
      ensures !ok && Restores(t) && AllOk(freed) ==> driver.dev == d0
    {
      ghost var first := driver.next;
      ok, t, freed := BackNew(a, entry, d0);
      SizesOfAttempt(t, a, entry.size, entry.chunks, first);
      if ok { Concatenated(Flat(t), freed); }
    }

    /**
     * Allocates zeroed memory at an aligned address. The calls are those up to the reservation, `admit`, then those that
     * back it, `t`, and if that failed the one that gives it back, `freed`. It succeeds exactly when the reservation
     * does and every call after it. The registry has an entry for the reserved address even when backing it failed, so
     * that after everything was undone registry and device disagree. While an error stands nothing is reserved.
     */
    method Malloc(size: nat, tag: Tag, g: nat, s: Setting) returns (ptr: nat, ghost admit: seq<Event>, ghost t: Attempt, ghost freed: seq<Event>)
      requires Valid() && NoWrap(size, g, s)
      modifies this, driver
      ensures Asked(old(driver.log), admit + (Flat(t) + freed)) && (!Reserves(admit, g) ==> Flat(t) + freed == [])
      ensures ptr != 0 <==> Reserves(admit, g) && AllOk(Flat(t) + freed)
      ensures ptr != 0 <==> driver.errorCode == 0
      ensures old(driver.errorCode) == 0 && AllSucceed(admit + (Flat(t) + freed)) ==> ptr != 0
      ensures old(driver.errorCode) != 0 ==> !Reserves(admit, g) && driver.dev == old(driver.dev)
      ensures !Reserves(admit, g) ==> registry == old(registry)
      ensures Reserves(admit, g) ==>
                var at := admit[|admit| - 1].result;
                at !in old(registry) && at in registry && registry == old(registry)[at := registry[at]]
      ensures Reserves(admit, g) && ptr == 0 ==>
                |freed| == 1 && freed[0].call == FreeRange(admit[|admit| - 1].result, AlignUp(size, g))
      ensures Reserves(admit, g) && ptr == 0 && Restores(t) && AllOk(freed) ==> driver.dev == old(driver.dev) && !Valid()
      ensures ptr != 0 ==> Valid() && ptr == admit[|admit| - 1].result && ptr % g == 0
      ensures Reserves(admit, g) ==>
                var c := registry[admit[|admit| - 1].result].chunks;
                ChunksOk(c, g, AlignUp(ChunkSetting(s), g)) && Sum(c, |c|) == AlignUp(size, g) && CreateSizes(Flat(t)) <= c
      ensures ptr != 0 ==> At(ptr) == Slot(AlignUp(size, g), CreateSizes(Flat(t)), tag, Awake(Zeros(AlignUp(size, g))))
      ensures ptr != 0 ==> forall a :: a in old(registry) ==> a in registry && At(a) == old(At(a))
    {
      ghost var d0, first, memory, reg := driver.dev, driver.next, driver.memory, registry;
      var addr, aligned, chunks;
      addr, aligned, chunks, admit := Admit(size, g, s);
      ptr, t, freed := 0, Attempt(0, [], [], [], [], [], [], []), [];
      if driver.errorCode == 0 {
        NotRegistered(d0, first, memory, reg, addr);
        var ok;
        ok, t, freed := BackInChunks(addr, Allocation(aligned, chunks, [], tag, NoBackup, false), d0);
        if ok {
          ptr := addr;
          OthersLookTheSame(d0, first, reg, memory, driver.memory, addr);
        } else {
          assert addr in registry.Keys && addr !in d0.regions.Keys;
        }
      }
      Together(old(driver.log), admit, Flat(t) + freed);
    }

    // ---- Free ----

    /** Takes everything out of a reservation whose entry has just been removed. */
    method Empty(ptr: nat, al: Allocation) returns (ghost gone: set<nat>, ghost ev: seq<Event>)
      requires ptr in driver.dev.regions && driver.dev.regions[ptr].size == al.size && Positive(al.chunks)
      requires if al.asleep then AsleepOk(driver.dev.regions[ptr], al) else AwakeOk(driver.dev, driver.dev.regions[ptr], al)
      requires !al.asleep ==> Seated(driver.dev.regions[ptr].maps, al.chunks, |al.chunks|)
      requires !al.asleep ==> forall h :: h in al.cells ==> h in driver.dev.handles
      modifies driver`dev, driver`errorCode, driver`log
      ensures Asked(old(driver.log), ev) && (driver.errorCode == 0 <==> old(driver.errorCode) == 0 && AllOk(ev))
      ensures AllSucceed(ev) <==> AllOk(ev)
      ensures al.asleep ==> ev == []
      ensures ptr in driver.dev.regions && driver.dev.regions[ptr].size == al.size
      ensures AllOk(ev) && (old(driver.errorCode) == 0 || ev == []) ==> driver.dev == Detached(old(driver.dev), ptr, gone)
      ensures AllOk(ev) ==> if al.asleep then gone == {} else forall h :: h in gone <==> h in al.cells
    {
      gone, ev := {}, [];
      if !al.asleep && |al.chunks| > 0 {
        gone, ev := Walk(ptr, al);
      } else {
        SameRegion(driver.dev, ptr);
        assert driver.dev.handles - {} == driver.dev.handles;
      }
    }

    /**
     * Frees an allocation, awake or asleep; an address that is not registered is left alone. The last call gives the
     * address back with the size the caller names: the driver must refuse it exactly if that is not the rounded size,
     * and then an error is left standing and the range stays reserved.
     */
    method Free(ptr: nat, size: nat) returns (ghost ev: seq<Event>)
      requires Valid()
      modifies this, driver
      ensures driver.memory == old(driver.memory) && registry == old(registry) - {ptr} && driver.log == old(driver.log) + ev
      ensures ptr !in old(registry) ==> ev == [] && Valid() && driver.dev == old(driver.dev) && driver.errorCode == old(driver.errorCode)
      ensures ptr in old(registry) ==> ev != [] && ev[|ev| - 1].call == FreeRange(ptr, size)
      ensures ptr in old(registry) && old(registry)[ptr].asleep ==> |ev| == 1
      ensures ptr in old(registry) ==> (AllLegal(ev) <==> size == old(registry)[ptr].size) && AllLegal(ev[..|ev| - 1])
      ensures ptr in old(registry) ==> (driver.errorCode == 0 <==> old(driver.errorCode) == 0 && AllSucceed(ev))
      ensures ptr in old(registry) && driver.errorCode == 0 ==> Valid() && size == old(registry)[ptr].size
      ensures ptr in old(registry) && size != old(registry)[ptr].size ==> driver.errorCode != 0 && ptr in driver.dev.regions
    {
      ghost var d0, first, memory, reg := driver.dev, driver.next, driver.memory, registry;
      if ptr !in registry {
        assert registry - {ptr} == registry;
        return [];
      }
      EntryIsEmptiable(d0, first, memory, reg, ptr);
      var al := registry[ptr];
      registry := registry - {ptr};
      ghost var gone;
      gone, ev := GiveBack(ptr, al, size);
      if driver.errorCode == 0 {
        FreeKeeps(d0, driver.dev, first, memory, reg, registry, ptr, gone);
      }
    }

    /** Empties a range and gives it back with the size the caller names. */
    method GiveBack(ptr: nat, al: Allocation, size: nat) returns (ghost gone: set<nat>, ghost ev: seq<Event>)
      requires ptr in driver.dev.regions && driver.dev.regions[ptr].size == al.size && Positive(al.chunks)
      requires if al.asleep then AsleepOk(driver.dev.regions[ptr], al) else AwakeOk(driver.dev, driver.dev.regions[ptr], al)
      requires !al.asleep ==> Seated(driver.dev.regions[ptr].maps, al.chunks, |al.chunks|)
      requires !al.asleep ==> forall h :: h in al.cells ==> h in driver.dev.handles
      modifies driver`dev, driver`errorCode, driver`log
      ensures driver.log == old(driver.log) + ev && ev != [] && ev[|ev| - 1].call == FreeRange(ptr, size) && (al.asleep ==> |ev| == 1)
      ensures (AllLegal(ev) <==> size == al.size) && AllLegal(ev[..|ev| - 1])
      ensures driver.errorCode == 0 <==> old(driver.errorCode) == 0 && AllSucceed(ev)
      ensures size != al.size ==> driver.errorCode != 0 && ptr in driver.dev.regions
      ensures driver.errorCode == 0 ==> if al.asleep then gone == {} else forall h :: h in gone <==> h in al.cells
      ensures driver.errorCode == 0 ==> var d := Detached(old(driver.dev), ptr, gone); driver.dev == d.(regions := d.regions - {ptr})
    {
      gone, ev := Empty(ptr, al);
      ghost var walked := ev;
      var status := driver.AddressFree(ptr, size);
      ghost var e := [Event(FreeRange(ptr, size), status, 0, size == al.size)];
      OneSucceeds(e);
      Together(old(driver.log), walked, e);
      ev := walked + e;
      assert ev[..|ev| - 1] == walked;
      driver.Check(status);
    }

    // ---- Runs ----

    /** What a caller sees that frees with the size it asked for: an error stays unless that size was a multiple. */
    method AllocateAndFree(size: nat, tag: Tag, g: nat, s: Setting) returns (ptr: nat)
      requires Valid() && NoWrap(size, g, s)
      modifies this, driver
      ensures ptr != 0 && size % g != 0 ==> driver.errorCode != 0 && ptr in driver.dev.regions && ptr !in registry
      ensures ptr != 0 && driver.errorCode == 0 ==> Valid() && registry == old(registry)
    {
      ghost var admit, t, freed;
      ptr, admit, t, freed := Malloc(size, tag, g, s);
      if ptr != 0 {
        AlignedIff(size, g);
        assert At(ptr).size == registry[ptr].size;
        assert old(registry)[ptr := registry[ptr]] - {ptr} == old(registry);
        ghost var ev := Free(ptr, size);
      }
    }

    /** Wakes everything. */
    method WakeEverything() returns (ok: bool, ghost ev: seq<Event>)
      requires Valid() && driver.errorCode == 0
      modifies this, driver
      ensures registry.Keys == old(registry.Keys) && Asked(old(driver.log), ev) && (ok <==> AllSucceed(ev))
      ensures ok ==> Valid() && forall a :: a in registry ==> At(a) == Woken(old(At(a)), All)
    {
      ghost var t, copied, woken;
      ok, ev, t, copied, woken := WakeUp(All);
    }

    /**
     * Sleeping and then waking everything: if all calls of the driver succeed, every allocation is at its address with
     * the bytes it had if its tag was offloaded, and with zeros otherwise.
     */
    method SleepAndWake(offload: set<Tag>) returns (ok: bool, ghost ev: seq<Event>)
      requires Valid() && driver.errorCode == 0
      modifies this, driver
      ensures registry.Keys == old(registry.Keys) && Asked(old(driver.log), ev) && (ok <==> AllSucceed(ev))
      ensures ok ==> Valid() && forall a :: a in registry ==> CameBack(old(At(a)), At(a), offload)
    {
      ok, ev := Sleep(offload);
      if ok {
        ghost var more;
        ok, more := WakeEverything();
        Together(old(driver.log), ev, more);
        ev := ev + more;
      }
      if ok {
        forall a | a in registry ensures CameBack(old(At(a)), At(a), offload) {
          SleptThenWoken(old(At(a)), offload);
        }
      }
    }

    /** One operation of a run; `ok` tells that it reported no error. */
    method Step(op: Operation, g: nat, s: Setting) returns (ok: bool, ghost ev: seq<Event>)
      requires Valid() && Admissible(op, g, s) && driver.errorCode == 0
      modifies this, driver
      ensures driver.log == old(driver.log) + ev && (AllLegal(ev) || (WrongSize(old(registry), op) && !ok))
      ensures AllSucceed(ev) ==> ok
      ensures ok ==> Valid() && driver.errorCode == 0 && Keeps(old(registry), registry, op)
    {
      match op {
        case Allocate(size, tag) =>
          var ptr;
          ghost var admit, t, freed;
          ptr, admit, t, freed := Malloc(size, tag, g, s);
          ev := admit + (Flat(t) + freed);
          ok := ptr != 0;
        case GiveUp(ptr, size) =>
          var known := ptr in registry;
          ev := Free(ptr, size);
          ok := !known || driver.errorCode == 0;
        case GoToSleep(offload) =>
          ok, ev := Sleep(offload);
        case Awaken(tags) =>
          ghost var t, copied, woken;
          ok, ev, t, copied, woken := WakeUp(tags);
      }
    }

    /**
     * Every run of allocating, freeing, sleeping and waking. If all calls of the driver succeed then no operation
     * reports an error. As long as none does, registry and device agree, every call was one the driver may accept, and
     * every entry that no operation freed is at its address with its size and tag. Only a free can make a call that the
     * driver must refuse.
     */
    method Run(ops: seq<Operation>, g: nat, s: Setting) returns (ok: bool, ghost ev: seq<Event>, ghost done: nat)
      requires Valid() && driver.errorCode == 0 && forall i :: 0 <= i < |ops| ==> Admissible(ops[i], g, s)
      modifies this, driver
      ensures driver.log == old(driver.log) + ev && done <= |ops| && (ok <==> done == |ops|)
      ensures AllSucceed(ev) ==> ok
      ensures ok ==> Valid() && driver.errorCode == 0 && AllLegal(ev) && KeepsThrough(old(registry), registry, ops)
      ensures !ok ==> AllLegal(ev) || ops[done].GiveUp?
    {
      ok, ev := true, [];
      var i := 0;
      while ok && i < |ops|
        invariant 0 <= i <= |ops| && driver.log == old(driver.log) + ev && (AllSucceed(ev) ==> ok)
        invariant ok ==> Valid() && driver.errorCode == 0 && AllLegal(ev) && KeepsThrough(old(registry), registry, ops[..i])
        invariant !ok ==> i > 0 && (AllLegal(ev) || ops[i - 1].GiveUp?)
      {
        ghost var before, more := registry, [];
        ok, more := Step(ops[i], g, s);
        Together(old(driver.log), ev, more);
        ev := ev + more;
        if ok { KeepsOneMore(old(registry), before, registry, ops, i); }
        i := i + 1;
      }
      assert ops[..|ops|] == ops;
      done := if ok then i else i - 1;
    }
  }

  lemma KeepsOneMore(reg: Registry, before: Registry, after: Registry, ops: seq<Operation>, i: nat)
    requires i < |ops| && KeepsThrough(reg, before, ops[..i]) && Keeps(before, after, ops[i])
    ensures KeepsThrough(reg, after, ops[..i + 1])
  {
    forall a: nat | a in reg && !FreedBy(ops[..i + 1], a) ensures StillThere(reg, after, a) {
      assert !FreedBy(ops[..i], a) by {
        if FreedBy(ops[..i], a) {
          var j: nat :| j < i && FreesAt(ops[..i], j, a);
          assert FreesAt(ops[..i + 1], j, a);
        }
      }
      assert !FreesAt(ops[..i + 1], i, a);
      assert StillThere(reg, before, a) && StillThere(before, after, a);
    }
  }

  /** What emptying an entry's range asks of the driver is acceptable. */
  lemma EntryIsEmptiable(d: Device, next: nat, memory: Memory, reg: Registry, a: nat)
    requires Inv(d, next, memory, reg) && a in reg
    ensures a in d.regions && d.regions[a].size == reg[a].size && Positive(reg[a].chunks)
    ensures if reg[a].asleep then AsleepOk(d.regions[a], reg[a]) else AwakeOk(d, d.regions[a], reg[a])
    ensures !reg[a].asleep ==> Seated(d.regions[a].maps, reg[a].chunks, |reg[a].chunks|)
    ensures !reg[a].asleep ==> forall h :: h in reg[a].cells ==> h in d.handles
  {
    assert AllocationOk(d, memory, reg, a);
    if !reg[a].asleep { AwakeIsReleasable(d, next, memory, reg, a); }
  }

  lemma NotRegistered(d: Device, next: nat, memory: Memory, reg: Registry, a: nat)
    requires Inv(d, next, memory, reg) && a !in d.regions
    ensures a !in reg
  {
    assert a !in d.regions.Keys;
  }

  /** A new entry whose reservation has been backed is in order, like all others. */
  lemma NewKeeps(d0: Device, first: nat, next: nat, memory: Memory, memory': Memory, reg: Registry, a: nat, entry: Allocation, d: Device)
    requires Inv(d0, first, memory, reg) && a != 0 && IsFree(d0, a, entry.size) && SameExcept(memory, memory', a)
    requires !entry.asleep && entry.backup == NoBackup && Positive(entry.chunks) && Sum(entry.chunks, |entry.chunks|) == entry.size
    requires d == Attached(WithRange(d0, a, entry.size), a, entry.chunks, first)
    requires a in memory' && |memory'[a]| == entry.size && forall h :: h in d.handles ==> h < next
    ensures Inv(d, next, memory', reg[a := entry.(cells := From(first, |entry.chunks|))])
  {
    var d1 := WithRange(d0, a, entry.size);
    var asleep, awake := entry.(asleep := true), entry.(cells := From(first, |entry.chunks|));
    var reserved := reg[a := asleep];
    assert Inv(d1, first, memory, reserved) by { ReserveKeeps(d0, first, memory, reg, a, asleep); }
    assert reserved[a := awake] == reg[a := awake];
    AttachKeeps(d1, first, next, memory, memory', reserved, a, awake);
  }

  lemma SameRegion(d: Device, a: nat)
    requires a in d.regions && d.regions[a].maps == map[]
    ensures d.regions[a := Region(d.regions[a].size, map[])] == d.regions
  {
    assert Region(d.regions[a].size, map[]) == d.regions[a];
  }

  /** An allocation whose reservation has been emptied and given back leaves the others in order. */
  lemma FreeKeeps(d: Device, d': Device, next: nat, memory: Memory, reg: Registry, reg': Registry, a: nat, gone: set<nat>)
    requires Inv(d, next, memory, reg) && a in reg && a in d.regions && reg' == reg - {a}
    requires d' == Detached(d, a, gone).(regions := Detached(d, a, gone).regions - {a})
    requires if reg[a].asleep then gone == {} else forall h :: h in gone <==> h in reg[a].cells
    ensures Inv(d', next, memory, reg')
  {
    assert AllocationOk(d, memory, reg, a);
    if reg[a].asleep {
      SameRegion(d, a);
      assert d.handles - {} == d.handles;
      RemoveKeeps(d, next, memory, reg, a);
    } else {
      var al := reg[a].(asleep := true);
      assert Inv(Detached(d, a, gone), next, memory, reg[a := al]) by { DetachKeeps(d, next, memory, reg, a, gone, al); }
      assert reg[a := al] - {a} == reg - {a};
      RemoveKeeps(Detached(d, a, gone), next, memory, reg[a := al], a);
    }
  }

  /** The entry at `a` is still to be done, or done. */
  ghost predicate HasSlept(reg: Registry, reg': Registry, memory: Memory, offload: set<Tag>, todo: set<nat>, a: nat)
    requires a in reg && a in reg'
  {
    if a in todo then reg'[a] == reg[a]
    else reg'[a].asleep && SlotOf(reg'[a], memory, a) == Slept(SlotOf(reg[a], memory, a), offload)
  }

  ghost predicate AllSlept(reg: Registry, reg': Registry, memory: Memory, offload: set<Tag>, todo: set<nat>) {
    && reg'.Keys == reg.Keys && todo <= reg.Keys
    && forall a: nat {:trigger HasSlept(reg, reg', memory, offload, todo, a)} :: a in reg ==> HasSlept(reg, reg', memory, offload, todo, a)
  }

  lemma SleptOneMore(reg: Registry, before: Registry, after: Registry, memory: Memory, offload: set<Tag>, todo: set<nat>, a: nat)
    requires AllSlept(reg, before, memory, offload, todo) && a in todo && a in after && after == before[a := after[a]]
    requires after[a].asleep && SlotOf(after[a], memory, a) == Slept(SlotOf(before[a], memory, a), offload)
    ensures AllSlept(reg, after, memory, offload, todo - {a})
  {
    assert after.Keys == before.Keys;
    forall x: nat | x in reg ensures HasSlept(reg, after, memory, offload, todo - {a}, x) {
      assert HasSlept(reg, before, memory, offload, todo, x);
    }
  }

  /** What releasing an awake allocation asks of the driver is acceptable. */
  lemma AwakeIsReleasable(d: Device, next: nat, memory: Memory, reg: Registry, a: nat)
    requires Inv(d, next, memory, reg) && a in reg && !reg[a].asleep
    ensures a != 0 && a in d.regions && d.regions[a].size == reg[a].size && |reg[a].cells| == |reg[a].chunks|
    ensures Positive(reg[a].chunks) && AwakeOk(d, d.regions[a], reg[a]) && Distinct(reg[a].cells)
    ensures Seated(d.regions[a].maps, reg[a].chunks, |reg[a].chunks|) && Backed(d, a, reg[a].size)
    ensures forall h :: h in reg[a].cells ==> h in d.handles
    ensures a in memory && |memory[a]| == reg[a].size
  {
    assert AllocationOk(d, memory, reg, a);
    var al := reg[a];
    PlacedAreSeated(map[], al.chunks, al.cells, |al.chunks|);
    PlacedIsBacked(d, a, al.chunks, al.cells);
    forall h | h in al.cells ensures h in d.handles {
      var i: nat :| i < |al.cells| && al.cells[i] == h;
      assert IsLive(d, al, i);
    }
    assert a in d.regions.Keys;
  }

  /** The calls begin with one for the context, one to unmap each chunk and one to release each handle. */
  ghost predicate IsWalk(ev: seq<Event>, a: nat, al: Allocation)
    requires |al.cells| == |al.chunks|
  {
    var n := |al.chunks|;
    && |ev| >= 1 + 2 * n && ev[0].call == Context
    && MakesAll(ev[1..1 + n], Unmaps(a, al.chunks, n)) && MakesAll(WalkReleases(ev, al), Releases(al.cells))
  }

  ghost function WalkReleases(ev: seq<Event>, al: Allocation): seq<Event>
    requires |ev| >= 1 + 2 * |al.chunks|
  { ev[1 + |al.chunks|..1 + 2 * |al.chunks|] }

  lemma StartsWithWalk(a: nat, al: Allocation, context: seq<Event>, unmaps: seq<Event>, releases: seq<Event>)
    requires |context| == 1 && context[0].call == Context && |al.cells| == |al.chunks|
    requires MakesAll(unmaps, Unmaps(a, al.chunks, |al.chunks|)) && MakesAll(releases, Releases(al.cells))
    ensures IsWalk(context + unmaps + releases, a, al) && WalkReleases(context + unmaps + releases, al) == releases
  {
    var n, ev := |al.chunks|, context + unmaps + releases;
    assert ev[1..1 + n] == unmaps && ev[1 + n..1 + 2 * n] == releases;
  }

  lemma WalkGoesOn(a: nat, al: Allocation, ev: seq<Event>, more: seq<Event>)
    requires |al.cells| == |al.chunks| && IsWalk(ev, a, al)
    ensures IsWalk(ev + more, a, al) && WalkReleases(ev + more, al) == WalkReleases(ev, al)
  {
    var n := |al.chunks|;
    assert (ev + more)[1..1 + n] == ev[1..1 + n] && (ev + more)[1 + n..1 + 2 * n] == ev[1 + n..1 + 2 * n];
  }

  lemma WalkSucceeds(a: nat, al: Allocation, context: seq<Event>, unmaps: seq<Event>, releases: seq<Event>)
    requires |context| == 1 && context[0].call == Context
    requires MakesAll(unmaps, Unmaps(a, al.chunks, |al.chunks|)) && MakesAll(releases, Releases(al.cells))
    ensures AllSucceed(context + unmaps + releases) <==> AllOk(context) && AllOk(unmaps) && AllOk(releases)
    ensures AllOk(context + unmaps + releases) <==> AllOk(context) && AllOk(unmaps) && AllOk(releases)
    ensures AllLegal(context + unmaps + releases) <==> AllLegal(context) && AllLegal(unmaps) && AllLegal(releases)
  {
    OneSucceeds(context);
    PlainSucceeds(unmaps, Unmaps(a, al.chunks, |al.chunks|));
    PlainSucceeds(releases, Releases(al.cells));
    Concatenated(context, unmaps);
    Concatenated(context + unmaps, releases);
  }

  /** When every call succeeded nothing is mapped any more and exactly the handles of the cells are gone. */
  lemma AllGone(d: Device, al: Allocation, a: nat, unmapped: seq<Event>, released: seq<Event>)
    requires a in d.regions && AwakeOk(d, d.regions[a], al) && Positive(al.chunks)
    requires |unmapped| == |al.chunks| && |released| == |al.cells| && AllOk(unmapped) && AllOk(released)
    ensures d.regions[a].maps - Unmapped(al.chunks, unmapped) == map[]
    ensures forall h :: h in Released(al.cells, released) <==> h in al.cells
  {
    UnmapUndoesMap(map[], al.chunks, al.cells, |al.chunks|, unmapped);
    forall h: nat ensures h in Released(al.cells, released) <==> h in al.cells {
      ReleasedIs(al.cells, released, h);
      if h in al.cells {
        var i: nat :| i < |al.cells| && al.cells[i] == h;
        assert OkAt(released, i);
        assert Frees(al.cells, released, i, h);
      }
    }
  }

  /** The entry at `a` is still to be done, or done. */
  ghost predicate HasWoken(reg: Registry, memory: Memory, reg': Registry, memory': Memory, tags: Tags, todo: set<nat>, a: nat)
    requires a in reg && a in reg'
  {
    var was, now := SlotOf(reg[a], memory, a), SlotOf(reg'[a], memory', a);
    now == if a in todo then was else Woken(was, tags)
  }

  ghost predicate AllWoken(reg: Registry, memory: Memory, reg': Registry, memory': Memory, tags: Tags, todo: set<nat>) {
    && reg'.Keys == reg.Keys && todo <= reg.Keys
    && forall a: nat {:trigger HasWoken(reg, memory, reg', memory', tags, todo, a)} :: a in reg ==> HasWoken(reg, memory, reg', memory', tags, todo, a)
  }

  /** The entry at `a` was asleep and its tag is selected. */
  ghost predicate IsWoken(reg: Registry, tags: Tags, a: nat) { a in reg && reg[a].asleep && Selects(tags, reg[a].tag) }

  /** The entries to be woken, but for those of `todo`, each once. */
  ghost predicate AreWoken(reg: Registry, tags: Tags, todo: set<nat>, woken: seq<nat>) {
    Distinct(woken) && forall a :: a in woken <==> a !in todo && IsWoken(reg, tags, a)
  }

  /** The chunks of the entries at `order`, one entry after the other. */
  ghost function AllChunks(reg: Registry, order: seq<nat>): seq<nat>
    requires forall a :: a in order ==> a in reg
  {
    if order == [] then [] else AllChunks(reg, order[..|order| - 1]) + reg[order[|order| - 1]].chunks
  }

  lemma OneMoreWoken(reg: Registry, tags: Tags, todo: set<nat>, woken: seq<nat>, a: nat) returns (woken': seq<nat>)
    requires AreWoken(reg, tags, todo, woken) && a in todo
    ensures AreWoken(reg, tags, todo - {a}, woken')
    ensures AllChunks(reg, woken') == AllChunks(reg, woken) + if IsWoken(reg, tags, a) then reg[a].chunks else []
  {
    woken' := woken;
    if IsWoken(reg, tags, a) {
      woken' := woken + [a];
      assert woken'[..|woken|] == woken;
      forall i: nat, j: nat | i < j < |woken'| ensures Differ(woken', i, j) {
        assert j < |woken| ==> Differ(woken, i, j);
        assert woken[i] in woken;
      }
    }
  }

  lemma OthersLookTheSame(d: Device, next: nat, reg: Registry, was: Memory, now: Memory, a: nat)
    requires Inv(d, next, was, reg) && SameExcept(was, now, a)
    ensures forall x :: x in reg && x != a ==> SlotOf(reg[x], now, x) == SlotOf(reg[x], was, x)
  {
    forall x | x in reg && x != a ensures SlotOf(reg[x], now, x) == SlotOf(reg[x], was, x) {
      assert AllocationOk(d, was, reg, x);
    }
  }

  lemma NoneWoken(reg: Registry, memory: Memory, tags: Tags)
    ensures AllWoken(reg, memory, reg, memory, tags, reg.Keys)
  {
  }

  lemma WokenOneMore(reg: Registry, memory: Memory, before: Registry, was: Memory, after: Registry, now: Memory, tags: Tags, todo: set<nat>, a: nat)
    requires AllWoken(reg, memory, before, was, tags, todo) && a in todo && a in after && after == before[a := after[a]]
    requires SlotOf(after[a], now, a) == Woken(SlotOf(before[a], was, a), tags)
    requires forall x :: x in before && x != a ==> SlotOf(before[x], now, x) == SlotOf(before[x], was, x)
    ensures AllWoken(reg, memory, after, now, tags, todo - {a})
  {
    assert after.Keys == before.Keys;
    forall x: nat | x in reg ensures HasWoken(reg, memory, after, now, tags, todo - {a}, x) {
      assert HasWoken(reg, memory, before, was, tags, todo, x);
    }
  }

  lemma StillAsleep(reg: Registry, memory: Memory, same: Registry, was: Memory, now: Memory, tags: Tags, todo: set<nat>, a: nat)
    requires AllWoken(reg, memory, same, was, tags, todo) && a in todo && a in same && same[a].asleep
    requires forall x :: x in same && x != a ==> SlotOf(same[x], now, x) == SlotOf(same[x], was, x)
    ensures AllWoken(reg, memory, same, now, tags, todo)
  {
    forall x: nat | x in reg ensures HasWoken(reg, memory, same, now, tags, todo, x) {
      assert HasWoken(reg, memory, same, was, tags, todo, x);
    }
  }

  /** The sizes of a request stay within 64 bits when they are rounded up and counted. */
  ghost predicate NoWrap(size: nat, g: nat, s: Setting) {
    && 0 < g < WORD && size + g - 1 < WORD && ChunkSetting(s) + g - 1 < WORD
    && AlignUp(size, g) + AlignUp(ChunkSetting(s), g) - 1 < WORD
  }

  datatype Operation = Allocate(size: nat, tag: Tag) | GiveUp(ptr: nat, size: nat) | GoToSleep(offload: set<Tag>) | Awaken(tags: Tags)

  ghost predicate Admissible(op: Operation, g: nat, s: Setting) { op.Allocate? ==> NoWrap(op.size, g, s) }

  /** The operation frees an allocation with another size than the rounded one. */
  ghost predicate WrongSize(reg: Registry, op: Operation) { op.GiveUp? && op.ptr in reg && op.size != reg[op.ptr].size }

  /** The entry at `a` is still there, as large as it was, in the same chunks and with its tag. */
  ghost predicate StillThere(reg: Registry, reg': Registry, a: nat)
    requires a in reg
  { a in reg' && reg'[a].size == reg[a].size && reg'[a].chunks == reg[a].chunks && reg'[a].tag == reg[a].tag }

  /** Every entry that the operation does not free is still there. */
  ghost predicate Keeps(reg: Registry, reg': Registry, op: Operation) {
    forall a: nat {:trigger StillThere(reg, reg', a)} :: a in reg && !(op.GiveUp? && op.ptr == a) ==> StillThere(reg, reg', a)
  }

  ghost predicate FreesAt(ops: seq<Operation>, i: nat, a: nat)
    requires i < |ops|
  { ops[i].GiveUp? && ops[i].ptr == a }

  ghost predicate FreedBy(ops: seq<Operation>, a: nat) { exists i: nat :: i < |ops| && FreesAt(ops, i, a) }

  /** Every entry that no operation frees is still there. */
  ghost predicate KeepsThrough(reg: Registry, reg': Registry, ops: seq<Operation>) {
    forall a: nat {:trigger StillThere(reg, reg', a)} :: a in reg && !FreedBy(ops, a) ==> StillThere(reg, reg', a)
  }
}
