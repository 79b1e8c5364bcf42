/**
 * The state that the driver keeps for virtual memory management: reserved address ranges, physical memory handles, and
 * which handle is mapped where. The allocator of csrc/cumem_allocator.cpp is a client of it.
 *
 * A place in a reservation is given by the address of the reservation and an offset into it.
 */
module DeviceMemory {
  import opened Chunking

  datatype Mapping = Mapping(size: nat, handle: nat)

  datatype Region = Region(size: nat, maps: map<nat, Mapping>)

  /** `regions` is keyed by address and `handles` gives the size of every live handle. */
  datatype Device = Device(regions: map<nat, Region>, handles: map<nat, nat>)

  // ---- What the driver accepts ----

  predicate Apart(lo: nat, size: nat, other: nat, otherSize: nat) { lo + size <= other || other + otherSize <= lo }

  /** The range is not reserved yet. */
  predicate IsFree(d: Device, addr: nat, size: nat) {
    addr !in d.regions && forall b :: b in d.regions ==> Apart(addr, size, b, d.regions[b].size)
  }

  /** A live handle of that size can be mapped: the place is inside the reservation and nothing is mapped there. */
  predicate CanMap(d: Device, base: nat, off: nat, size: nat, h: nat) {
    && base in d.regions && h in d.handles && d.handles[h] == size
    && off + size <= d.regions[base].size && off !in d.regions[base].maps
    && forall k :: k in d.regions[base].maps ==> Apart(off, size, k, d.regions[base].maps[k].size)
  }

  predicate CanUnmap(d: Device, base: nat, off: nat, size: nat) {
    base in d.regions && off in d.regions[base].maps && d.regions[base].maps[off].size == size
  }

  /** A reservation is freed only with the size it was made with. */
  predicate CanFree(d: Device, addr: nat, size: nat) { addr in d.regions && d.regions[addr].size == size }

  /** Some mapping holds the byte at offset `x`. */
  predicate Covered(maps: map<nat, Mapping>, x: nat) { exists off :: off in maps && off <= x < off + maps[off].size }

  /** Every byte of the range is mapped. */
  predicate Backed(d: Device, base: nat, size: nat) {
    base in d.regions && forall x: nat :: x < size ==> Covered(d.regions[base].maps, x)
  }

  // ---- The exchange with the driver ----

  datatype Call =
    | Context
    | Granularity
    | Create(size: nat)
    | Release(handle: nat)
    | Map(base: nat, off: nat, size: nat, handle: nat)
    | Unmap(base: nat, off: nat, size: nat)
    | Reserve(size: nat, alignment: nat, hint: nat)
    | FreeRange(base: nat, size: nat)
    | SetAccess(base: nat, size: nat)
    | Zero(base: nat, size: nat)
    | CopyOut(base: nat, size: nat)
    | CopyIn(base: nat, size: nat)

  /** The driver must refuse any other call; these it may accept or refuse. */
  predicate Accepts(d: Device, call: Call) {
    match call
    case Context => true
    case Granularity => true
    case Create(_) => true
    case Release(h) => h in d.handles
    case Map(base, off, size, h) => CanMap(d, base, off, size, h)
    case Unmap(base, off, size) => CanUnmap(d, base, off, size)
    case Reserve(_, _, _) => true
    case FreeRange(base, size) => CanFree(d, base, size)
    case SetAccess(base, size) => Backed(d, base, size)
    case Zero(base, size) => Backed(d, base, size)
    case CopyOut(base, size) => Backed(d, base, size)
    case CopyIn(base, size) => Backed(d, base, size)
  }

  /** A call with its answer: the status, the handle or address returned, and whether the call was acceptable. */
  datatype Event = Event(call: Call, status: int, result: nat, legal: bool)

  ghost predicate OkAt(ev: seq<Event>, i: nat)
    requires i < |ev|
  { ev[i].status == 0 }

  ghost predicate AllOk(ev: seq<Event>) { forall i: nat {:trigger OkAt(ev, i)} :: i < |ev| ==> OkAt(ev, i) }

  ghost predicate LegalAt(ev: seq<Event>, i: nat)
    requires i < |ev|
  { ev[i].legal }

  ghost predicate AllLegal(ev: seq<Event>) { forall i: nat {:trigger LegalAt(ev, i)} :: i < |ev| ==> LegalAt(ev, i) }

  /** The call succeeded; a reservation with a hint was made there. */
  ghost predicate SucceededAt(ev: seq<Event>, i: nat)
    requires i < |ev|
  { ev[i].status == 0 && (ev[i].call.Reserve? && ev[i].call.hint != 0 ==> ev[i].result == ev[i].call.hint) }

  ghost predicate AllSucceed(ev: seq<Event>) { forall i: nat {:trigger SucceededAt(ev, i)} :: i < |ev| ==> SucceededAt(ev, i) }

  lemma Concatenated(a: seq<Event>, b: seq<Event>)
    ensures AllOk(a + b) <==> AllOk(a) && AllOk(b)
    ensures AllLegal(a + b) <==> AllLegal(a) && AllLegal(b)
    ensures AllSucceed(a + b) <==> AllSucceed(a) && AllSucceed(b)
  {
    var ab := a + b;
    forall i: nat | i < |a| ensures OkAt(ab, i) == OkAt(a, i) && LegalAt(ab, i) == LegalAt(a, i) && SucceededAt(ab, i) == SucceededAt(a, i) { }
    forall i: nat | i < |b| ensures OkAt(ab, |a| + i) == OkAt(b, i) && LegalAt(ab, |a| + i) == LegalAt(b, i) && SucceededAt(ab, |a| + i) == SucceededAt(b, i) { }
    forall i: nat | |a| <= i < |ab| ensures OkAt(ab, i) == OkAt(b, i - |a|) && LegalAt(ab, i) == LegalAt(b, i - |a|) && SucceededAt(ab, i) == SucceededAt(b, i - |a|) { }
  }

  ghost predicate CallAt(ev: seq<Event>, calls: seq<Call>, i: nat)
    requires i < |ev| && i < |calls|
  { ev[i].call == calls[i] }

  /** The calls are the first of `calls`, in that order. */
  ghost predicate Makes(ev: seq<Event>, calls: seq<Call>) {
    |ev| <= |calls| && forall i: nat {:trigger CallAt(ev, calls, i)} :: i < |ev| ==> CallAt(ev, calls, i)
  }

  /** The calls are exactly `calls`, in that order. */
  ghost predicate MakesAll(ev: seq<Event>, calls: seq<Call>) { |ev| == |calls| && Makes(ev, calls) }

  /** One more call. */
  lemma Appended(ev: seq<Event>, e: Event, calls: seq<Call>)
    requires Makes(ev, calls) && |ev| < |calls| && e.call == calls[|ev|]
    ensures Makes(ev + [e], calls)
    ensures AllOk(ev + [e]) <==> AllOk(ev) && e.status == 0
    ensures AllLegal(ev + [e]) <==> AllLegal(ev) && e.legal
  {
    var all := ev + [e];
    forall i: nat | i < |all| ensures CallAt(all, calls, i) { assert i < |ev| ==> CallAt(ev, calls, i); }
    Concatenated(ev, [e]);
    assert OkAt([e], 0) == (e.status == 0) && LegalAt([e], 0) == e.legal;
  }

  /** The last call failed. */
  ghost predicate Broken(ev: seq<Event>) { ev != [] && ev[|ev| - 1].status != 0 }

  function WithMaps(d: Device, base: nat, maps: map<nat, Mapping>): Device
    requires base in d.regions
  { d.(regions := d.regions[base := d.regions[base].(maps := maps)]) }

  lemma WithMapsLast(d: Device, base: nat, a: map<nat, Mapping>, b: map<nat, Mapping>)
    requires base in d.regions
    ensures WithMaps(WithMaps(d, base, a), base, b) == WithMaps(d, base, b)
    ensures WithMaps(d, base, d.regions[base].maps) == d
  {
    var r := d.regions[base];
    assert d.regions[base := r.(maps := a)][base := r.(maps := b)] == d.regions[base := r.(maps := b)];
    assert d.regions[base := r] == d.regions && r.(maps := r.maps) == r;
  }

  // ---- Many chunks at once ----

  /** The handles created for the first `n` chunks, numbered from `first`. */
  function Created(handles: map<nat, nat>, c: seq<nat>, first: nat, n: nat): map<nat, nat>
    requires n <= |c|
  { if n == 0 then handles else Created(handles, c, first, n - 1)[first + n - 1 := c[n - 1]] }

  /** The first `n` chunks, mapped one after the other. */
  function Placed(maps: map<nat, Mapping>, c: seq<nat>, hs: seq<nat>, n: nat): map<nat, Mapping>
    requires n <= |c| && n <= |hs|
  { if n == 0 then maps else Placed(maps, c, hs, n - 1)[Sum(c, n - 1) := Mapping(c[n - 1], hs[n - 1])] }

  /** The handles from `first` on. */
  function From(first: nat, n: nat): (hs: seq<nat>)
    ensures |hs| == n && forall i: nat :: i < n ==> hs[i] == first + i
  { if n == 0 then [] else From(first, n - 1) + [first + n - 1] }

  /** A handle for every chunk. */
  function Creates(c: seq<nat>): seq<Call> { seq(|c|, i requires 0 <= i < |c| => Create(c[i])) }

  /** Every chunk, one after the other from the start of the range. */
  function Maps(base: nat, c: seq<nat>, hs: seq<nat>): seq<Call>
    requires |hs| == |c|
  { seq(|c|, i requires 0 <= i < |c| => Map(base, Sum(c, i), c[i], hs[i])) }

  /** Each of the first `n` chunks, at the place where it was mapped. */
  function Unmaps(base: nat, c: seq<nat>, n: nat): seq<Call>
    requires n <= |c|
  { seq(n, i requires 0 <= i < n => Unmap(base, Sum(c, i), c[i])) }

  function Releases(hs: seq<nat>): seq<Call> { seq(|hs|, i requires 0 <= i < |hs| => Release(hs[i])) }

  /** The offsets at which a successful call unmapped something. */
  function Unmapped(c: seq<nat>, ev: seq<Event>): set<nat>
    requires |ev| <= |c|
  {
    if ev == [] then {}
    else
      var n := |ev| - 1;
      Unmapped(c, ev[..n]) + (if ev[n].status == 0 then {Sum(c, n)} else {})
  }

  /** The handles that a successful call released. */
  function Released(hs: seq<nat>, ev: seq<Event>): set<nat>
    requires |ev| <= |hs|
  {
    if ev == [] then {}
    else
      var n := |ev| - 1;
      Released(hs, ev[..n]) + (if ev[n].status == 0 then {hs[n]} else {})
  }

  /** The first status that is not zero, or zero. */
  function FirstError(ev: seq<Event>): (e: int)
    ensures e == 0 <==> AllOk(ev)
  {
    if ev == [] then 0
    else
      var n := |ev| - 1;
      var e := FirstError(ev[..n]);
      assert ev == ev[..n] + [ev[n]];
      Concatenated(ev[..n], [ev[n]]);
      assert OkAt([ev[n]], 0) == (ev[n].status == 0);
      if e != 0 then e else ev[n].status
  }

  lemma FirstErrorOf(a: seq<Event>, e: Event)
    ensures FirstError(a + [e]) == if FirstError(a) != 0 then FirstError(a) else e.status
  {
    assert (a + [e])[..|a|] == a;
  }

  lemma {:induction false} FirstErrorOfBoth(a: seq<Event>, b: seq<Event>)
    ensures FirstError(a + b) == if FirstError(a) != 0 then FirstError(a) else FirstError(b)
  {
    if b == [] {
      assert a + b == a;
    } else {
      var n := |b| - 1;
      FirstErrorOfBoth(a, b[..n]);
      assert a + b == (a + b[..n]) + [b[n]];
      FirstErrorOf(a + b[..n], b[n]);
    }
  }

  // ---- Handles are distinct ----

  ghost predicate Distinct(s: seq<nat>) {
    forall i: nat, j: nat {:trigger Differ(s, i, j)} :: i < j < |s| ==> Differ(s, i, j)
  }

  ghost predicate Differ(s: seq<nat>, i: nat, j: nat)
    requires i < |s| && j < |s|
  { s[i] != s[j] }

  lemma FromIsDistinct(first: nat, n: nat)
    ensures Distinct(From(first, n))
  {
    forall i: nat, j: nat | i < j < n ensures Differ(From(first, n), i, j) { }
  }

  // ---- Placing and removing ----

  lemma {:induction false} CreatedIs(handles: map<nat, nat>, c: seq<nat>, first: nat, n: nat)
    requires n <= |c|
    ensures forall h :: h in Created(handles, c, first, n) <==> h in handles || first <= h < first + n
    ensures forall h :: h in handles && !(first <= h < first + n) ==> Created(handles, c, first, n)[h] == handles[h]
    ensures forall i: nat {:trigger c[i]} :: i < n ==> Created(handles, c, first, n)[first + i] == c[i]
  {
    if n > 0 { CreatedIs(handles, c, first, n - 1); }
  }

  /** Chunk `i` begins at `off`. */
  ghost predicate BeginsAt(c: seq<nat>, n: nat, i: nat, off: nat)
    requires n <= |c|
  { i < n && Sum(c, i) == off }

  /** No chunk is empty, so that no two begin at the same offset. */
  ghost predicate Positive(c: seq<nat>) { forall i: nat :: i < |c| ==> c[i] > 0 }

  lemma {:induction false} OffsetsGrow(c: seq<nat>, i: nat, j: nat)
    requires i < j <= |c| && Positive(c)
    ensures Sum(c, i) < Sum(c, j)
  {
    if i + 1 < j { OffsetsGrow(c, i, j - 1); }
  }

  /** Chunk `i` is mapped at its place with its own handle. */
  ghost predicate Sits(maps: map<nat, Mapping>, c: seq<nat>, hs: seq<nat>, i: nat)
    requires i < |c| && i < |hs|
  { Sum(c, i) in maps && maps[Sum(c, i)] == Mapping(c[i], hs[i]) }

  lemma {:induction false} PlacedIs(maps: map<nat, Mapping>, c: seq<nat>, hs: seq<nat>, n: nat)
    requires n <= |c| && n <= |hs| && Positive(c)
    ensures forall i: nat {:trigger Sits(Placed(maps, c, hs, n), c, hs, i)} :: i < n ==> Sits(Placed(maps, c, hs, n), c, hs, i)
    ensures forall k :: k in Placed(maps, c, hs, n) ==> k in maps || exists i: nat :: BeginsAt(c, n, i, k)
    ensures forall k :: k in maps ==> k in Placed(maps, c, hs, n)
  {
    if n > 0 {
      var all, rest := Placed(maps, c, hs, n), Placed(maps, c, hs, n - 1);
      PlacedIs(maps, c, hs, n - 1);
      forall i: nat | i < n ensures Sits(all, c, hs, i) {
        if i < n - 1 {
          assert Sits(rest, c, hs, i);
          OffsetsGrow(c, i, n - 1);
        }
      }
      forall k | k in all ensures k in maps || exists i: nat :: BeginsAt(c, n, i, k) {
        if k == Sum(c, n - 1) {
          assert BeginsAt(c, n, n - 1, k);
        } else if k !in maps {
          var i: nat :| BeginsAt(c, n - 1, i, k);
          assert BeginsAt(c, n, i, k);
        }
      }
    }
  }

  /** Call `i` released handle `h`. */
  ghost predicate Frees(hs: seq<nat>, ev: seq<Event>, i: nat, h: nat)
    requires |ev| <= |hs|
  { i < |ev| && OkAt(ev, i) && hs[i] == h }

  lemma {:induction false} ReleasedIs(hs: seq<nat>, ev: seq<Event>, h: nat)
    requires |ev| <= |hs|
    ensures h in Released(hs, ev) <==> exists i: nat :: Frees(hs, ev, i, h)
  {
    if ev != [] {
      var n := |ev| - 1;
      ReleasedIs(hs, ev[..n], h);
      if i: nat :| Frees(hs, ev[..n], i, h) { assert Frees(hs, ev, i, h); }
      if ev[n].status == 0 && hs[n] == h { assert Frees(hs, ev, n, h); }
      if i: nat :| Frees(hs, ev, i, h) { assert i < n ==> Frees(hs, ev[..n], i, h); }
    }
  }

  /** Call `i` unmapped the chunk at `off`. */
  ghost predicate Removes(c: seq<nat>, ev: seq<Event>, i: nat, off: nat)
    requires |ev| <= |c|
  { i < |ev| && OkAt(ev, i) && Sum(c, i) == off }

  lemma {:induction false} UnmappedIs(c: seq<nat>, ev: seq<Event>, off: nat)
    requires |ev| <= |c|
    ensures off in Unmapped(c, ev) <==> exists i: nat :: Removes(c, ev, i, off)
  {
    if ev != [] {
      var n := |ev| - 1;
      UnmappedIs(c, ev[..n], off);
      if i: nat :| Removes(c, ev[..n], i, off) { assert Removes(c, ev, i, off); }
      if ev[n].status == 0 && Sum(c, n) == off { assert Removes(c, ev, n, off); }
      if i: nat :| Removes(c, ev, i, off) { assert i < n ==> Removes(c, ev[..n], i, off); }
    }
  }

  /** Releasing what was created restores the handles exactly when every release succeeds. */
  lemma ReleaseUndoesCreate(handles: map<nat, nat>, c: seq<nat>, first: nat, n: nat, ev: seq<Event>)
    requires n <= |c| && |ev| == n && forall h :: h in handles ==> h < first
    ensures Created(handles, c, first, n) - Released(From(first, n), ev) == handles <==> AllOk(ev)
  {
    var made, hs := Created(handles, c, first, n), From(first, n);
    var gone := Released(hs, ev);
    CreatedIs(handles, c, first, n);
    forall h: nat ensures h in gone ==> first <= h < first + n && ev[h - first].status == 0 {
      ReleasedIs(hs, ev, h);
      if i: nat :| Frees(hs, ev, i, h) { assert h == first + i; }
    }
    if AllOk(ev) {
      forall h | first <= h < first + n ensures h in gone {
        assert Frees(hs, ev, h - first, h);
        ReleasedIs(hs, ev, h);
      }
      assert made - gone == handles;
    } else {
      var i: nat :| i < |ev| && !OkAt(ev, i);
      assert first + i in made - gone;
    }
  }

  ghost predicate Vacant(maps: map<nat, Mapping>, c: seq<nat>, i: nat)
    requires i < |c|
  { Sum(c, i) !in maps }

  /** Nothing is mapped where the first `n` chunks begin. */
  ghost predicate NothingThere(maps: map<nat, Mapping>, c: seq<nat>, n: nat)
    requires n <= |c|
  { forall i: nat {:trigger Vacant(maps, c, i)} :: i < n ==> Vacant(maps, c, i) }

  /** Unmapping what was mapped restores the mappings exactly when every call succeeds. */
  lemma UnmapUndoesMap(maps: map<nat, Mapping>, c: seq<nat>, hs: seq<nat>, n: nat, ev: seq<Event>)
    requires n <= |c| && n <= |hs| && |ev| == n && Positive(c)
    requires NothingThere(maps, c, n)
    ensures Placed(maps, c, hs, n) - Unmapped(c, ev) == maps <==> AllOk(ev)
  {
    var all, gone := Placed(maps, c, hs, n), Unmapped(c, ev);
    PlacedIs(maps, c, hs, n);
    PlacedKeeps(maps, c, hs, n);
    forall k | k in maps ensures k !in gone {
      UnmappedIs(c, ev, k);
      forall i: nat | i < n ensures !Removes(c, ev, i, k) { assert Vacant(maps, c, i); }
    }
    if AllOk(ev) {
      forall k | k in all && k !in maps ensures k in gone {
        var i: nat :| BeginsAt(c, n, i, k);
        assert Removes(c, ev, i, k);
        UnmappedIs(c, ev, k);
      }
      assert all - gone == maps;
    } else {
      var i: nat :| i < |ev| && !OkAt(ev, i);
      assert Sits(all, c, hs, i) && Vacant(maps, c, i);
      UnmappedIs(c, ev, Sum(c, i));
      if j: nat :| Removes(c, ev, j, Sum(c, i)) {
        if i < j { OffsetsGrow(c, i, j); }
        if j < i { OffsetsGrow(c, j, i); }
      }
      assert Sum(c, i) in all - gone;
    }
  }

  lemma {:induction false} PlacedKeeps(maps: map<nat, Mapping>, c: seq<nat>, hs: seq<nat>, n: nat)
    requires n <= |c| && n <= |hs|
    requires NothingThere(maps, c, n)
    ensures forall k :: k in maps ==> k in Placed(maps, c, hs, n) && Placed(maps, c, hs, n)[k] == maps[k]
  {
    if n > 0 {
      PlacedKeeps(maps, c, hs, n - 1);
      assert Vacant(maps, c, n - 1);
    }
  }

  /** A handle that has not had its turn is still there. */
  lemma NotReleasedYet(hs: seq<nat>, ev: seq<Event>)
    requires |ev| < |hs| && Distinct(hs)
    ensures hs[|ev|] !in Released(hs, ev)
  {
    var n := |ev|;
    ReleasedIs(hs, ev, hs[n]);
    forall i: nat | i < n ensures !Frees(hs, ev, i, hs[n]) { assert Differ(hs, i, n); }
  }

  /** A chunk that has not had its turn is still there. */
  lemma NotUnmappedYet(c: seq<nat>, ev: seq<Event>)
    requires |ev| < |c| && Positive(c)
    ensures Sum(c, |ev|) !in Unmapped(c, ev)
  {
    var n := |ev|;
    UnmappedIs(c, ev, Sum(c, n));
    forall i: nat | i < n ensures !Removes(c, ev, i, Sum(c, n)) { OffsetsGrow(c, i, n); }
  }

  /** Chunk `i` is mapped at its place. */
  ghost predicate Seat(maps: map<nat, Mapping>, c: seq<nat>, i: nat)
    requires i < |c|
  { Sum(c, i) in maps && maps[Sum(c, i)].size == c[i] }

  ghost predicate Seated(maps: map<nat, Mapping>, c: seq<nat>, n: nat)
    requires n <= |c|
  { forall i: nat {:trigger Seat(maps, c, i)} :: i < n ==> Seat(maps, c, i) }

  lemma PlacedAreSeated(maps: map<nat, Mapping>, c: seq<nat>, hs: seq<nat>, n: nat)
    requires n <= |c| && n <= |hs| && Positive(c)
    ensures Seated(Placed(maps, c, hs, n), c, n)
  {
    PlacedIs(maps, c, hs, n);
    forall i: nat | i < n ensures Seat(Placed(maps, c, hs, n), c, i) { assert Sits(Placed(maps, c, hs, n), c, hs, i); }
  }

  /** Into an empty range the next chunk fits behind those already mapped. */
  lemma NextFits(d: Device, base: nat, c: seq<nat>, hs: seq<nat>, n: nat)
    requires base in d.regions && n < |c| == |hs| && Positive(c) && Sum(c, |c|) <= d.regions[base].size
    requires d.regions[base].maps == Placed(map[], c, hs, n) && hs[n] in d.handles && d.handles[hs[n]] == c[n]
    ensures CanMap(d, base, Sum(c, n), c[n], hs[n])
  {
    var maps := d.regions[base].maps;
    PlacedIs(map[], c, hs, n);
    SumIsMonotone(c, n + 1, |c|);
    forall k | k in maps ensures k < Sum(c, n) && Apart(Sum(c, n), c[n], k, maps[k].size) {
      var i: nat :| BeginsAt(c, n, i, k);
      assert Sits(maps, c, hs, i);
      SumIsMonotone(c, i + 1, n);
    }
  }

  /** When all chunks are mapped the whole range is. */
  lemma PlacedIsBacked(d: Device, base: nat, c: seq<nat>, hs: seq<nat>)
    requires base in d.regions && |c| == |hs| && Positive(c) && d.regions[base].maps == Placed(map[], c, hs, |c|)
    ensures Backed(d, base, Sum(c, |c|))
  {
    var maps := d.regions[base].maps;
    PlacedIs(map[], c, hs, |c|);
    forall x: nat | x < Sum(c, |c|) ensures Covered(maps, x) {
      var i := ByteHasOneChunk(c, |c|, x);
      assert Sits(maps, c, hs, i);
    }
  }
}
