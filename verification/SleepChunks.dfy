/** The sizes in which the allocator asks for memory, read off the calls that it makes. */
module SleepChunks {
  import opened Chunking
  import opened DeviceMemory
  import opened SleepAllocator

  /** The sizes of the handles that were asked for, in order. */
  ghost function CreateSizes(ev: seq<Event>): seq<nat> {
    if ev == [] then [] else CreateSizes(ev[..|ev| - 1]) + SizeOf(ev[|ev| - 1])
  }

  ghost function SizeOf(e: Event): seq<nat> { if e.call.Create? then [e.call.size] else [] }

  lemma {:induction false} SizesConcatenate(a: seq<Event>, b: seq<Event>)
    ensures CreateSizes(a + b) == CreateSizes(a) + CreateSizes(b)
  {
    if b == [] {
      assert a + b == a;
    } else {
      var n := |b| - 1;
      assert (a + b)[..|a + b| - 1] == a + b[..n];
      SizesConcatenate(a, b[..n]);
      Regroup(CreateSizes(a), CreateSizes(b[..n]), SizeOf(b[n]));
    }
  }

  lemma Regroup(a: seq<nat>, b: seq<nat>, c: seq<nat>)
    ensures a + b + c == a + (b + c)
  {
  }

  ghost predicate Creating(calls: seq<Call>, i: nat)
    requires i < |calls|
  { calls[i].Create? }

  ghost predicate CreatesNothing(calls: seq<Call>) { forall i: nat {:trigger Creating(calls, i)} :: i < |calls| ==> !Creating(calls, i) }

  lemma MakesFewer(ev: seq<Event>, calls: seq<Call>)
    requires Makes(ev, calls) && ev != []
    ensures Makes(ev[..|ev| - 1], calls) && ev[|ev| - 1].call == calls[|ev| - 1]
  {
    var n := |ev| - 1;
    assert CallAt(ev, calls, n);
    forall i: nat | i < n ensures CallAt(ev[..n], calls, i) { assert CallAt(ev, calls, i); }
  }

  lemma {:induction false} NoSizes(ev: seq<Event>, calls: seq<Call>)
    requires Makes(ev, calls) && CreatesNothing(calls)
    ensures CreateSizes(ev) == []
  {
    if ev != [] {
      MakesFewer(ev, calls);
      assert !Creating(calls, |ev| - 1);
      NoSizes(ev[..|ev| - 1], calls);
    }
  }

  lemma {:induction false} SizesOfCreates(ev: seq<Event>, c: seq<nat>)
    requires Makes(ev, Creates(c))
    ensures |ev| <= |c| && CreateSizes(ev) == c[..|ev|]
  {
    if ev != [] {
      MakesFewer(ev, Creates(c));
      SizesOfCreates(ev[..|ev| - 1], c);
    }
  }

  lemma OneSize(ev: seq<Event>)
    requires |ev| == 1
    ensures CreateSizes(ev) == SizeOf(ev[0])
  {
    assert ev[..0] == [];
  }

  lemma SizesOfFinish(ev: seq<Event>, base: nat, size: nat, spoiled: bool)
    requires IsFinish(ev, base, size, spoiled)
    ensures CreateSizes(ev) == []
  {
    OneSize([ev[0]]);
    if |ev| == 2 {
      OneSize([ev[1]]);
      SizesConcatenate([ev[0]], [ev[1]]);
      assert ev == [ev[0]] + [ev[1]];
    } else {
      assert ev == [ev[0]];
    }
  }

  lemma SizesOfClosing(t: Attempt, base: nat, size: nat, c: seq<nat>, first: nat)
    requires WellShaped(t, base, size, c, first)
    ensures CreateSizes(Closing(t)) == []
  {
    if t.maps != [] { NoSizes(t.maps, Maps(base, c, From(first, |c|))); }
    if t.unmaps != [] { NoSizes(t.unmaps, Unmaps(base, c, |t.maps| - 1)); }
    if t.releases != [] { NoSizes(t.releases, Releases(From(first, |c|))); }
    if t.finish != [] { SizesOfFinish(t.finish, base, size, Spoiled(t)); }
    SizesConcatenate(t.maps, t.unmaps);
    SizesConcatenate(t.maps + t.unmaps, t.releases);
    SizesConcatenate(t.maps + t.unmaps + t.releases, t.finish);
  }

  lemma OnlyCreates(t: Attempt, base: nat, size: nat, c: seq<nat>, first: nat)
    requires WellShaped(t, base, size, c, first)
    ensures CreateSizes(Flat(t)) == CreateSizes(t.creates)
  {
    OneSize(t.context);
    if t.uncreates != [] { NoSizes(t.uncreates, Releases(From(first, |t.creates| - 1))); }
    SizesOfClosing(t, base, size, c, first);
    FlatParts(t);
    SizesOfFour(t.context, t.creates, t.uncreates, Closing(t));
  }

  lemma SizesOfFour(a: seq<Event>, b: seq<Event>, c: seq<Event>, d: seq<Event>)
    requires CreateSizes(a) == CreateSizes(c) == CreateSizes(d) == []
    ensures CreateSizes(a + b + c + d) == CreateSizes(b)
  {
    SizesConcatenate(a, b);
    SizesConcatenate(a + b, c);
    SizesConcatenate(a + b + c, d);
    assert [] + CreateSizes(b) == CreateSizes(b);
  }

  /** create_and_map asks for its chunks in order, as far as it gets; if all calls succeed, for all of them. */
  lemma SizesOfAttempt(t: Attempt, base: nat, size: nat, c: seq<nat>, first: nat)
    requires WellShaped(t, base, size, c, first)
    ensures |t.creates| <= |c| && CreateSizes(Flat(t)) == c[..|t.creates|]
    ensures t.standing == 0 && AllOk(Flat(t)) ==> CreateSizes(Flat(t)) == c
  {
    SizesOfCreates(t.creates, c);
    OnlyCreates(t, base, size, c, first);
    if t.standing == 0 && AllOk(Flat(t)) {
      CompleteIsAttached(t, base, size, c, first);
    }
  }
}
