/**
 The build-time sweep: start and stop events in time order share every slice of time
 equally among the tasks running in it.  Times are exact reals.
 */
module BuildTime {

  class Target {
    const start: real
    const end: real
    var targets: seq<string>
    var weightedDuration: real

    constructor (start: real, end: real)
      ensures this.start == start && this.end == end && targets == [] && weightedDuration == 0.0
    {
      this.start, this.end := start, end;
      targets, weightedDuration := [], 0.0;
    }

    function Duration(): real { end - start }
  }

  datatype Event = Event(time: real, stop: bool, target: Target)

  datatype Summary =
    | Swept(earliest: real, latest: real, totalCpuTime: real, weightedTotal: real)
    | NoEvents      // indexing the first event of an empty list
    | MissingStart  // a stop event whose task is not running

  // ------------------------------------------------------------ events in order

  function StartOf(x: Target): Event { Event(x.start, false, x) }
  function StopOf(x: Target): Event { Event(x.end, true, x) }

  /** Order by time, then starts before stops, as the pair (time, "start" or "stop") compares. */
  predicate Before(a: Event, b: Event) {
    a.time < b.time || (a.time == b.time && (!a.stop || b.stop))
  }

  ghost predicate InOrder(ev: seq<Event>, i: nat, j: nat)
    requires i < |ev| && j < |ev|
  { Before(ev[i], ev[j]) }

  ghost predicate Ordered(ev: seq<Event>) {
    forall i: nat, j: nat {:trigger InOrder(ev, i, j)} :: i < j < |ev| ==> InOrder(ev, i, j)
  }

  ghost predicate Differ<T>(s: seq<T>, i: nat, j: nat)
    requires i < |s| && j < |s|
  { s[i] != s[j] }

  ghost predicate Distinct<T>(s: seq<T>) {
    forall i: nat, j: nat {:trigger Differ(s, i, j)} :: i < j < |s| ==> Differ(s, i, j)
  }

  ghost predicate HasEvents(ev: seq<Event>, x: Target) {
    StartOf(x) in ev && StopOf(x) in ev
  }

  /** Event `i` is the start or the stop of an entry. */
  ghost predicate Known(entries: seq<Target>, ev: seq<Event>, i: nat)
    requires i < |ev|
  {
    ev[i].target in entries && (ev[i] == StartOf(ev[i].target) || ev[i] == StopOf(ev[i].target))
  }

  /** `ev` lists the start and the stop of every entry, each once, and nothing else, in order. */
  ghost predicate Timeline(entries: seq<Target>, ev: seq<Event>) {
    && Ordered(ev) && Distinct(ev)
    && (forall x {:trigger HasEvents(ev, x)} :: x in entries ==> HasEvents(ev, x))
    && (forall i: nat {:trigger Known(entries, ev, i)} :: i < |ev| ==> Known(entries, ev, i))
  }

  lemma TimeOrder(ev: seq<Event>, i: nat, j: nat)
    requires Ordered(ev) && i <= j < |ev|
    ensures ev[i].time <= ev[j].time
  {
    assert i == j || InOrder(ev, i, j);
  }

  lemma SameIndex(ev: seq<Event>, i: nat, j: nat)
    requires Distinct(ev) && i < |ev| && j < |ev| && ev[i] == ev[j]
    ensures i == j
  {
    assert i < j ==> Differ(ev, i, j);
    assert j < i ==> Differ(ev, j, i);
  }

  /** Where the two events of an entry are. */
  lemma Locate(entries: seq<Target>, ev: seq<Event>, x: Target) returns (p: nat, q: nat)
    requires Timeline(entries, ev) && x in entries
    ensures p < |ev| && ev[p] == StartOf(x)
    ensures q < |ev| && ev[q] == StopOf(x)
    ensures p < q <==> x.start <= x.end
  {
    assert HasEvents(ev, x);
    p :| 0 <= p < |ev| && ev[p] == StartOf(x);
    q :| 0 <= q < |ev| && ev[q] == StopOf(x);
    assert p < q ==> InOrder(ev, p, q);
    assert q < p ==> InOrder(ev, q, p);
  }

  // ------------------------------------------------------------ slices of time

  /** Tasks running throughout the slice from `a` to `b`. */
  ghost function Active(entries: seq<Target>, a: real, b: real): set<Target> {
    set x | x in entries && x.start <= a && b <= x.end
  }

  /** An equal part of `elapsed` for each of `count` tasks. */
  function Each(elapsed: real, count: nat): real {
    if count == 0 then 0.0 else elapsed / count as real
  }

  /** What one running task gets of slice `j`. */
  ghost function Portion(entries: seq<Target>, ev: seq<Event>, j: nat): (r: real)
    requires j + 1 < |ev| && Ordered(ev)
    ensures r >= 0.0
  {
    var a, b := ev[j].time, ev[j + 1].time;
    TimeOrder(ev, j, j + 1);
    if a == b then 0.0 else Each(b - a, |Active(entries, a, b)|)
  }

  /** The portions of all slices. */
  ghost function Portions(entries: seq<Target>, ev: seq<Event>): (parts: seq<real>)
    requires |ev| > 0 && Ordered(ev)
    ensures Fair(entries, ev, parts)
  {
    var parts := seq(|ev| - 1, j requires 0 <= j < |ev| - 1 => Portion(entries, ev, j));
    assert forall j :: 0 <= j < |ev| - 1 ==> IsPortion(entries, ev, parts, j);
    parts
  }

  ghost predicate IsPortion(entries: seq<Target>, ev: seq<Event>, parts: seq<real>, j: nat)
    requires j + 1 < |ev| && |parts| == |ev| - 1 && Ordered(ev)
  {
    parts[j] == Portion(entries, ev, j)
  }

  /** `parts` divides every slice equally among the tasks active in it. */
  ghost predicate Fair(entries: seq<Target>, ev: seq<Event>, parts: seq<real>)
    requires Ordered(ev)
  {
    |ev| > 0 && |parts| == |ev| - 1 && forall j :: 0 <= j < |ev| - 1 ==> IsPortion(entries, ev, parts, j)
  }

  /** The share of `x` in the first `k` slices: its part of every slice it runs in. */
  ghost function Share(entries: seq<Target>, ev: seq<Event>, parts: seq<real>, x: Target, k: nat): real
    requires k <= |parts| && |ev| == |parts| + 1
  {
    if k == 0 then 0.0
    else Share(entries, ev, parts, x, k - 1) + (if x in Active(entries, ev[k - 1].time, ev[k].time) then parts[k - 1] else 0.0)
  }

  /** How long at least one task was running, over the first `k` slices. */
  ghost function Busy(entries: seq<Target>, ev: seq<Event>, k: nat): real
    requires k == 0 || k < |ev|
  {
    if k == 0 then 0.0
    else Busy(entries, ev, k - 1) +
         (if Active(entries, ev[k - 1].time, ev[k].time) == {} then 0.0 else ev[k].time - ev[k - 1].time)
  }

  ghost function SumShares(entries: seq<Target>, ev: seq<Event>, parts: seq<real>, n: nat, k: nat): real
    requires n <= |entries| && k <= |parts| && |ev| == |parts| + 1
  {
    if n == 0 then 0.0 else SumShares(entries, ev, parts, n - 1, k) + Share(entries, ev, parts, entries[n - 1], k)
  }

  // --------------------------------------------------------------- conservation

  /** Summing a constant over the members of a set that occur among distinct entries. */
  ghost function Tally(entries: seq<Target>, n: nat, members: set<Target>, c: real): real
    requires n <= |entries|
  {
    if n == 0 then 0.0 else Tally(entries, n - 1, members, c) + (if entries[n - 1] in members then c else 0.0)
  }

  ghost function Firsts(entries: seq<Target>, n: nat): set<Target>
    requires n <= |entries|
  { set i | 0 <= i < n :: entries[i] }

  /** `c` added up `n` times. */
  ghost function Repeated(n: nat, c: real): real {
    if n == 0 then 0.0 else Repeated(n - 1, c) + c
  }

  lemma {:induction false} RepeatedIsProduct(n: nat, c: real)
    ensures Repeated(n, c) == n as real * c
  {
    if n > 0 {
      RepeatedIsProduct(n - 1, c);
      assert n as real * c == (n - 1) as real * c + c;
    }
  }

  lemma {:induction false} TallyCounts(entries: seq<Target>, n: nat, members: set<Target>, c: real)
    requires n <= |entries| && Distinct(entries) && members <= Firsts(entries, n)
    ensures Tally(entries, n, members, c) == Repeated(|members|, c)
  {
    if n == 0 {
      assert members == {};
    } else {
      var x := entries[n - 1];
      var rest := members - {x};
      assert rest <= Firsts(entries, n - 1);
      forall i | 0 <= i < n - 1 ensures entries[i] != x { assert Differ(entries, i, n - 1); }
      TallyCounts(entries, n - 1, rest, c);
      TallyWithout(entries, n - 1, members, x, c);
      if x in members {
        assert |members| == |rest| + 1;
      } else {
        assert rest == members;
      }
    }
  }

  lemma {:induction false} TallyWithout(entries: seq<Target>, n: nat, members: set<Target>, x: Target, c: real)
    requires n <= |entries| && forall i :: 0 <= i < n ==> entries[i] != x
    ensures Tally(entries, n, members - {x}, c) == Tally(entries, n, members, c)
  {
    if n > 0 {
      TallyWithout(entries, n - 1, members, x, c);
    }
  }

  lemma {:induction false} SharesGrowByTally(entries: seq<Target>, ev: seq<Event>, parts: seq<real>, n: nat, k: nat)
    requires n <= |entries| && 0 < k <= |parts| && |ev| == |parts| + 1
    ensures SumShares(entries, ev, parts, n, k) == SumShares(entries, ev, parts, n, k - 1)
      + Tally(entries, n, Active(entries, ev[k - 1].time, ev[k].time), parts[k - 1])
  {
    if n > 0 {
      SharesGrowByTally(entries, ev, parts, n - 1, k);
    }
  }

  lemma PortionsFillSlice(entries: seq<Target>, ev: seq<Event>, j: nat)
    requires j + 1 < |ev| && Ordered(ev) && Distinct(entries)
    ensures Tally(entries, |entries|, Active(entries, ev[j].time, ev[j + 1].time), Portion(entries, ev, j))
      == if Active(entries, ev[j].time, ev[j + 1].time) == {} then 0.0 else ev[j + 1].time - ev[j].time
  {
    var members := Active(entries, ev[j].time, ev[j + 1].time);
    forall x | x in members ensures x in Firsts(entries, |entries|) {
      var i :| 0 <= i < |entries| && entries[i] == x;
    }
    TallyCounts(entries, |entries|, members, Portion(entries, ev, j));
    RepeatedIsProduct(|members|, Portion(entries, ev, j));
    if members != {} && ev[j].time != ev[j + 1].time {
      var n := |members| as real;
      assert n > 0.0;
      assert n * ((ev[j + 1].time - ev[j].time) / n) == ev[j + 1].time - ev[j].time;
    }
  }

  lemma {:induction false} SumSharesNone(entries: seq<Target>, ev: seq<Event>, parts: seq<real>, n: nat)
    requires n <= |entries| && |ev| == |parts| + 1
    ensures SumShares(entries, ev, parts, n, 0) == 0.0
  {
    if n > 0 {
      SumSharesNone(entries, ev, parts, n - 1);
    }
  }

  /** The shares of all tasks add up to the time at least one of them was running. */
  lemma {:induction false} SharesAreConserved(entries: seq<Target>, ev: seq<Event>, parts: seq<real>, k: nat)
    requires Ordered(ev) && Fair(entries, ev, parts) && k <= |parts| && Distinct(entries)
    ensures SumShares(entries, ev, parts, |entries|, k) == Busy(entries, ev, k)
  {
    if k == 0 {
      SumSharesNone(entries, ev, parts, |entries|);
    } else {
      SharesAreConserved(entries, ev, parts, k - 1);
      SharesGrowByTally(entries, ev, parts, |entries|, k);
      assert IsPortion(entries, ev, parts, k - 1);
      PortionsFillSlice(entries, ev, k - 1);
    }
  }

  // ------------------------------------------------------ a share and a duration

  function Clip(lo: real, x: real, hi: real): real { if x < lo then lo else if x > hi then hi else x }

  /** A task's share of the first slices is at most the part of its own interval they cover. */
  lemma {:induction false} ShareIsBounded(entries: seq<Target>, ev: seq<Event>, parts: seq<real>, x: Target, k: nat)
    requires Ordered(ev) && Fair(entries, ev, parts) && k <= |parts| && x.start <= x.end && ev[0].time <= x.start
    ensures 0.0 <= Share(entries, ev, parts, x, k) <= Clip(x.start, ev[k].time, x.end) - x.start
  {
    if k > 0 {
      ShareIsBounded(entries, ev, parts, x, k - 1);
      assert IsPortion(entries, ev, parts, k - 1);
      TimeOrder(ev, k - 1, k);
      var a, b := ev[k - 1].time, ev[k].time;
      var members := Active(entries, a, b);
      if x in members && a != b {
        var n := |members|;
        assert n >= 1;
        PortionIsPart(b - a, n);
      }
    }
  }

  lemma PortionIsPart(d: real, n: nat)
    requires d >= 0.0 && n >= 1
    ensures 0.0 <= d / n as real <= d
  {
    var q := d / n as real;
    assert q * n as real == d;
    assert q * (n as real - 1.0) >= 0.0;
    assert q * n as real == q + q * (n as real - 1.0);
  }

  // ------------------------------------------------------------------ idle gaps

  ghost predicate RunningAt(entries: seq<Target>, t: real) {
    exists x :: x in entries && x.start <= t < x.end
  }

  /** Some task is running at every moment from `a` until `b`. */
  ghost predicate NeverIdle(entries: seq<Target>, a: real, b: real) {
    forall t: real :: a <= t < b ==> RunningAt(entries, t)
  }

  /** A task running at some moment of a slice runs throughout it: nothing happens inside a slice. */
  lemma RunsThroughSlice(entries: seq<Target>, ev: seq<Event>, j: nat, t: real, x: Target)
    requires Timeline(entries, ev) && j + 1 < |ev| && ev[j].time <= t < ev[j + 1].time
    requires x in entries && x.start <= t < x.end
    ensures x.start <= ev[j].time && ev[j + 1].time <= x.end
  {
    var p, q := Locate(entries, ev, x);
    if p <= j { TimeOrder(ev, p, j); } else { TimeOrder(ev, j + 1, p); }
    if q <= j { TimeOrder(ev, q, j); } else { TimeOrder(ev, j + 1, q); }
  }

  lemma ActiveIffRunning(entries: seq<Target>, ev: seq<Event>, j: nat, t: real)
    requires Timeline(entries, ev) && j + 1 < |ev| && ev[j].time <= t < ev[j + 1].time
    ensures Active(entries, ev[j].time, ev[j + 1].time) != {} <==> RunningAt(entries, t)
  {
    var members := Active(entries, ev[j].time, ev[j + 1].time);
    if members != {} {
      var x :| x in members;
      assert x in entries && x.start <= t < x.end;
    }
    if RunningAt(entries, t) {
      var x :| x in entries && x.start <= t < x.end;
      RunsThroughSlice(entries, ev, j, t, x);
      assert x in members;
    }
  }

  /** Busy time never exceeds elapsed time, and reaches it exactly when no slice is idle. */
  lemma {:induction false} BusyIffCovered(entries: seq<Target>, ev: seq<Event>, k: nat)
    requires (k == 0 || k < |ev|) && |ev| > 0 && Ordered(ev)
    ensures Busy(entries, ev, k) <= ev[k].time - ev[0].time
    ensures Busy(entries, ev, k) == ev[k].time - ev[0].time <==>
      forall j :: 0 <= j < k && ev[j].time < ev[j + 1].time ==> Active(entries, ev[j].time, ev[j + 1].time) != {}
  {
    if k > 0 {
      BusyIffCovered(entries, ev, k - 1);
      TimeOrder(ev, k - 1, k);
    }
  }

  lemma {:induction false} FindSlice(ev: seq<Event>, t: real, k: nat) returns (j: nat)
    requires Ordered(ev) && k < |ev| && ev[0].time <= t < ev[k].time
    ensures j < k && ev[j].time <= t < ev[j + 1].time
  {
    j := k - 1;
    while ev[j].time > t
      invariant 0 <= j < k && t < ev[j + 1].time
      decreases j
    {
      j := j - 1;
    }
  }

  lemma CoveredIsNeverIdle(entries: seq<Target>, ev: seq<Event>, last: nat, t: real)
    requires Timeline(entries, ev) && last < |ev| && ev[0].time <= t < ev[last].time
    requires forall j :: 0 <= j < last && ev[j].time < ev[j + 1].time ==> Active(entries, ev[j].time, ev[j + 1].time) != {}
    ensures RunningAt(entries, t)
  {
    var j := FindSlice(ev, t, last);
    ActiveIffRunning(entries, ev, j, t);
  }

  lemma NeverIdleIsCovered(entries: seq<Target>, ev: seq<Event>, last: nat, j: nat)
    requires Timeline(entries, ev) && j < last < |ev| && ev[j].time < ev[j + 1].time
    requires NeverIdle(entries, ev[0].time, ev[last].time)
    ensures Active(entries, ev[j].time, ev[j + 1].time) != {}
  {
    TimeOrder(ev, 0, j);
    TimeOrder(ev, j + 1, last);
    ActiveIffRunning(entries, ev, j, ev[j].time);
  }

  /** The busy time equals the elapsed time exactly when the build was never idle. */
  lemma BusyIffNeverIdle(entries: seq<Target>, ev: seq<Event>)
    requires Timeline(entries, ev) && |ev| > 0
    ensures var last := |ev| - 1;
      Busy(entries, ev, last) == ev[last].time - ev[0].time <==> NeverIdle(entries, ev[0].time, ev[last].time)
  {
    var last := |ev| - 1;
    BusyIffCovered(entries, ev, last);
    if Busy(entries, ev, last) == ev[last].time - ev[0].time {
      forall t: real | ev[0].time <= t < ev[last].time
        ensures RunningAt(entries, t)
      {
        CoveredIsNeverIdle(entries, ev, last, t);
      }
    }
    if NeverIdle(entries, ev[0].time, ev[last].time) {
      forall j | 0 <= j < last && ev[j].time < ev[j + 1].time
        ensures Active(entries, ev[j].time, ev[j + 1].time) != {}
      {
        NeverIdleIsCovered(entries, ev, last, j);
      }
    }
  }

  // --------------------------------------------------- shares along the timeline

  /** In a slice of positive length exactly the tasks between their two events are active. */
  lemma ActiveIffBetween(entries: seq<Target>, ev: seq<Event>, x: Target, p: nat, q: nat, j: nat)
    requires Ordered(ev) && x in entries && p < |ev| && q < |ev| && ev[p] == StartOf(x) && ev[q] == StopOf(x)
    requires j + 1 < |ev| && ev[j].time < ev[j + 1].time
    ensures x in Active(entries, ev[j].time, ev[j + 1].time) <==> p <= j < q
  {
    if p <= j { TimeOrder(ev, p, j); } else { TimeOrder(ev, j + 1, p); }
    if q <= j { TimeOrder(ev, q, j); } else { TimeOrder(ev, j + 1, q); }
  }

  /** A task gets nothing before it starts and nothing after it stops. */
  lemma {:induction false} ShareOutside(entries: seq<Target>, ev: seq<Event>, parts: seq<real>, x: Target, p: nat, q: nat, k: nat)
    requires Ordered(ev) && x in entries && p < |ev| && q < |ev| && ev[p] == StartOf(x) && ev[q] == StopOf(x)
    requires Fair(entries, ev, parts) && k <= |parts|
    ensures k <= p ==> Share(entries, ev, parts, x, k) == 0.0
    ensures k >= q ==> Share(entries, ev, parts, x, k) == Share(entries, ev, parts, x, q)
  {
    if k > 0 && (k <= p || k > q) {
      ShareOutside(entries, ev, parts, x, p, q, k - 1);
      if ev[k - 1].time < ev[k].time {
        ActiveIffBetween(entries, ev, x, p, q, k - 1);
      } else {
        TimeOrder(ev, k - 1, k);
        assert IsPortion(entries, ev, parts, k - 1);
      }
    }
  }

  // -------------------------------------------------------------- the sweep

  /** The tasks started and not stopped among the first `i` events. */
  ghost function Open(entries: seq<Target>, ev: seq<Event>, i: nat): set<Target>
    requires i <= |ev|
  {
    set x | x in entries && StartOf(x) in ev[..i] && StopOf(x) !in ev[..i]
  }

  lemma InPrefixIff(ev: seq<Event>, e: Event, p: nat, i: nat)
    requires Distinct(ev) && p < |ev| && ev[p] == e && i <= |ev|
    ensures e in ev[..i] <==> p < i
  {
    if p < i {
      assert ev[..i][p] == e;
    }
    if e in ev[..i] {
      var k :| 0 <= k < i && ev[..i][k] == e;
      SameIndex(ev, k, p);
    }
  }

  lemma OpenIffBetween(entries: seq<Target>, ev: seq<Event>, x: Target, p: nat, q: nat, i: nat)
    requires Distinct(ev) && x in entries && p < |ev| && q < |ev| && ev[p] == StartOf(x) && ev[q] == StopOf(x) && i <= |ev|
    ensures x in Open(entries, ev, i) <==> p < i <= q
  {
    InPrefixIff(ev, StartOf(x), p, i);
    InPrefixIff(ev, StopOf(x), q, i);
  }

  /** The tasks the sweep counts are those active in the slice. */
  lemma OpenIsActive(entries: seq<Target>, ev: seq<Event>, i: nat)
    requires Timeline(entries, ev) && 0 < i < |ev| && ev[i - 1].time < ev[i].time
    ensures Open(entries, ev, i) == Active(entries, ev[i - 1].time, ev[i].time)
  {
    forall x | x in entries
      ensures x in Open(entries, ev, i) <==> x in Active(entries, ev[i - 1].time, ev[i].time)
    {
      var p, q := Locate(entries, ev, x);
      OpenIffBetween(entries, ev, x, p, q, i);
      ActiveIffBetween(entries, ev, x, p, q, i - 1);
    }
  }

  /** What opening or closing one event does to the set of open tasks. */
  lemma OpenStep(entries: seq<Target>, ev: seq<Event>, i: nat)
    requires Timeline(entries, ev) && i < |ev|
    ensures var x := ev[i].target;
      && x in entries
      && (!ev[i].stop && x.start <= x.end ==> Open(entries, ev, i + 1) == Open(entries, ev, i) + {x})
      && (ev[i].stop ==> Open(entries, ev, i + 1) == Open(entries, ev, i) - {x})
      && (ev[i].stop ==> (x in Open(entries, ev, i) <==> x.start <= x.end))
  {
    var x := ev[i].target;
    assert Known(entries, ev, i);
    forall y | y in entries
      ensures y != x ==> (y in Open(entries, ev, i + 1) <==> y in Open(entries, ev, i))
    {
      var p, q := Locate(entries, ev, y);
      OpenIffBetween(entries, ev, y, p, q, i);
      OpenIffBetween(entries, ev, y, p, q, i + 1);
    }
    var p, q := Locate(entries, ev, x);
    OpenIffBetween(entries, ev, x, p, q, i);
    OpenIffBetween(entries, ev, x, p, q, i + 1);
    SameIndex(ev, i, if ev[i].stop then q else p);
  }

  /** Shares of the tasks in `done`, added up over the entries. */
  ghost function SumOver(entries: seq<Target>, ev: seq<Event>, parts: seq<real>, n: nat, done: set<Target>): real
    requires n <= |entries| && |ev| == |parts| + 1
  {
    if n == 0 then 0.0
    else SumOver(entries, ev, parts, n - 1, done) + (if entries[n - 1] in done then Share(entries, ev, parts, entries[n - 1], |ev| - 1) else 0.0)
  }

  lemma {:induction false} SumOverAdds(entries: seq<Target>, ev: seq<Event>, parts: seq<real>, n: nat, done: set<Target>, x: Target)
    requires n <= |entries| && |ev| == |parts| + 1 && Distinct(entries) && x !in done
    ensures SumOver(entries, ev, parts, n, done + {x}) ==
      SumOver(entries, ev, parts, n, done) + (if x in Firsts(entries, n) then Share(entries, ev, parts, x, |ev| - 1) else 0.0)
  {
    if n > 0 {
      SumOverAdds(entries, ev, parts, n - 1, done, x);
      if entries[n - 1] == x {
        assert x in Firsts(entries, n);
        forall i | 0 <= i < n - 1 ensures entries[i] != x { assert Differ(entries, i, n - 1); }
        assert x !in Firsts(entries, n - 1);
      } else {
        assert x in Firsts(entries, n) <==> x in Firsts(entries, n - 1);
      }
    }
  }

  lemma {:induction false} SumOverAll(entries: seq<Target>, ev: seq<Event>, parts: seq<real>, n: nat, done: set<Target>)
    requires n <= |entries| && |ev| == |parts| + 1 && Firsts(entries, n) <= done
    ensures SumOver(entries, ev, parts, n, done) == SumShares(entries, ev, parts, n, |ev| - 1)
  {
    if n > 0 {
      assert entries[n - 1] in Firsts(entries, n);
      assert Firsts(entries, n - 1) <= Firsts(entries, n);
      SumOverAll(entries, ev, parts, n - 1, done);
    }
  }

  /** In one slice every open task gains the same part. */
  lemma OpenTaskGains(entries: seq<Target>, ev: seq<Event>, parts: seq<real>, i: nat, x: Target)
    requires Timeline(entries, ev) && Fair(entries, ev, parts) && 0 < i < |ev| && x in Open(entries, ev, i)
    ensures Share(entries, ev, parts, x, i) == Share(entries, ev, parts, x, i - 1) + Each(ev[i].time - ev[i - 1].time, |Open(entries, ev, i)|)
  {
    TimeOrder(ev, i - 1, i);
    assert IsPortion(entries, ev, parts, i - 1);
    if ev[i - 1].time < ev[i].time {
      OpenIsActive(entries, ev, i);
    }
  }

  /** Everything the sweep has established after the first `i` events. */
  ghost predicate SweptUpTo(entries: seq<Target>, ev: seq<Event>, parts: seq<real>, i: nat, running: map<Target, real>, done: set<Target>,
                            lastTime: real, lastWeighted: real, weightedTotal: real)
    requires |ev| == |parts| + 1 && i <= |ev|
  {
    && running.Keys == Open(entries, ev, i)
    && lastTime == ev[if i == 0 then 0 else i - 1].time
    && Accrued(entries, ev, parts, if i == 0 then 0 else i - 1, running, lastWeighted)
    && weightedTotal == SumOver(entries, ev, parts, |entries|, done)
    && Stopped(entries, ev, i, done)
  }

  /** Since each running task was recorded, the weighted time has advanced by its share of the first `k` slices. */
  ghost predicate Accrued(entries: seq<Target>, ev: seq<Event>, parts: seq<real>, k: nat, running: map<Target, real>, weighted: real)
    requires k <= |parts| && |ev| == |parts| + 1
  {
    forall x :: x in running ==> weighted - running[x] == Share(entries, ev, parts, x, k)
  }

  /** `done` are the entries whose stop is among the first `i` events. */
  ghost predicate Stopped(entries: seq<Target>, ev: seq<Event>, i: nat, done: set<Target>)
    requires i <= |ev|
  {
    && (forall x :: x in done ==> x in entries && StopOf(x) in ev[..i])
    && (forall x :: x in entries && StopOf(x) in ev[..i] ==> x in done)
  }

  /** A stop event adds its target, and no other, to those that are done. */
  lemma DoneStep(entries: seq<Target>, ev: seq<Event>, i: nat, done: set<Target>)
    requires Timeline(entries, ev) && i < |ev| && Stopped(entries, ev, i, done)
    ensures ev[i].target in entries
    ensures ev[i].stop ==> ev[i].target !in done
    ensures Stopped(entries, ev, i + 1, if ev[i].stop then done + {ev[i].target} else done)
  {
    assert ev[..i + 1] == ev[..i] + [ev[i]];
    assert Known(entries, ev, i);
    if ev[i].stop {
      InPrefixIff(ev, ev[i], i, i);
    }
  }

  ghost predicate WellFormed(targets: set<Target>) {
    forall x :: x in targets ==> x.start <= x.end
  }

  /** Bringing the weighted time up to event `i` keeps it in step with every running task's share. */
  lemma AccruesTo(entries: seq<Target>, ev: seq<Event>, parts: seq<real>, i: nat, running: map<Target, real>, done: set<Target>,
                  lastTime: real, lastWeighted: real, weightedTotal: real)
    requires Timeline(entries, ev) && Fair(entries, ev, parts) && i < |ev|
    requires SweptUpTo(entries, ev, parts, i, running, done, lastTime, lastWeighted, weightedTotal)
    ensures Accrued(entries, ev, parts, i, running, lastWeighted + Each(ev[i].time - lastTime, |running|))
  {
    assert |running.Keys| == |running|;
    if i > 0 {
      forall x | x in running
        ensures lastWeighted + Each(ev[i].time - lastTime, |running|) - running[x] == Share(entries, ev, parts, x, i)
      {
        OpenTaskGains(entries, ev, parts, i, x);
      }
    } else {
      assert Open(entries, ev, 0) == {};
    }
  }

  /** A start event opens its task; its share so far is nothing. */
  lemma StartKeeps(entries: seq<Target>, ev: seq<Event>, parts: seq<real>, i: nat, running: map<Target, real>, done: set<Target>,
                   lastTime: real, lastWeighted: real, weightedTotal: real, w: real)
    requires Timeline(entries, ev) && Fair(entries, ev, parts) && i < |ev| && !ev[i].stop && WellFormed(done)
    requires SweptUpTo(entries, ev, parts, i, running, done, lastTime, lastWeighted, weightedTotal)
    requires Accrued(entries, ev, parts, i, running, w)
    ensures SweptUpTo(entries, ev, parts, i + 1, running[ev[i].target := w], done, ev[i].time, w, weightedTotal)
  {
    var x := ev[i].target;
    assert Known(entries, ev, i);
    OpenStep(entries, ev, i);
    DoneStep(entries, ev, i, done);
    var p, q := Locate(entries, ev, x);
    SameIndex(ev, p, i);
    InPrefixIff(ev, StopOf(x), q, i);
    ShareOutside(entries, ev, parts, x, p, q, i);
    assert running[x := w].Keys == running.Keys + {x};
  }

  /** A task's share is complete at its stop event. */
  lemma StopShare(entries: seq<Target>, ev: seq<Event>, parts: seq<real>, i: nat)
    requires Timeline(entries, ev) && Fair(entries, ev, parts) && i < |ev| && ev[i].target in entries && ev[i] == StopOf(ev[i].target)
    ensures Share(entries, ev, parts, ev[i].target, i) == Share(entries, ev, parts, ev[i].target, |ev| - 1)
  {
    var x := ev[i].target;
    var p, q := Locate(entries, ev, x);
    ShareOutside(entries, ev, parts, x, p, i, |ev| - 1);
  }

  /** A stop event whose task is open closes it and adds its whole share. */
  lemma StopKeeps(entries: seq<Target>, ev: seq<Event>, parts: seq<real>, i: nat, running: map<Target, real>, done: set<Target>,
                  lastTime: real, lastWeighted: real, weightedTotal: real, w: real, x: Target, share: real)
    requires |ev| == |parts| + 1 && i < |ev| && Distinct(entries) && x == ev[i].target && x in running && x in entries && x !in done
    requires SweptUpTo(entries, ev, parts, i, running, done, lastTime, lastWeighted, weightedTotal)
    requires Accrued(entries, ev, parts, i, running, w)
    requires share == Share(entries, ev, parts, x, |ev| - 1)
    requires Open(entries, ev, i + 1) == Open(entries, ev, i) - {x} && Stopped(entries, ev, i + 1, done + {x})
    ensures SweptUpTo(entries, ev, parts, i + 1, running - {x}, done + {x}, ev[i].time, w, weightedTotal + share)
  {
    SumOverAdds(entries, ev, parts, |entries|, done, x);
    InFirsts(entries, x);
    assert (running - {x}).Keys == running.Keys - {x};
  }

  /** Nothing swept yet. */
  lemma SweepStarts(entries: seq<Target>, ev: seq<Event>, parts: seq<real>)
    requires |ev| == |parts| + 1
    ensures SweptUpTo(entries, ev, parts, 0, map[], {}, ev[0].time, 0.0, 0.0)
  {
    SumOverNone(entries, ev, parts, |entries|);
    assert Open(entries, ev, 0) == {};
  }

  /** Everything swept: every task is done, and their shares add up to the busy time. */
  lemma SweepEnds(entries: seq<Target>, ev: seq<Event>, parts: seq<real>, running: map<Target, real>, done: set<Target>,
                  lastTime: real, lastWeighted: real, weightedTotal: real)
    requires Distinct(entries) && Timeline(entries, ev) && Fair(entries, ev, parts)
    requires SweptUpTo(entries, ev, parts, |ev|, running, done, lastTime, lastWeighted, weightedTotal)
    ensures running == map[] && (forall x :: x in entries ==> x in done)
    ensures weightedTotal == Busy(entries, ev, |ev| - 1)
  {
    assert ev[..|ev|] == ev;
    forall x | x in entries ensures StopOf(x) in ev { assert HasEvents(ev, x); }
    assert Open(entries, ev, |ev|) == {};
    forall x | x in Firsts(entries, |entries|) ensures x in done { }
    SumOverAll(entries, ev, parts, |entries|, done);
    SharesAreConserved(entries, ev, parts, |ev| - 1);
  }

  /** A task that ends before it starts is met at its stop event, with no start recorded. */
  lemma MissingIsMalformed(entries: seq<Target>, ev: seq<Event>, i: nat)
    requires Timeline(entries, ev) && i < |ev| && ev[i].stop && ev[i].target !in Open(entries, ev, i)
    ensures ev[i].target in entries && ev[i].target.start > ev[i].target.end
  {
    OpenStep(entries, ev, i);
  }

  /** One event of the loop: it changes at most the weighted duration of its target. */
  method SweepEvent(entries: seq<Target>, ev: seq<Event>, ghost parts: seq<real>, i: nat, running: map<Target, real>, ghost done: set<Target>,
                    lastTime: real, lastWeighted: real, weightedTotal: real)
    returns (ok: bool, running': map<Target, real>, ghost done': set<Target>, lastWeighted': real, weightedTotal': real)
    requires Distinct(entries) && Timeline(entries, ev) && Fair(entries, ev, parts) && i < |ev| && WellFormed(done)
    requires SweptUpTo(entries, ev, parts, i, running, done, lastTime, lastWeighted, weightedTotal)
    modifies ev[i].target`weightedDuration
    ensures !ok ==> ev[i].target in entries && ev[i].target.start > ev[i].target.end
    ensures ok ==> SweptUpTo(entries, ev, parts, i + 1, running', done', ev[i].time, lastWeighted', weightedTotal') && WellFormed(done')
    ensures ok && !ev[i].stop ==> done' == done && ev[i].target.weightedDuration == old(ev[i].target.weightedDuration)
    ensures ok && ev[i].stop ==> done' == done + {ev[i].target} && ev[i].target !in done &&
                                 ev[i].target.weightedDuration == Share(entries, ev, parts, ev[i].target, |ev| - 1)
  {
    var time, target := ev[i].time, ev[i].target;
    ok, running', done', lastWeighted', weightedTotal' := true, running, done, lastWeighted, weightedTotal;
    AccruesTo(entries, ev, parts, i, running, done, lastTime, lastWeighted, weightedTotal);
    var numRunning := |running|;
    if numRunning > 0 {
      lastWeighted' := lastWeighted + Each(time - lastTime, numRunning);
    }
    assert lastWeighted' == lastWeighted + Each(time - lastTime, numRunning);
    if !ev[i].stop {
      StartKeeps(entries, ev, parts, i, running, done, lastTime, lastWeighted, weightedTotal, lastWeighted');
      running' := running[target := lastWeighted'];
    } else {
      if target !in running {
        MissingIsMalformed(entries, ev, i);
        ok := false;
        return;
      }
      assert Known(entries, ev, i);
      OpenStep(entries, ev, i);
      DoneStep(entries, ev, i, done);
      StopShare(entries, ev, parts, i);
      StopKeeps(entries, ev, parts, i, running, done, lastTime, lastWeighted, weightedTotal, lastWeighted', target,
                Share(entries, ev, parts, target, |ev| - 1));
      var weightedDuration := lastWeighted' - running[target];
      target.weightedDuration := weightedDuration;
      weightedTotal' := weightedTotal + weightedDuration;
      running' := running - {target};
      done' := done + {target};
    }
  }

  /** The loop over the events: every task gets its share, and no stop misses its start unless a task ends before it starts. */
  method Sweep(entries: seq<Target>, ev: seq<Event>, ghost parts: seq<real>) returns (ok: bool, weightedTotal: real)
    requires Distinct(entries) && Timeline(entries, ev) && Fair(entries, ev, parts)
    modifies set x | x in entries :: x`weightedDuration
    ensures ok <==> forall x :: x in entries ==> x.start <= x.end
    ensures ok ==> forall x :: x in entries ==> x.weightedDuration == Share(entries, ev, parts, x, |ev| - 1)
    ensures ok ==> weightedTotal == Busy(entries, ev, |ev| - 1)
  {
    var running: map<Target, real> := map[];
    var lastTime := ev[0].time;
    var lastWeighted := 0.0;
    weightedTotal := 0.0;
    ghost var done: set<Target> := {};
    SweepStarts(entries, ev, parts);
    var i := 0;
    while i < |ev|
      invariant 0 <= i <= |ev|
      invariant SweptUpTo(entries, ev, parts, i, running, done, lastTime, lastWeighted, weightedTotal)
      invariant WellFormed(done) && forall x :: x in done ==> x.weightedDuration == Share(entries, ev, parts, x, |ev| - 1)
    {
      assert Known(entries, ev, i);
      ok, running, done, lastWeighted, weightedTotal :=
        SweepEvent(entries, ev, parts, i, running, done, lastTime, lastWeighted, weightedTotal);
      if !ok {
        return;
      }
      lastTime := ev[i].time;
      i := i + 1;
    }
    ok := true;
    SweepEnds(entries, ev, parts, running, done, lastTime, lastWeighted, weightedTotal);
    assert running == map[];
  }

  lemma InFirsts(entries: seq<Target>, x: Target)
    requires x in entries
    ensures x in Firsts(entries, |entries|)
  {
    var i :| 0 <= i < |entries| && entries[i] == x;
  }

  lemma {:induction false} SumOverNone(entries: seq<Target>, ev: seq<Event>, parts: seq<real>, n: nat)
    requires n <= |entries| && |ev| == |parts| + 1
    ensures SumOver(entries, ev, parts, n, {}) == 0.0
  {
    if n > 0 {
      SumOverNone(entries, ev, parts, n - 1);
    }
  }

  // ---------------------------------------------------------- the whole summary

  ghost function TotalDuration(entries: seq<Target>, n: nat): real
    requires n <= |entries|
  { if n == 0 then 0.0 else TotalDuration(entries, n - 1) + entries[n - 1].Duration() }

  /** The events of the first `n` entries, as collected. */
  function EventsOf(entries: seq<Target>, n: nat): seq<Event>
    requires n <= |entries|
  { if n == 0 then [] else EventsOf(entries, n - 1) + [StartOf(entries[n - 1]), StopOf(entries[n - 1])] }

  ghost predicate IsEarliest(entries: seq<Target>, n: nat, t: real)
    requires n <= |entries|
  {
    (exists i :: 0 <= i < n && entries[i].start == t) && forall i :: 0 <= i < n ==> t <= entries[i].start
  }

  ghost predicate IsLatest(entries: seq<Target>, n: nat, t: real)
    requires n <= |entries|
  {
    (t == 0.0 || exists i :: 0 <= i < n && entries[i].end == t) && 0.0 <= t && forall i :: 0 <= i < n ==> entries[i].end <= t
  }

  ghost predicate NonNegative(entries: seq<Target>) {
    forall i :: 0 <= i < |entries| ==> entries[i].start >= 0.0
  }

  /** The collecting loop: `earliest` starts from a negative sentinel, so it is the minimum for times that are not negative. */
  method CollectEvents(entries: seq<Target>) returns (events: seq<Event>, earliest: real, latest: real, total: real)
    ensures events == EventsOf(entries, |entries|) && total == TotalDuration(entries, |entries|)
    ensures NonNegative(entries) && entries != [] ==> IsEarliest(entries, |entries|, earliest)
    ensures IsLatest(entries, |entries|, latest)
  {
    events, earliest, latest, total := [], -1.0, 0.0, 0.0;
    var i := 0;
    while i < |entries|
      invariant 0 <= i <= |entries|
      invariant events == EventsOf(entries, i) && total == TotalDuration(entries, i)
      invariant i == 0 ==> earliest == -1.0
      invariant NonNegative(entries) && i > 0 ==> IsEarliest(entries, i, earliest)
      invariant IsLatest(entries, i, latest)
    {
      var target := entries[i];
      ghost var e0, l0 := earliest, latest;
      if earliest < 0.0 || target.start < earliest {
        earliest := target.start;
      }
      if target.end > latest {
        latest := target.end;
      }
      total := total + target.Duration();
      events := events + [StartOf(target), StopOf(target)];
      i := i + 1;
    }
  }

  predicate Less(a: Event, b: Event) { !Before(b, a) }

  /** Put `e` after every event that does not come strictly later: a stable insertion. */
  function Insert(e: Event, s: seq<Event>): seq<Event> {
    if s == [] then [e]
    else if Less(e, s[|s| - 1]) then Insert(e, s[..|s| - 1]) + [s[|s| - 1]]
    else s + [e]
  }

  lemma {:induction false} InsertAdds(e: Event, s: seq<Event>)
    ensures multiset(Insert(e, s)) == multiset(s) + multiset{e} && |Insert(e, s)| == |s| + 1
    ensures forall x :: x in Insert(e, s) ==> x == e || x in s
  {
    if s != [] {
      var front, last := s[..|s| - 1], s[|s| - 1];
      assert s == front + [last];
      if Less(e, last) { InsertAdds(e, front); }
    }
  }

  lemma LastStaysLast(s: seq<Event>, last: Event)
    requires Ordered(s) && forall x :: x in s ==> Before(x, last)
    ensures Ordered(s + [last])
  {
    var r := s + [last];
    forall i: nat, j: nat | i < j < |r| ensures InOrder(r, i, j) {
      if j < |s| { assert InOrder(s, i, j); } else { assert s[i] in s; }
    }
  }

  lemma {:induction false} InsertIsOrdered(e: Event, s: seq<Event>)
    requires Ordered(s)
    ensures Ordered(Insert(e, s))
  {
    if s != [] {
      var front, last := s[..|s| - 1], s[|s| - 1];
      forall i: nat, j: nat | i < j < |front| ensures InOrder(front, i, j) { assert InOrder(s, i, j); }
      forall x | x in front ensures Before(x, last) {
        var k: nat :| k < |front| && front[k] == x;
        assert InOrder(s, k, |front|);
      }
      if Less(e, last) {
        InsertIsOrdered(e, front);
        InsertAdds(e, front);
        LastStaysLast(Insert(e, front), last);
      } else {
        forall x | x in s ensures Before(x, e) { assert x in front || x == last; }
        LastStaysLast(s, e);
      }
    }
  }

  /** The library sort, by (time, kind), stable. */
  method SortEvents(events: seq<Event>) returns (ev: seq<Event>)
    ensures Ordered(ev) && multiset(ev) == multiset(events)
  {
    ev := [];
    var i := 0;
    while i < |events|
      invariant 0 <= i <= |events| && Ordered(ev) && multiset(ev) == multiset(events[..i])
    {
      InsertIsOrdered(events[i], ev);
      InsertAdds(events[i], ev);
      assert events[..i + 1] == events[..i] + [events[i]];
      ev := Insert(events[i], ev);
      i := i + 1;
    }
    assert events[..i] == events;
  }

  lemma {:induction false} EventsOfAt(entries: seq<Target>, n: nat, k: nat)
    requires n <= |entries| && k < n
    ensures |EventsOf(entries, n)| == 2 * n
    ensures EventsOf(entries, n)[2 * k] == StartOf(entries[k]) && EventsOf(entries, n)[2 * k + 1] == StopOf(entries[k])
  {
    if k < n - 1 {
      EventsOfAt(entries, n - 1, k);
    } else if n > 1 {
      EventsOfAt(entries, n - 1, 0);
    }
  }

  lemma EventsAreDistinct(entries: seq<Target>)
    requires Distinct(entries)
    ensures |EventsOf(entries, |entries|)| == 2 * |entries| && Distinct(EventsOf(entries, |entries|))
  {
    var n := |entries|;
    var events := EventsOf(entries, n);
    if n > 0 { EventsOfAt(entries, n, 0); }
    forall i: nat, j: nat | i < j < |events| ensures Differ(events, i, j) {
      EventsOfAt(entries, n, i / 2);
      EventsOfAt(entries, n, j / 2);
      assert i == 2 * (i / 2) || i == 2 * (i / 2) + 1;
      assert j == 2 * (j / 2) || j == 2 * (j / 2) + 1;
      if i / 2 < j / 2 { assert Differ(entries, i / 2, j / 2); }
    }
  }

  lemma {:induction false} MultisetOfDistinct<T>(s: seq<T>, x: T)
    requires Distinct(s)
    ensures multiset(s)[x] <= 1
  {
    if s != [] {
      var front, last := s[..|s| - 1], s[|s| - 1];
      assert s == front + [last];
      forall i: nat, j: nat | i < j < |front| ensures Differ(front, i, j) { assert Differ(s, i, j); }
      MultisetOfDistinct(front, x);
      forall k: nat | k < |front| ensures front[k] != last { assert Differ(s, k, |front|); }
      assert last !in front;
    }
  }

  lemma {:induction false} DistinctFromMultiset<T>(s: seq<T>)
    requires forall x :: x in multiset(s) ==> multiset(s)[x] <= 1
    ensures Distinct(s)
  {
    forall i: nat, j: nat | i < j < |s| ensures Differ(s, i, j) {
      assert s == s[..i] + [s[i]] + s[i + 1..j] + [s[j]] + s[j + 1..];
      assert s[i] in multiset(s);
    }
  }

  lemma SameMembers<T>(a: seq<T>, b: seq<T>, x: T)
    requires multiset(a) == multiset(b)
    ensures x in a <==> x in b
  {
    assert x in a <==> x in multiset(a);
    assert x in b <==> x in multiset(b);
  }

  lemma DistinctPermutation<T>(a: seq<T>, b: seq<T>)
    requires multiset(a) == multiset(b) && Distinct(a)
    ensures |a| == |b| && Distinct(b)
  {
    assert |multiset(a)| == |a| && |multiset(b)| == |b|;
    forall x | x in multiset(b) ensures multiset(b)[x] <= 1 { MultisetOfDistinct(a, x); }
    DistinctFromMultiset(b);
  }

  /** An event that was collected starts or stops an entry. */
  lemma EventIsKnown(entries: seq<Target>, events: seq<Event>, j: nat)
    requires events == EventsOf(entries, |entries|) && |events| == 2 * |entries| && j < |events|
    ensures Known(entries, events, j)
  {
    var k := j / 2;
    EventsOfAt(entries, |entries|, k);
    assert entries[k] in entries;
    assert j == 2 * k || j == 2 * k + 1;
  }

  /** The start and the stop of every entry are collected. */
  lemma EventIsCollected(entries: seq<Target>, x: Target)
    requires x in entries
    ensures StartOf(x) in EventsOf(entries, |entries|) && StopOf(x) in EventsOf(entries, |entries|)
  {
    var k :| 0 <= k < |entries| && entries[k] == x;
    EventsOfAt(entries, |entries|, k);
  }

  /** Sorting the collected events gives the timeline of the entries. */
  lemma SortedIsTimeline(entries: seq<Target>, ev: seq<Event>)
    requires Distinct(entries) && Ordered(ev) && multiset(ev) == multiset(EventsOf(entries, |entries|))
    ensures Timeline(entries, ev) && |ev| == 2 * |entries|
  {
    var events := EventsOf(entries, |entries|);
    EventsAreDistinct(entries);
    DistinctPermutation(events, ev);
    forall x | x in entries ensures HasEvents(ev, x) {
      EventIsCollected(entries, x);
      SameMembers(ev, events, StartOf(x));
      SameMembers(ev, events, StopOf(x));
    }
    forall i: nat | i < |ev| ensures Known(entries, ev, i) {
      SameMembers(ev, events, ev[i]);
      var j: nat :| j < |events| && events[j] == ev[i];
      EventIsKnown(entries, events, j);
    }
  }

  /** The timeline runs from the earliest start to the latest end. */
  lemma TimelineEnds(entries: seq<Target>, ev: seq<Event>, earliest: real, latest: real)
    requires Timeline(entries, ev) && |ev| > 0 && NonNegative(entries) && (forall x :: x in entries ==> x.start <= x.end)
    requires IsEarliest(entries, |entries|, earliest) && IsLatest(entries, |entries|, latest)
    ensures ev[0].time == earliest && ev[|ev| - 1].time == latest
  {
    var last := |ev| - 1;
    assert Known(entries, ev, 0) && Known(entries, ev, last);
    var i :| 0 <= i < |entries| && entries[i].start == earliest;
    var p, q := Locate(entries, ev, entries[i]);
    TimeOrder(ev, 0, p);
    var k :| 0 <= k < |entries| && entries[k] == ev[0].target;
    var n :| 0 <= n < |entries| && entries[n] == ev[last].target;
    assert ev[last].time <= latest;
    var p2, q2 := Locate(entries, ev, entries[n]);
    TimeOrder(ev, q2, last);
    if j :| 0 <= j < |entries| && entries[j].end == latest {
      var p3, q3 := Locate(entries, ev, entries[j]);
      TimeOrder(ev, q3, last);
    }
  }

  /** Each share lies between nothing and the task's own duration. */
  lemma ShareWithinDuration(entries: seq<Target>, ev: seq<Event>, x: Target)
    requires Timeline(entries, ev) && x in entries && x.start <= x.end && |ev| > 0
    ensures 0.0 <= Share(entries, ev, Portions(entries, ev), x, |ev| - 1) <= x.Duration()
  {
    var p, q := Locate(entries, ev, x);
    TimeOrder(ev, 0, p);
    ShareIsBounded(entries, ev, Portions(entries, ev), x, |ev| - 1);
  }

  ghost predicate Ends(entries: seq<Target>) { forall x :: x in entries ==> x.start <= x.end }

  /**
   `SummarizeEntries` up to its report.  It fails only on an empty list or on a task that ends before
   it starts; otherwise every task is given its share of every slice, at most its duration, the shares
   add up to the busy time, and that is the whole elapsed time exactly when the build was never idle.
   */
  method SummarizeEntries(entries: seq<Target>) returns (r: Summary, ghost ev: seq<Event>)
    requires Distinct(entries)
    modifies set x | x in entries :: x`weightedDuration
    ensures r.NoEvents? <==> entries == []
    ensures r.MissingStart? <==> !Ends(entries)
    ensures r.Swept? ==> Timeline(entries, ev) && |ev| > 0
    ensures r.Swept? ==> forall x :: x in entries ==>
      x.weightedDuration == Share(entries, ev, Portions(entries, ev), x, |ev| - 1) && 0.0 <= x.weightedDuration <= x.Duration()
    ensures r.Swept? ==> r.weightedTotal == Busy(entries, ev, |ev| - 1) && r.totalCpuTime == TotalDuration(entries, |entries|)
    ensures r.Swept? && NonNegative(entries) ==>
      && IsEarliest(entries, |entries|, r.earliest) && IsLatest(entries, |entries|, r.latest)
      && (r.weightedTotal == r.latest - r.earliest <==> NeverIdle(entries, r.earliest, r.latest))
  {
    ev := [];
    var events, earliest, latest, total := CollectEvents(entries);
    var sorted := SortEvents(events);
    SortedIsTimeline(entries, sorted);
    ev := sorted;
    if |sorted| == 0 {
      return NoEvents, ev;
    }
    var ok, weightedTotal := Sweep(entries, sorted, Portions(entries, sorted));
    if !ok {
      return MissingStart, ev;
    }
    forall x | x in entries
      ensures 0.0 <= x.weightedDuration <= x.Duration()
    {
      ShareWithinDuration(entries, ev, x);
    }
    if NonNegative(entries) {
      TimelineEnds(entries, ev, earliest, latest);
      BusyIffNeverIdle(entries, ev);
    }
    r := Swept(earliest, latest, total, weightedTotal);
  }
}
