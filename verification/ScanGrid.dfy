/**
 The grid of scan programs, one per (request, channel): when no request reads or writes
 another's slots, every execution order leaves the same tensors.
 */
module ScanGrid {
  import opened Arithmetic
  import opened Options
  import opened SelectiveScan
  import opened ScanKernel

  datatype Prog = Prog(x: Inputs, t: Task)

  ghost predicate Ready(p: Prog, m: Mem) { p.t.skip || Fits(p.x, p.t, m) }

  ghost predicate StoresTo(t: Task, slot: nat) {
    exists c :: 0 <= c < |t.stores| && t.stores[c].slot == slot
  }

  ghost predicate RangesApart(a: Task, b: Task) {
    a.row != b.row || a.start + a.len <= b.start || b.start + b.len <= a.start
  }

  /** Neither stores into a slot the other loads from or stores into. */
  ghost predicate SlotsApart(a: Task, b: Task) {
    a.dim != b.dim ||
    ((forall k :: StoresTo(a, k) ==> !StoresTo(b, k)) && !StoresTo(a, b.loadSlot) && !StoresTo(b, a.loadSlot))
  }

  ghost predicate Independent(a: Prog, b: Prog) {
    a.t.skip || b.t.skip || (RangesApart(a.t, b.t) && SlotsApart(a.t, b.t))
  }

  /** The same tensors up to their values. */
  ghost predicate SameShape(a: Mem, b: Mem) {
    && |a.delta| == |b.delta| && |a.z| == |b.z| && |a.ssm| == |b.ssm|
    && (forall r :: 0 <= r < |a.delta| ==> |a.delta[r]| == |b.delta[r]|)
    && (forall r :: 0 <= r < |a.z| ==> |a.z[r]| == |b.z[r]|)
    && (forall d :: 0 <= d < |a.ssm| ==> |a.ssm[d]| == |b.ssm[d]|)
    && (forall d, k :: 0 <= d < |a.ssm| && 0 <= k < |a.ssm[d]| ==> |a.ssm[d][k]| == |b.ssm[d][k]|)
  }

  // ----------------------------------------------------- slots and rows pointwise

  /** A slot outside the checkpoints keeps its value; a slot among them gets one that ignores the old value. */
  lemma {:induction false} SlotsPointwise(states: seq<Vec>, a: seq<Vec>, b: seq<Vec>, stores: seq<Store>, n: nat, k: nat)
    requires |a| == |b| && StoresFit(states, a, stores) && n <= |stores| && k < |a|
    ensures StoresFit(states, b, stores)
    ensures (forall c :: 0 <= c < n ==> stores[c].slot != k) ==> Slots(states, a, stores, n)[k] == a[k]
    ensures (exists c :: 0 <= c < n && stores[c].slot == k) ==> Slots(states, a, stores, n)[k] == Slots(states, b, stores, n)[k]
  {
    if n > 0 {
      SlotsPointwise(states, a, b, stores, n - 1, k);
    }
  }

  /** Every slot vector has the length of the states stored. */
  lemma {:induction false} SlotsShape(states: seq<Vec>, column: seq<Vec>, stores: seq<Store>, n: nat, size: nat, k: nat)
    requires StoresFit(states, column, stores) && n <= |stores| && k < |column|
    requires forall i :: 0 <= i < |states| ==> |states[i]| == size
    requires forall i :: 0 <= i < |column| ==> |column[i]| == size
    ensures |Slots(states, column, stores, n)[k]| == size
  {
    if n > 0 {
      SlotsShape(states, column, stores, n - 1, size, k);
    }
  }

  lemma OverwriteCommutes(row: Row, i: nat, a: seq<real>, j: nat, b: seq<real>)
    requires i + |a| <= |row| && j + |b| <= |row| && (i + |a| <= j || j + |b| <= i)
    ensures Overwrite(Overwrite(row, i, a), j, b) == Overwrite(Overwrite(row, j, b), i, a)
  {
    var l, r := Overwrite(Overwrite(row, i, a), j, b), Overwrite(Overwrite(row, j, b), i, a);
    forall k | 0 <= k < |row|
      ensures l[k] == r[k]
    {
    }
  }

  lemma SlotsCommute(column: seq<Vec>, sa: seq<Vec>, a: Task, sb: seq<Vec>, b: Task)
    requires StoresFit(sa, column, a.stores) && StoresFit(sb, column, b.stores)
    requires forall k :: StoresTo(a, k) ==> !StoresTo(b, k)
    ensures var ca := Slots(sa, column, a.stores, |a.stores|); var cb := Slots(sb, column, b.stores, |b.stores|);
      StoresFit(sb, ca, b.stores) && StoresFit(sa, cb, a.stores) &&
      Slots(sb, ca, b.stores, |b.stores|) == Slots(sa, cb, a.stores, |a.stores|)
  {
    var ca, cb := Slots(sa, column, a.stores, |a.stores|), Slots(sb, column, b.stores, |b.stores|);
    var l, r := Slots(sb, ca, b.stores, |b.stores|), Slots(sa, cb, a.stores, |a.stores|);
    forall k | 0 <= k < |column|
      ensures l[k] == r[k]
    {
      SlotsPointwise(sa, column, cb, a.stores, |a.stores|, k);
      SlotsPointwise(sb, column, ca, b.stores, |b.stores|, k);
      SlotsPointwise(sa, cb, column, a.stores, |a.stores|, k);
      SlotsPointwise(sb, ca, column, b.stores, |b.stores|, k);
      assert StoresTo(a, k) <==> exists c :: 0 <= c < |a.stores| && a.stores[c].slot == k;
      assert StoresTo(b, k) <==> exists c :: 0 <= c < |b.stores| && b.stores[c].slot == k;
    }
  }

  // ------------------------------------------------------- two programs commute

  ghost function Eff(p: Prog, m: Mem): Mem
    requires Ready(p, m)
  { Effect(p.x, p.t, m) }

  ghost function TraceOf(p: Prog, m: Mem): Trace
    requires !p.t.skip && Fits(p.x, p.t, m)
  { Scan(p.x.ch, InitialState(p.x, p.t, m), Tokens(p.x, p.t, m)) }

  /** What a trace must satisfy to be written by a task into tensors of this shape. */
  ghost predicate Writable(hasZ: bool, t: Task, m: Mem, tr: Trace) {
    && t.row < |m.delta| && |tr.outs| == |tr.gates| == t.len && t.start + t.len <= |m.delta[t.row]|
    && (hasZ ==> t.row < |m.z| && t.start + t.len <= |m.z[t.row]|)
    && t.dim < |m.ssm| && StoresFit(tr.states, m.ssm[t.dim], t.stores)
    && |tr.states| > 0
    && (forall i, k :: 0 <= i < |tr.states| && 0 <= k < |m.ssm[t.dim]| ==> |tr.states[i]| == |m.ssm[t.dim][k]|)
  }

  lemma TraceIsWritable(p: Prog, m: Mem)
    requires !p.t.skip && Fits(p.x, p.t, m)
    ensures Writable(p.x.hasZ, p.t, m, TraceOf(p, m))
    ensures Eff(p, m) == WriteTrace(p.x.hasZ, p.t, m, TraceOf(p, m))
  {
  }

  lemma WriteKeepsShape(hasZ: bool, t: Task, m: Mem, tr: Trace)
    requires Writable(hasZ, t, m, tr)
    ensures SameShape(m, WriteTrace(hasZ, t, m, tr))
  {
    var w := WriteTrace(hasZ, t, m, tr);
    forall k | 0 <= k < |m.ssm[t.dim]|
      ensures |w.ssm[t.dim][k]| == |m.ssm[t.dim][k]|
    {
      assert |tr.states[0]| == |m.ssm[t.dim][k]|;
      SlotsShape(tr.states, m.ssm[t.dim], t.stores, |t.stores|, |tr.states[0]|, k);
    }
  }

  lemma WritableElsewhere(hasZ: bool, t: Task, m: Mem, m': Mem, tr: Trace)
    requires Writable(hasZ, t, m, tr) && SameShape(m, m')
    ensures Writable(hasZ, t, m', tr)
  {
  }

  lemma EffectKeepsShape(p: Prog, m: Mem)
    requires Ready(p, m)
    ensures SameShape(m, Eff(p, m))
  {
    if !p.t.skip {
      TraceIsWritable(p, m);
      WriteKeepsShape(p.x.hasZ, p.t, m, TraceOf(p, m));
    }
  }

  lemma ReadyElsewhere(p: Prog, m: Mem, m': Mem)
    requires Ready(p, m) && SameShape(m, m')
    ensures Ready(p, m')
  {
  }

  /** A program reads nothing that an independent one writes. */
  lemma ReadsUnaffected(b: Prog, m: Mem, hasZ: bool, t: Task, tr: Trace)
    requires !b.t.skip && Fits(b.x, b.t, m) && Writable(hasZ, t, m, tr)
    requires RangesApart(t, b.t) && SlotsApart(t, b.t)
    ensures SameShape(m, WriteTrace(hasZ, t, m, tr))
    ensures Fits(b.x, b.t, WriteTrace(hasZ, t, m, tr))
    ensures Tokens(b.x, b.t, WriteTrace(hasZ, t, m, tr)) == Tokens(b.x, b.t, m)
    ensures InitialState(b.x, b.t, WriteTrace(hasZ, t, m, tr)) == InitialState(b.x, b.t, m)
  {
    var w := WriteTrace(hasZ, t, m, tr);
    WriteKeepsShape(hasZ, t, m, tr);
    ReadyElsewhere(b, m, w);
    if t.dim == b.t.dim {
      SlotsPointwise(tr.states, m.ssm[t.dim], m.ssm[t.dim], t.stores, |t.stores|, b.t.loadSlot);
    }
    forall i | 0 <= i < b.t.len
      ensures Tokens(b.x, b.t, w)[i] == Tokens(b.x, b.t, m)[i]
    {
      assert w.delta[b.t.row][b.t.start + i] == m.delta[b.t.row][b.t.start + i];
    }
  }

  lemma WritesCommute(za: bool, a: Task, ta: Trace, zb: bool, b: Task, tb: Trace, m: Mem)
    requires Writable(za, a, m, ta) && Writable(zb, b, m, tb) && RangesApart(a, b) && SlotsApart(a, b)
    ensures Writable(zb, b, WriteTrace(za, a, m, ta), tb) && Writable(za, a, WriteTrace(zb, b, m, tb), ta)
    ensures WriteTrace(zb, b, WriteTrace(za, a, m, ta), tb) == WriteTrace(za, a, WriteTrace(zb, b, m, tb), ta)
  {
    var wa, wb := WriteTrace(za, a, m, ta), WriteTrace(zb, b, m, tb);
    WriteKeepsShape(za, a, m, ta);
    WriteKeepsShape(zb, b, m, tb);
    WritableElsewhere(zb, b, m, wa, tb);
    WritableElsewhere(za, a, m, wb, ta);
    var l, r := WriteTrace(zb, b, wa, tb), WriteTrace(za, a, wb, ta);
    if a.row == b.row {
      OverwriteCommutes(m.delta[a.row], a.start, ta.outs, b.start, tb.outs);
      if za && zb {
        OverwriteCommutes(m.z[a.row], a.start, ta.gates, b.start, tb.gates);
      }
    }
    if a.dim == b.dim {
      SlotsCommute(m.ssm[a.dim], ta.states, a, tb.states, b);
    }
    assert l.delta == r.delta;
    assert l.z == r.z;
    assert l.ssm == r.ssm;
  }

  /** Independent programs commute on every memory they both fit. */
  lemma Commute(a: Prog, b: Prog, m: Mem)
    requires Ready(a, m) && Ready(b, m) && Independent(a, b)
    ensures Ready(b, Eff(a, m)) && Ready(a, Eff(b, m))
    ensures Eff(b, Eff(a, m)) == Eff(a, Eff(b, m))
  {
    if !a.t.skip && !b.t.skip {
      TraceIsWritable(a, m);
      TraceIsWritable(b, m);
      ReadsUnaffected(b, m, a.x.hasZ, a.t, TraceOf(a, m));
      ReadsUnaffected(a, m, b.x.hasZ, b.t, TraceOf(b, m));
      WritesCommute(a.x.hasZ, a.t, TraceOf(a, m), b.x.hasZ, b.t, TraceOf(b, m), m);
    }
  }

  // ---------------------------------------------------------- any execution order

  /** Run the programs one after another. */
  ghost function RunAll<P, S>(step: (P, S) -> S, ps: seq<P>, s: S): S
    decreases |ps|
  {
    if ps == [] then s else RunAll(step, ps[1..], step(ps[0], s))
  }

  /** On the states that matter, steps stay among them and different steps commute. */
  ghost predicate Commuting<P(!new), S(!new)>(step: (P, S) -> S, ok: S -> bool, progs: set<P>) {
    && (forall p, s :: p in progs && ok(s) ==> ok(step(p, s)))
    && (forall p, q, s :: p in progs && q in progs && p != q && ok(s) ==> step(q, step(p, s)) == step(p, step(q, s)))
  }

  function Without<P>(ps: seq<P>, k: nat): seq<P>
    requires k < |ps|
  { ps[..k] + ps[k + 1..] }

  /** `o` runs the programs of `progs`, each once. */
  ghost predicate Order<P(!new)>(progs: set<P>, o: seq<P>) {
    && (forall p :: p in o <==> p in progs)
    && (forall i, j :: 0 <= i < j < |o| ==> o[i] != o[j])
  }

  lemma OrderWithout<P(!new)>(progs: set<P>, o: seq<P>, k: nat)
    requires Order(progs, o) && k < |o|
    ensures o[k] in progs && Order(progs - {o[k]}, Without(o, k))
  {
    var w := Without(o, k);
    assert o[k] in o;
    forall p | p in progs - {o[k]}
      ensures p in w
    {
      var i :| 0 <= i < |o| && o[i] == p;
      if i < k { assert w[i] == p; } else { assert w[i - 1] == p; }
    }
  }

  lemma {:induction false} OrderSize<P(!new)>(progs: set<P>, o: seq<P>)
    requires Order(progs, o)
    ensures |o| == |progs|
    decreases |o|
  {
    if o == [] {
      assert progs == {};
    } else {
      OrderWithout(progs, o, 0);
      OrderSize(progs - {o[0]}, Without(o, 0));
    }
  }

  ghost predicate Distinct<P>(o: seq<P>) {
    forall i, j :: 0 <= i < j < |o| ==> o[i] != o[j]
  }

  lemma RunFirst<P, S>(step: (P, S) -> S, p: P, rest: seq<P>, s: S)
    ensures RunAll(step, [p] + rest, s) == RunAll(step, rest, step(p, s))
  {
    assert ([p] + rest)[1..] == rest;
  }

  /** Any program can be run first. */
  lemma {:induction false} MoveToFront<P(!new), S(!new)>(step: (P, S) -> S, ok: S -> bool, progs: set<P>, o: seq<P>, k: nat, s: S)
    requires Commuting(step, ok, progs) && Distinct(o) && (forall i :: 0 <= i < |o| ==> o[i] in progs) && k < |o| && ok(s)
    ensures RunAll(step, o, s) == RunAll(step, Without(o, k), step(o[k], s))
    decreases k
  {
    var q, tail := o[0], o[1..];
    RunFirst(step, q, tail, s);
    assert o == [q] + tail;
    if k == 0 {
      assert Without(o, 0) == tail;
    } else {
      var p, rest := o[k], Without(tail, k - 1);
      MoveToFront(step, ok, progs, tail, k - 1, step(q, s));
      assert Without(o, k) == [q] + rest;
      RunFirst(step, q, rest, step(p, s));
      assert step(p, step(q, s)) == step(q, step(p, s));
    }
  }

  /** Commuting programs give the same result in every order. */
  lemma {:induction false} OrdersAgree<P(!new), S(!new)>(step: (P, S) -> S, ok: S -> bool, all: set<P>, progs: set<P>, o1: seq<P>, o2: seq<P>, s: S)
    requires Commuting(step, ok, all) && progs <= all && Order(progs, o1) && Order(progs, o2) && ok(s)
    ensures RunAll(step, o1, s) == RunAll(step, o2, s)
    decreases |o1|
  {
    OrderSize(progs, o1);
    OrderSize(progs, o2);
    if o1 != [] {
      var p := o1[0];
      assert p in o1;
      var k :| 0 <= k < |o2| && o2[k] == p;
      OrderWithout(progs, o1, 0);
      OrderWithout(progs, o2, k);
      forall i | 0 <= i < |o2| ensures o2[i] in all { assert o2[i] in o2; }
      forall i | 0 <= i < |o1| ensures o1[i] in all { assert o1[i] in o1; }
      MoveToFront(step, ok, all, o1, 0, s);
      MoveToFront(step, ok, all, o2, k, s);
      OrdersAgree(step, ok, all, progs - {p}, Without(o1, 0), Without(o2, k), step(p, s));
    }
  }

  /** One program run to completion; a program the tensors are too small for does nothing here. */
  ghost function Step(p: Prog, m: Mem): Mem {
    if Ready(p, m) then Eff(p, m) else m
  }

  ghost predicate AllReady(progs: set<Prog>, m: Mem) {
    forall p :: p in progs ==> Ready(p, m)
  }

  lemma StaysReady(progs: set<Prog>, p: Prog, m: Mem)
    requires AllReady(progs, m) && p in progs
    ensures AllReady(progs, Step(p, m))
  {
    EffectKeepsShape(p, m);
    forall q | q in progs
      ensures Ready(q, Step(p, m))
    {
      ReadyElsewhere(q, m, Step(p, m));
    }
  }

  /** Every execution order of a pairwise independent grid leaves the same tensors. */
  lemma OrderDoesNotMatter(progs: set<Prog>, o1: seq<Prog>, o2: seq<Prog>, m: Mem)
    requires Order(progs, o1) && Order(progs, o2) && AllReady(progs, m)
    requires forall a, b :: a in progs && b in progs && a != b ==> Independent(a, b)
    ensures RunAll(Step, o1, m) == RunAll(Step, o2, m)
  {
    var ok := (n: Mem) => AllReady(progs, n);
    forall p, n | p in progs && ok(n)
      ensures ok(Step(p, n))
    {
      StaysReady(progs, p, n);
    }
    forall p, q, n | p in progs && q in progs && p != q && ok(n)
      ensures Step(q, Step(p, n)) == Step(p, Step(q, n))
    {
      Commute(p, q, n);
    }
    OrdersAgree(Step, ok, progs, progs, o1, o2, m);
  }

  // ----------------------------------------------------- the programs of a launch

  /** No two requests share a slot one of them stores to. */
  ghost predicate SlotsDisjoint(l: Launch, batch: nat)
    requires forall b, d :: 0 <= b < batch && 0 <= d < l.dims ==> LaunchOk(l, b, d)
  {
    forall b, c, d :: 0 <= b < batch && 0 <= c < batch && b != c && 0 <= d < l.dims ==>
      TaskOf(l, b, d).skip || TaskOf(l, c, d).skip || SlotsApart(TaskOf(l, b, d), TaskOf(l, c, d))
  }

  lemma {:induction false} StartsMonotone(starts: seq<nat>, i: nat, j: nat)
    requires i <= j < |starts| && forall b :: 0 <= b < |starts| - 1 ==> starts[b] <= starts[b + 1]
    ensures starts[i] <= starts[j]
    decreases j
  {
    if i < j {
      StartsMonotone(starts, i, j - 1);
      assert starts[j - 1] <= starts[j - 1 + 1];
    }
  }

  lemma RowsDiffer(b: nat, d: nat, c: nat, e: nat, dims: nat)
    requires d < dims && e < dims && b * dims + d == c * dims + e
    ensures b == c && d == e
  {
    assert (b - c) * dims == e - d;
    SmallMultiple(b - c, dims);
  }

  /** Two different programs of one launch are independent. */
  lemma LaunchIsIndependent(l: Launch, batch: nat, b: nat, d: nat, c: nat, e: nat, x: Inputs, y: Inputs)
    requires forall i, j :: 0 <= i < batch && 0 <= j < l.dims ==> LaunchOk(l, i, j)
    requires SlotsDisjoint(l, batch) && b < batch && c < batch && d < l.dims && e < l.dims && (b != c || d != e)
    requires l.queryStart.Some? ==> forall i :: 0 <= i < |l.queryStart.value| - 1 ==> l.queryStart.value[i] <= l.queryStart.value[i + 1]
    ensures Independent(Prog(x, TaskOf(l, b, d)), Prog(y, TaskOf(l, c, e)))
  {
    assert LaunchOk(l, b, d) && LaunchOk(l, c, e);
    var s, t := TaskOf(l, b, d), TaskOf(l, c, e);
    if !s.skip && !t.skip {
      if l.queryStart.Some? {
        if d == e {
          if b < c { StartsMonotone(l.queryStart.value, b + 1, c); } else { StartsMonotone(l.queryStart.value, c + 1, b); }
        }
      } else if RowOf(l, b, d) == RowOf(l, c, e) {
        RowsDiffer(b, d, c, e, l.dims);
      }
    }
  }

  // ------------------------------------------------------- the grid of a launch

  /** The launch is well formed for every request and channel, requests own their slots, and ranges do not overlap. */
  ghost predicate GridOk(l: Launch, batch: nat) {
    && (forall b, d :: 0 <= b < batch && 0 <= d < l.dims ==> LaunchOk(l, b, d))
    && SlotsDisjoint(l, batch)
    && (l.queryStart.Some? ==> forall i :: 0 <= i < |l.queryStart.value| - 1 ==> l.queryStart.value[i] <= l.queryStart.value[i + 1])
  }

  ghost predicate InGrid(l: Launch, batch: nat, id: (nat, nat)) { id.0 < batch && id.1 < l.dims }

  /** One program of the grid run to completion. */
  ghost function StepAt(l: Launch, inputs: (nat, nat) -> Inputs, id: (nat, nat), m: Mem): Mem {
    if LaunchOk(l, id.0, id.1) then Step(Prog(inputs(id.0, id.1), TaskOf(l, id.0, id.1)), m) else m
  }

  ghost predicate GridReady(l: Launch, batch: nat, inputs: (nat, nat) -> Inputs, m: Mem)
    requires GridOk(l, batch)
  {
    forall b: nat, d: nat :: b < batch && d < l.dims ==> Ready(Prog(inputs(b, d), TaskOf(l, b, d)), m)
  }

  lemma StepKeepsReady(l: Launch, batch: nat, inputs: (nat, nat) -> Inputs, id: (nat, nat), m: Mem)
    requires GridOk(l, batch) && InGrid(l, batch, id) && GridReady(l, batch, inputs, m)
    ensures GridReady(l, batch, inputs, StepAt(l, inputs, id, m))
  {
    assert LaunchOk(l, id.0, id.1);
    var p := Prog(inputs(id.0, id.1), TaskOf(l, id.0, id.1));
    EffectKeepsShape(p, m);
    forall b: nat, d: nat | b < batch && d < l.dims
      ensures Ready(Prog(inputs(b, d), TaskOf(l, b, d)), Step(p, m))
    {
      ReadyElsewhere(Prog(inputs(b, d), TaskOf(l, b, d)), m, Step(p, m));
    }
  }

  lemma StepsCommute(l: Launch, batch: nat, inputs: (nat, nat) -> Inputs, p: (nat, nat), q: (nat, nat), m: Mem)
    requires GridOk(l, batch) && InGrid(l, batch, p) && InGrid(l, batch, q) && p != q && GridReady(l, batch, inputs, m)
    ensures StepAt(l, inputs, q, StepAt(l, inputs, p, m)) == StepAt(l, inputs, p, StepAt(l, inputs, q, m))
  {
    assert LaunchOk(l, p.0, p.1) && LaunchOk(l, q.0, q.1);
    LaunchIsIndependent(l, batch, p.0, p.1, q.0, q.1, inputs(p.0, p.1), inputs(q.0, q.1));
    Commute(Prog(inputs(p.0, p.1), TaskOf(l, p.0, p.1)), Prog(inputs(q.0, q.1), TaskOf(l, q.0, q.1)), m);
  }

  /** Whatever order the programs of a launch run in, each once, they leave the same tensors. */
  lemma LaunchOrderDoesNotMatter(l: Launch, batch: nat, inputs: (nat, nat) -> Inputs, grid: set<(nat, nat)>,
                                 o1: seq<(nat, nat)>, o2: seq<(nat, nat)>, m: Mem)
    requires GridOk(l, batch) && GridReady(l, batch, inputs, m)
    requires (forall id :: id in grid <==> InGrid(l, batch, id)) && Order(grid, o1) && Order(grid, o2)
    ensures RunAll((id, n) => StepAt(l, inputs, id, n), o1, m) == RunAll((id, n) => StepAt(l, inputs, id, n), o2, m)
  {
    var step := (id, n) => StepAt(l, inputs, id, n);
    var ok := (n: Mem) => GridReady(l, batch, inputs, n);
    forall p, n | p in grid && ok(n)
      ensures ok(step(p, n))
    {
      StepKeepsReady(l, batch, inputs, p, n);
    }
    forall p, q, n | p in grid && q in grid && p != q && ok(n)
      ensures step(q, step(p, n)) == step(p, step(q, n))
    {
      StepsCommute(l, batch, inputs, p, q, n);
    }
    OrdersAgree(step, ok, grid, grid, o1, o2, m);
  }
}
