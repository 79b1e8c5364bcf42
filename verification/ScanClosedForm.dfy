/**
 What the scan computes, in closed form and over exact arithmetic: lane i of the state
 after n tokens is
   s0[i] * exp(A[i] * sum of all steps) + sum over j of exp(A[i] * sum of the steps after j) * step[j] * u[j] * B[j][i],
 an output is the dot product of that state with C plus D * u, and the gated output is the output times z / (1 + exp(-z)).
 */
module ScanClosedForm {
  import opened Options
  import opened SelectiveScan

  /** Sums, products and quotients are exact, and `exp` turns sums into products. */
  ghost predicate Exact(ar: Arith) {
    && (forall x, y :: ar.add(x, y) == x + y)
    && (forall x, y :: ar.mul(x, y) == x * y)
    && (forall x, y :: y != 0.0 ==> ar.div(x, y) == x / y)
    && IsExp(ar.exp)
  }

  ghost predicate IsExp(exp: real -> real) {
    exp(0.0) == 1.0 && forall x, y {:trigger Multiplies(exp, x, y)} :: Multiplies(exp, x, y)
  }

  ghost predicate Multiplies(exp: real -> real, x: real, y: real) { exp(x + y) == exp(x) * exp(y) }

  // -------------------------------------------------------------- one lane

  /** The sum of the steps from `lo` up to `hi`. */
  ghost function Elapsed(steps: seq<real>, lo: nat, hi: nat): real
    requires lo <= hi <= |steps|
  { if lo == hi then 0.0 else Elapsed(steps, lo, hi - 1) + steps[hi - 1] }

  /** By how much a lane has decayed after the given sum of steps. */
  ghost function Decayed(exp: real -> real, a: real, elapsed: real): real { exp(a * elapsed) }

  ghost function Product(x: real, y: real): real { x * y }

  /** What a token feeds into a lane. */
  ghost function Fed(step: real, u: real, b: real): real { step * u * b }

  ghost function FedAt(steps: seq<real>, us: seq<real>, bs: seq<real>, j: nat): real
    requires j < |steps| == |us| == |bs|
  { Fed(steps[j], us[j], bs[j]) }

  /** A lane after one more token. */
  ghost function Next(decay: real, lane: real, fed: real): real { decay * lane + fed }

  /** What the first `m` tokens contribute to the lane after `n` tokens. */
  ghost function Contributed(exp: real -> real, a: real, steps: seq<real>, us: seq<real>, bs: seq<real>, m: nat, n: nat): real
    requires m <= n <= |steps| == |us| == |bs|
  {
    if m == 0 then 0.0
    else Contributed(exp, a, steps, us, bs, m - 1, n) + Product(Decayed(exp, a, Elapsed(steps, m, n)), FedAt(steps, us, bs, m - 1))
  }

  ghost function LaneAfter(exp: real -> real, a: real, s0: real, steps: seq<real>, us: seq<real>, bs: seq<real>, n: nat): real
    requires n <= |steps| == |us| == |bs|
  { Product(s0, Decayed(exp, a, Elapsed(steps, 0, n))) + Contributed(exp, a, steps, us, bs, n, n) }

  lemma DecayedOverSum(exp: real -> real, a: real, x: real, y: real)
    requires IsExp(exp)
    ensures Decayed(exp, a, x + y) == Decayed(exp, a, x) * Decayed(exp, a, y)
  {
    var p, q := a * x, a * y;
    assert a * (x + y) == p + q;
    assert Multiplies(exp, p, q);
  }

  lemma NothingDecayed(exp: real -> real, a: real)
    requires IsExp(exp)
    ensures Decayed(exp, a, 0.0) == 1.0
  {
    assert a * 0.0 == 0.0;
  }

  lemma DecayGrows(exp: real -> real, a: real, steps: seq<real>, lo: nat, n: nat)
    requires IsExp(exp) && lo <= n < |steps|
    ensures Decayed(exp, a, Elapsed(steps, lo, n + 1)) == Product(Decayed(exp, a, Elapsed(steps, lo, n)), Decayed(exp, a, steps[n]))
  {
    assert Elapsed(steps, lo, n + 1) == Elapsed(steps, lo, n) + steps[n];
    DecayedOverSum(exp, a, Elapsed(steps, lo, n), steps[n]);
  }

  lemma SumDecays(f: real, f': real, e: real, e': real, w: real, d: real)
    requires f' == Product(f, d) && e' == Product(e, d)
    ensures f' + Product(e', w) == Product(f + Product(e, w), d)
  {
    assert (e * d) * w == (e * w) * d;
  }

  lemma {:induction false} ContributedDecays(exp: real -> real, a: real, steps: seq<real>, us: seq<real>, bs: seq<real>, m: nat, n: nat)
    requires IsExp(exp) && m <= n < |steps| == |us| == |bs|
    ensures Contributed(exp, a, steps, us, bs, m, n + 1) == Product(Contributed(exp, a, steps, us, bs, m, n), Decayed(exp, a, steps[n]))
  {
    if m > 0 {
      ContributedDecays(exp, a, steps, us, bs, m - 1, n);
      DecayGrows(exp, a, steps, m, n);
      SumDecays(Contributed(exp, a, steps, us, bs, m - 1, n), Contributed(exp, a, steps, us, bs, m - 1, n + 1),
                Decayed(exp, a, Elapsed(steps, m, n)), Decayed(exp, a, Elapsed(steps, m, n + 1)),
                FedAt(steps, us, bs, m - 1), Decayed(exp, a, steps[n]));
    }
  }

  lemma LaneAddsUp(s0: real, now: real, now': real, c: real, c': real, d: real)
    requires now' == Product(now, d) && c' == Product(c, d)
    ensures Product(s0, now') + c' == d * (Product(s0, now) + c)
  {
    assert s0 * (now * d) == d * (s0 * now);
  }

  /** The closed form obeys the recurrence. */
  lemma LaneStep(exp: real -> real, a: real, s0: real, steps: seq<real>, us: seq<real>, bs: seq<real>, n: nat)
    requires IsExp(exp) && n < |steps| == |us| == |bs|
    ensures LaneAfter(exp, a, s0, steps, us, bs, n + 1) ==
            Next(Decayed(exp, a, steps[n]), LaneAfter(exp, a, s0, steps, us, bs, n), FedAt(steps, us, bs, n))
  {
    DecayGrows(exp, a, steps, 0, n);
    ContributedDecays(exp, a, steps, us, bs, n, n);
    LastContribution(exp, a, steps, us, bs, n);
    LaneAddsUp(s0, Decayed(exp, a, Elapsed(steps, 0, n)), Decayed(exp, a, Elapsed(steps, 0, n + 1)),
               Contributed(exp, a, steps, us, bs, n, n), Contributed(exp, a, steps, us, bs, n, n + 1), Decayed(exp, a, steps[n]));
  }

  lemma LastContribution(exp: real -> real, a: real, steps: seq<real>, us: seq<real>, bs: seq<real>, n: nat)
    requires IsExp(exp) && n < |steps| == |us| == |bs|
    ensures Contributed(exp, a, steps, us, bs, n + 1, n + 1) == Contributed(exp, a, steps, us, bs, n, n + 1) + FedAt(steps, us, bs, n)
  {
    assert Elapsed(steps, n + 1, n + 1) == 0.0;
    NothingDecayed(exp, a);
  }

  /** The recurrence over exact arithmetic. */
  lemma LaneIs(ar: Arith, a: real, s: real, step: real, u: real, b: real)
    requires Exact(ar)
    ensures Lane(ar, a, s, step, ar.mul(step, u), b) == Next(Decayed(ar.exp, a, step), s, Fed(step, u, b))
  {
    assert step * a == a * step;
  }

  // ---------------------------------------------------------- the whole scan

  /** The step of a token: its delta plus the bias, through log(1 + exp) up to 20 if asked for. */
  ghost function StepOf(ch: Channel, delta: real): real {
    var d := if ch.deltaBias.Some? then delta + ch.deltaBias.value else delta;
    if ch.softplus && d <= 20.0 then ch.ar.log(1.0 + ch.ar.exp(d)) else d
  }

  lemma StepIs(ch: Channel, delta: real)
    requires Exact(ch.ar)
    ensures StepSize(ch, delta) == StepOf(ch, delta)
  {
    var d := if ch.deltaBias.Some? then delta + ch.deltaBias.value else delta;
    assert ch.ar.exp(d) + 1.0 == 1.0 + ch.ar.exp(d);
  }

  ghost function SumOfProducts(s: Vec, c: Vec): real
    requires |s| == |c|
  { if s == [] then 0.0 else SumOfProducts(s[..|s| - 1], c[..|s| - 1]) + Product(s[|s| - 1], c[|s| - 1]) }

  /** The state times C, and the skip connection. */
  ghost function ReadOut(ch: Channel, s: Vec, t: Token): real
    requires |s| == |t.C|
  { SumOfProducts(s, t.C) + if ch.D.Some? then Product(ch.D.value, t.u) else 0.0 }

  ghost predicate AdvancesAt(ch: Channel, s: Vec, t: Token, i: nat)
    requires i < |s| == |ch.A| == |t.B|
  {
    var step := StepOf(ch, t.delta);
    Advance(ch, s, t)[i] == Next(Decayed(ch.ar.exp, ch.A[i], step), s[i], Fed(step, t.u, t.B[i]))
  }

  ghost predicate ReadsOut(ch: Channel, s: Vec, t: Token)
    requires |s| == |t.C|
  { Output(ch, s, t) == ReadOut(ch, s, t) }

  /** `gated` is y * z divided by 1 + exp(-z), multiplied out. */
  ghost predicate IsGated(exp: real -> real, y: real, z: real, gated: real) {
    1.0 + exp(-z) != 0.0 ==> gated * (1.0 + exp(-z)) == y * z
  }

  ghost predicate GatesOut(ar: Arith, y: real, z: real) { IsGated(ar.exp, y, z, Gate(ar, y, z)) }

  /** One token, written out over exact arithmetic. */
  ghost predicate ExactSteps(ch: Channel) {
    && IsExp(ch.ar.exp)
    && (forall s: Vec, t: Token, i: nat {:trigger AdvancesAt(ch, s, t, i)} :: i < |s| == |ch.A| == |t.B| ==> AdvancesAt(ch, s, t, i))
    && (forall s: Vec, t: Token {:trigger ReadsOut(ch, s, t)} :: |s| == |t.C| ==> ReadsOut(ch, s, t))
    && (forall y, z {:trigger GatesOut(ch.ar, y, z)} :: GatesOut(ch.ar, y, z))
  }

  lemma AdvanceIs(ch: Channel, s: Vec, t: Token, i: nat)
    requires Exact(ch.ar) && i < |s| == |ch.A| == |t.B|
    ensures AdvancesAt(ch, s, t, i)
  {
    StepIs(ch, t.delta);
    LaneIs(ch.ar, ch.A[i], s[i], StepOf(ch, t.delta), t.u, t.B[i]);
  }

  lemma {:induction false} DotIs(ar: Arith, s: Vec, c: Vec)
    requires Exact(ar) && |s| == |c|
    ensures Dot(ar, s, c) == SumOfProducts(s, c)
  {
    if s != [] {
      DotIs(ar, s[..|s| - 1], c[..|s| - 1]);
    }
  }

  lemma GateIs(ar: Arith, y: real, z: real)
    requires Exact(ar)
    ensures GatesOut(ar, y, z)
  {
    var n, d := y * z, 1.0 + ar.exp(-z);
    assert d != 0.0 ==> Gate(ar, y, z) == n / d;
  }

  lemma StepsAreExact(ch: Channel)
    requires Exact(ch.ar)
    ensures ExactSteps(ch)
  {
    forall s: Vec, t: Token, i: nat | i < |s| == |ch.A| == |t.B| ensures AdvancesAt(ch, s, t, i) { AdvanceIs(ch, s, t, i); }
    forall s: Vec, t: Token | |s| == |t.C| ensures ReadsOut(ch, s, t) { DotIs(ch.ar, s, t.C); }
    forall y, z ensures GatesOut(ch.ar, y, z) { GateIs(ch.ar, y, z); }
  }

  ghost function Steps(ch: Channel, ts: seq<Token>): (r: seq<real>)
    ensures |r| == |ts|
  { seq(|ts|, j requires 0 <= j < |ts| => StepOf(ch, ts[j].delta)) }

  ghost function Us(ts: seq<Token>): (r: seq<real>)
    ensures |r| == |ts|
  { seq(|ts|, j requires 0 <= j < |ts| => ts[j].u) }

  /** Lane `i` of B, token by token. */
  ghost function Bs(ch: Channel, ts: seq<Token>, i: nat): (r: seq<real>)
    requires TokensOk(ch, ts) && i < |ch.A|
    ensures |r| == |ts|
  { seq(|ts|, j requires 0 <= j < |ts| => assert TokenOk(ch, ts[j]); ts[j].B[i]) }

  ghost function LaneOf(ch: Channel, s: Vec, ts: seq<Token>, i: nat, n: nat): real
    requires TokensOk(ch, ts) && i < |ch.A| == |s| && n <= |ts|
  { LaneAfter(ch.ar.exp, ch.A[i], s[i], Steps(ch, ts), Us(ts), Bs(ch, ts, i), n) }

  /** The state after `n` tokens, from `s`. */
  ghost function StateAfter(ch: Channel, s: Vec, ts: seq<Token>, n: nat): (r: Vec)
    requires TokensOk(ch, ts) && |ch.A| == |s| && n <= |ts|
    ensures |r| == |ch.A|
  { seq(|ch.A|, i requires 0 <= i < |ch.A| => LaneOf(ch, s, ts, i, n)) }

  ghost function OutputAfter(ch: Channel, s: Vec, ts: seq<Token>, j: nat): real
    requires TokensOk(ch, ts) && |ch.A| == |s| && j < |ts|
  {
    assert TokenOk(ch, ts[j]);
    ReadOut(ch, StateAfter(ch, s, ts, j + 1), ts[j])
  }

  lemma NextLane(ch: Channel, s: Vec, ts: seq<Token>, i: nat, j: nat, next: real)
    requires TokensOk(ch, ts) && IsExp(ch.ar.exp) && i < |ch.A| == |s| && j < |ts| && TokenOk(ch, ts[j])
    requires var step := StepOf(ch, ts[j].delta);
      next == Next(Decayed(ch.ar.exp, ch.A[i], step), LaneOf(ch, s, ts, i, j), Fed(step, ts[j].u, ts[j].B[i]))
    ensures next == LaneOf(ch, s, ts, i, j + 1)
  {
    LaneStep(ch.ar.exp, ch.A[i], s[i], Steps(ch, ts), Us(ts), Bs(ch, ts, i), j);
  }

  lemma LaneAdvances(ch: Channel, s: Vec, ts: seq<Token>, i: nat, j: nat)
    requires TokensOk(ch, ts) && ExactSteps(ch) && i < |ch.A| == |s| && j < |ts|
    requires States(ch, s, ts)[j][i] == LaneOf(ch, s, ts, i, j)
    ensures States(ch, s, ts)[j + 1][i] == LaneOf(ch, s, ts, i, j + 1)
  {
    StatesStep(ch, s, ts, j);
    assert TokenOk(ch, ts[j]);
    assert AdvancesAt(ch, States(ch, s, ts)[j], ts[j], i);
    NextLane(ch, s, ts, i, j, Advance(ch, States(ch, s, ts)[j], ts[j])[i]);
  }

  lemma {:induction false} LaneIsClosed(ch: Channel, s: Vec, ts: seq<Token>, i: nat, n: nat)
    requires TokensOk(ch, ts) && ExactSteps(ch) && i < |ch.A| == |s| && n <= |ts|
    ensures States(ch, s, ts)[n][i] == LaneOf(ch, s, ts, i, n)
  {
    if n == 0 {
      NothingDecayed(ch.ar.exp, ch.A[i]);
    } else {
      LaneIsClosed(ch, s, ts, i, n - 1);
      LaneAdvances(ch, s, ts, i, n - 1);
    }
  }

  /** Every state of a run is the closed form. */
  lemma StateIsClosed(ch: Channel, s: Vec, ts: seq<Token>, n: nat)
    requires TokensOk(ch, ts) && ExactSteps(ch) && |ch.A| == |s| && n <= |ts|
    ensures States(ch, s, ts)[n] == StateAfter(ch, s, ts, n)
  {
    var l, r := States(ch, s, ts)[n], StateAfter(ch, s, ts, n);
    forall i | 0 <= i < |l| ensures l[i] == r[i] { LaneIsClosed(ch, s, ts, i, n); }
  }

  lemma OutIs(ch: Channel, s: Vec, ts: seq<Token>, j: nat)
    requires TokensOk(ch, ts) && |ch.A| == |s| && j < |ts|
    ensures |States(ch, s, ts)[j + 1]| == |ts[j].C| && Scan(ch, s, ts).outs[j] == Output(ch, States(ch, s, ts)[j + 1], ts[j])
  {
    assert TokenOk(ch, ts[j]);
  }

  /** Every output of a run is the closed form. */
  lemma OutputIsClosed(ch: Channel, s: Vec, ts: seq<Token>, j: nat)
    requires TokensOk(ch, ts) && ExactSteps(ch) && |ch.A| == |s| && j < |ts|
    ensures Scan(ch, s, ts).outs[j] == OutputAfter(ch, s, ts, j)
  {
    OutIs(ch, s, ts, j);
    StateIsClosed(ch, s, ts, j + 1);
    assert ReadsOut(ch, StateAfter(ch, s, ts, j + 1), ts[j]);
  }

  // ------------------------------------------------ what a program leaves behind

  /** The tokens of a task, read off the tensors position by position. */
  ghost predicate Reads(x: Inputs, t: Task, m: Mem, ts: seq<Token>)
    requires Fits(x, t, m)
  {
    && |ts| == t.len
    && forall j :: 0 <= j < t.len ==>
         && ts[j].u == x.u[t.start + j] && ts[j].delta == m.delta[t.row][t.start + j]
         && ts[j].B == x.B[t.start + j] && ts[j].C == x.C[t.start + j]
         && ts[j].z == if x.hasZ then m.z[t.row][t.start + j] else 0.0
  }

  /** The state before the first token: that of the slot it is loaded from, or zero. */
  ghost predicate Begins(x: Inputs, t: Task, m: Mem, s: Vec)
    requires Fits(x, t, m)
  {
    |s| == |x.ch.A| && forall i :: 0 <= i < |s| ==> s[i] == if t.hasInit then m.ssm[t.dim][t.loadSlot][i] else 0.0
  }

  /** Position `j` of the outputs and gated outputs. */
  ghost predicate ClosedAt(x: Inputs, t: Task, s: Vec, ts: seq<Token>, after: Mem, j: nat)
    requires TokensOk(x.ch, ts) && |x.ch.A| == |s| && j < |ts|
  {
    var i, y := t.start + j, OutputAfter(x.ch, s, ts, j);
    && t.row < |after.delta| && i < |after.delta[t.row]| && after.delta[t.row][i] == y
    && (x.hasZ ==> t.row < |after.z| && i < |after.z[t.row]| && IsGated(x.ch.ar.exp, y, ts[j].z, after.z[t.row][i]))
  }

  /** The last checkpoint holds the state after its tokens. */
  ghost predicate LastStateClosed(x: Inputs, t: Task, s: Vec, ts: seq<Token>, after: Mem)
    requires TokensOk(x.ch, ts) && |x.ch.A| == |s|
  {
    t.stores != [] ==>
      var last := t.stores[|t.stores| - 1];
      && t.dim < |after.ssm| && last.slot < |after.ssm[t.dim]| && last.tokens <= |ts|
      && after.ssm[t.dim][last.slot] == StateAfter(x.ch, s, ts, last.tokens)
  }

  ghost predicate InClosedForm(x: Inputs, t: Task, s: Vec, ts: seq<Token>, after: Mem)
    requires TokensOk(x.ch, ts) && |x.ch.A| == |s|
  {
    && (forall j: nat {:trigger ClosedAt(x, t, s, ts, after, j)} :: j < |ts| ==> ClosedAt(x, t, s, ts, after, j))
    && LastStateClosed(x, t, s, ts, after)
  }

  lemma OverwriteAt(row: Row, start: nat, values: seq<real>, j: nat)
    requires start + |values| <= |row| && j < |values|
    ensures Overwrite(row, start, values)[start + j] == values[j]
  {
  }

  /** Where a trace is written. */
  lemma TraceAt(hasZ: bool, t: Task, m: Mem, tr: Trace, j: nat)
    requires t.row < |m.delta| && t.start + |tr.outs| <= |m.delta[t.row]| && j < |tr.outs| == |tr.gates|
    requires hasZ ==> t.row < |m.z| && t.start + |tr.gates| <= |m.z[t.row]|
    requires t.dim < |m.ssm| && StoresFit(tr.states, m.ssm[t.dim], t.stores)
    ensures var after := WriteTrace(hasZ, t, m, tr);
      && t.row < |after.delta| && t.start + j < |after.delta[t.row]| && after.delta[t.row][t.start + j] == tr.outs[j]
      && (hasZ ==> t.row < |after.z| && t.start + j < |after.z[t.row]| && after.z[t.row][t.start + j] == tr.gates[j])
  {
    OverwriteAt(m.delta[t.row], t.start, tr.outs, j);
    if hasZ { OverwriteAt(m.z[t.row], t.start, tr.gates, j); }
  }

  lemma GateIsClosed(ch: Channel, s: Vec, ts: seq<Token>, j: nat)
    requires TokensOk(ch, ts) && ExactSteps(ch) && |ch.A| == |s| && j < |ts|
    ensures IsGated(ch.ar.exp, OutputAfter(ch, s, ts, j), ts[j].z, Scan(ch, s, ts).gates[j])
  {
    OutputIsClosed(ch, s, ts, j);
    assert GatesOut(ch.ar, Scan(ch, s, ts).outs[j], ts[j].z);
  }

  lemma WrittenAt(x: Inputs, t: Task, m: Mem, s: Vec, ts: seq<Token>, j: nat)
    requires Fits(x, t, m) && TokensOk(x.ch, ts) && ExactSteps(x.ch) && |x.ch.A| == |s| && j < |ts| == t.len
    requires StoresFit(Scan(x.ch, s, ts).states, m.ssm[t.dim], t.stores)
    ensures ClosedAt(x, t, s, ts, WriteTrace(x.hasZ, t, m, Scan(x.ch, s, ts)), j)
  {
    TraceAt(x.hasZ, t, m, Scan(x.ch, s, ts), j);
    OutputIsClosed(x.ch, s, ts, j);
    GateIsClosed(x.ch, s, ts, j);
  }

  /** The effect of a program, over exact arithmetic. */
  lemma EffectIsClosed(x: Inputs, t: Task, m: Mem, s: Vec, ts: seq<Token>)
    requires Fits(x, t, m) && !t.skip && Exact(x.ch.ar) && Reads(x, t, m, ts) && Begins(x, t, m, s)
    ensures TokensOk(x.ch, ts) && InClosedForm(x, t, s, ts, Effect(x, t, m))
  {
    StepsAreExact(x.ch);
    assert ts == Tokens(x, t, m);
    assert s == InitialState(x, t, m);
    forall j: nat | j < |ts| ensures ClosedAt(x, t, s, ts, Effect(x, t, m), j) { WrittenAt(x, t, m, s, ts, j); }
    if t.stores != [] { StateIsClosed(x.ch, s, ts, t.stores[|t.stores| - 1].tokens); }
  }

  /** `ts` are the tokens and `s` the state that the task found; over exact arithmetic it left their closed form. */
  ghost predicate Leaves(x: Inputs, t: Task, m: Mem, s: Vec, ts: seq<Token>, after: Mem)
    requires Fits(x, t, m)
  {
    && Reads(x, t, m, ts) && Begins(x, t, m, s)
    && (Exact(x.ch.ar) ==> TokensOk(x.ch, ts) && InClosedForm(x, t, s, ts, after))
  }

  lemma EffectLeaves(x: Inputs, t: Task, m: Mem) returns (s: Vec, ts: seq<Token>)
    requires Fits(x, t, m) && !t.skip
    ensures Leaves(x, t, m, s, ts, Effect(x, t, m))
  {
    s, ts := InitialState(x, t, m), Tokens(x, t, m);
    assert Reads(x, t, m, ts) && Begins(x, t, m, s);
    ClosedIfExact(x, t, m, s, ts);
  }

  lemma ClosedIfExact(x: Inputs, t: Task, m: Mem, s: Vec, ts: seq<Token>)
    requires Fits(x, t, m) && !t.skip && Reads(x, t, m, ts) && Begins(x, t, m, s)
    ensures Exact(x.ch.ar) ==> TokensOk(x.ch, ts) && InClosedForm(x, t, s, ts, Effect(x, t, m))
  {
    if Exact(x.ch.ar) { EffectIsClosed(x, t, m, s, ts); }
  }
}
