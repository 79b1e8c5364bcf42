/**
 The selective-scan kernel: one program per (request, channel) runs a linear
 recurrence over the request's tokens, writes its outputs over its inputs, and
 checkpoints the state into cache slots at the end of every chunk.

 The arithmetic is a parameter: only the two laws that make padding harmless are
 assumed of it, so the results hold for exact reals and for any rounding.
 */
module SelectiveScan {
  import opened Options

  type Vec = seq<real>
  type Row = seq<real>

  // ---------------------------------------------------------------- arithmetic

  datatype Arith = Arith(
    add: (real, real) -> real,
    mul: (real, real) -> real,
    div: (real, real) -> real,
    exp: real -> real,
    log: real -> real)

  /** Zero absorbs products and is neutral on the right of sums. */
  ghost predicate Lawful(ar: Arith) {
    && (forall x :: ar.mul(x, 0.0) == 0.0)
    && (forall x :: ar.add(x, 0.0) == x)
  }

  function Quotient(x: real, y: real): real { if y == 0.0 then 0.0 else x / y }

  /** Exact arithmetic, with some `exp` and `log`, obeys the laws. */
  lemma ExactIsLawful(exp: real -> real, log: real -> real)
    ensures Lawful(Arith((x: real, y: real) => x + y, (x: real, y: real) => x * y,
                         (x: real, y: real) => Quotient(x, y), exp, log))
  {
  }

  // ------------------------------------------------------------ the recurrence

  /** What one channel needs: its decay row A (one entry per state), skip weight, bias and switches. */
  datatype Channel = Channel(
    ar: Arith,
    A: Vec,
    D: Option<real>,
    deltaBias: Option<real>,
    softplus: bool)

  datatype Token = Token(u: real, delta: real, B: Vec, C: Vec, z: real)

  function Softplus(ar: Arith, x: real): real {
    if x <= 20.0 then ar.log(ar.add(ar.exp(x), 1.0)) else x
  }

  function StepSize(ch: Channel, delta: real): real {
    var biased := if ch.deltaBias.Some? then ch.ar.add(delta, ch.deltaBias.value) else delta;
    if ch.softplus then Softplus(ch.ar, biased) else biased
  }

  /** One entry of the recurrence: decay the state by exp(step * a) and add du * b. */
  function Lane(ar: Arith, a: real, s: real, step: real, du: real, b: real): real {
    ar.add(ar.mul(ar.exp(ar.mul(step, a)), s), ar.mul(du, b))
  }

  function DecayAdd(ar: Arith, a: Vec, s: Vec, step: real, du: real, b: Vec): Vec
    requires |a| == |s| == |b|
  {
    seq(|a|, n requires 0 <= n < |a| => Lane(ar, a[n], s[n], step, du, b[n]))
  }

  function Dot(ar: Arith, s: Vec, c: Vec): real
    requires |s| == |c|
  {
    if s == [] then 0.0 else ar.add(Dot(ar, s[..|s| - 1], c[..|s| - 1]), ar.mul(s[|s| - 1], c[|s| - 1]))
  }

  ghost predicate TokenOk(ch: Channel, t: Token) { |t.B| == |ch.A| == |t.C| }

  ghost predicate TokensOk(ch: Channel, ts: seq<Token>) {
    forall i :: 0 <= i < |ts| ==> TokenOk(ch, ts[i])
  }

  function Advance(ch: Channel, s: Vec, t: Token): Vec
    requires |s| == |ch.A| == |t.B|
  {
    DecayAdd(ch.ar, ch.A, s, StepSize(ch, t.delta), ch.ar.mul(StepSize(ch, t.delta), t.u), t.B)
  }

  function Output(ch: Channel, s: Vec, t: Token): real
    requires |s| == |t.C|
  {
    var y := Dot(ch.ar, s, t.C);
    if ch.D.Some? then ch.ar.add(y, ch.ar.mul(ch.D.value, t.u)) else y
  }

  /** y * z / (1 + exp(-z)). */
  function Gate(ar: Arith, y: real, z: real): real {
    ar.div(ar.mul(y, z), ar.add(1.0, ar.exp(-z)))
  }

  /**
   A run written out: the state before the first token and after each one, the output
   of each token, and the output after gating.
   */
  datatype Trace = Trace(states: seq<Vec>, outs: seq<real>, gates: seq<real>)

  ghost predicate TraceShape(ch: Channel, tr: Trace, n: nat) {
    && |tr.states| == n + 1 && |tr.outs| == |tr.gates| == n
    && (forall i :: 0 <= i <= n ==> |tr.states[i]| == |ch.A|)
  }

  /** The states of a run: a plain left fold over the tokens. */
  function States(ch: Channel, s: Vec, ts: seq<Token>): (r: seq<Vec>)
    requires |s| == |ch.A| && TokensOk(ch, ts)
    ensures |r| == |ts| + 1 && r[0] == s
    ensures forall i :: 0 <= i <= |ts| ==> |r[i]| == |ch.A|
  {
    if ts == [] then [s]
    else
      var r := States(ch, s, ts[..|ts| - 1]);
      r + [Advance(ch, r[|ts| - 1], ts[|ts| - 1])]
  }

  /** The outputs of a run, each from the state just after its token. */
  function Outs(ch: Channel, states: seq<Vec>, ts: seq<Token>): (r: seq<real>)
    requires |states| == |ts| + 1 && forall i :: 0 <= i < |ts| ==> |states[i + 1]| == |ts[i].C|
    ensures |r| == |ts|
    ensures forall i :: 0 <= i < |ts| ==> r[i] == Output(ch, states[i + 1], ts[i])
  {
    seq(|ts|, i requires 0 <= i < |ts| => Output(ch, states[i + 1], ts[i]))
  }

  function Gates(ch: Channel, outs: seq<real>, ts: seq<Token>): (r: seq<real>)
    requires |outs| == |ts|
    ensures |r| == |ts|
    ensures forall i :: 0 <= i < |ts| ==> r[i] == Gate(ch.ar, outs[i], ts[i].z)
  {
    seq(|ts|, i requires 0 <= i < |ts| => Gate(ch.ar, outs[i], ts[i].z))
  }

  function Scan(ch: Channel, s: Vec, ts: seq<Token>): (tr: Trace)
    requires |s| == |ch.A| && TokensOk(ch, ts)
    ensures TraceShape(ch, tr, |ts|)
  {
    var states := States(ch, s, ts);
    var outs := Outs(ch, states, ts);
    Trace(states, outs, Gates(ch, outs, ts))
  }

  /** Token `i` of a trace obeys the recurrence. */
  ghost predicate TraceStep(ch: Channel, ts: seq<Token>, tr: Trace, i: nat)
    requires TraceShape(ch, tr, |ts|) && i < |ts|
  {
    && TokenOk(ch, ts[i])
    && tr.states[i + 1] == Advance(ch, tr.states[i], ts[i])
    && tr.outs[i] == Output(ch, tr.states[i + 1], ts[i])
    && tr.gates[i] == Gate(ch.ar, tr.outs[i], ts[i].z)
  }

  lemma {:induction false} StatesStep(ch: Channel, s: Vec, ts: seq<Token>, i: nat)
    requires |s| == |ch.A| && TokensOk(ch, ts) && i < |ts|
    ensures States(ch, s, ts)[i + 1] == Advance(ch, States(ch, s, ts)[i], ts[i])
  {
    if i < |ts| - 1 {
      StatesStep(ch, s, ts[..|ts| - 1], i);
    }
  }

  lemma ScanStep(ch: Channel, s: Vec, ts: seq<Token>, i: nat)
    requires |s| == |ch.A| && TokensOk(ch, ts) && i < |ts|
    ensures TraceStep(ch, ts, Scan(ch, s, ts), i)
  {
    StatesStep(ch, s, ts, i);
    assert TokenOk(ch, ts[i]);
  }

  /** Resuming: the states of a sequence are those of its head, then those of its tail from there. */
  lemma {:induction false} StatesResume(ch: Channel, s: Vec, a: seq<Token>, b: seq<Token>)
    requires |s| == |ch.A| && TokensOk(ch, a) && TokensOk(ch, b)
    ensures TokensOk(ch, a + b)
    ensures States(ch, s, a + b) == States(ch, s, a) + States(ch, States(ch, s, a)[|a|], b)[1..]
  {
    if b == [] {
      assert a + b == a;
    } else {
      var b' := b[..|b| - 1];
      assert (a + b)[..|a + b| - 1] == a + b';
      StatesResume(ch, s, a, b');
      var mid := States(ch, s, a)[|a|];
      var head, tail := States(ch, s, a), States(ch, mid, b');
      assert States(ch, mid, b)[1..] == tail[1..] + [Advance(ch, tail[|b'|], b[|b'|])];
      assert (head + tail[1..])[|a| + |b'|] == tail[|b'|];
    }
  }

  lemma OutsConcat(ch: Channel, hs: seq<Vec>, a: seq<Token>, tl: seq<Vec>, b: seq<Token>)
    requires |hs| == |a| + 1 && |tl| == |b| + 1
    requires forall i :: 0 <= i < |a| ==> |hs[i + 1]| == |a[i].C|
    requires forall i :: 0 <= i < |b| ==> |tl[i + 1]| == |b[i].C|
    requires forall i :: 0 <= i < |a + b| ==> |(hs + tl[1..])[i + 1]| == |(a + b)[i].C|
    ensures Outs(ch, hs + tl[1..], a + b) == Outs(ch, hs, a) + Outs(ch, tl, b)
  {
    var l, r := Outs(ch, hs + tl[1..], a + b), Outs(ch, hs, a) + Outs(ch, tl, b);
    forall i | 0 <= i < |a| + |b|
      ensures l[i] == r[i]
    {
      var st, t := (hs + tl[1..])[i + 1], (a + b)[i];
      if i < |a| {
        assert st == hs[i + 1] && t == a[i];
      } else {
        assert st == tl[i - |a| + 1] && t == b[i - |a|];
      }
    }
  }

  lemma GatesConcat(ch: Channel, ys: seq<real>, a: seq<Token>, ws: seq<real>, b: seq<Token>)
    requires |ys| == |a| && |ws| == |b|
    ensures Gates(ch, ys + ws, a + b) == Gates(ch, ys, a) + Gates(ch, ws, b)
  {
  }

  /** The scan of a sequence is the scan of its head followed by the scan of its tail from the state at the cut. */
  lemma ScanResume(ch: Channel, s: Vec, a: seq<Token>, b: seq<Token>)
    requires |s| == |ch.A| && TokensOk(ch, a) && TokensOk(ch, b)
    ensures TokensOk(ch, a + b)
    ensures var whole := Scan(ch, s, a + b); var head := Scan(ch, s, a); var tail := Scan(ch, head.states[|a|], b);
      && whole.states == head.states + tail.states[1..]
      && whole.outs == head.outs + tail.outs
      && whole.gates == head.gates + tail.gates
  {
    StatesResume(ch, s, a, b);
    var hs := States(ch, s, a);
    var tl := States(ch, hs[|a|], b);
    assert forall i :: 0 <= i < |a + b| ==> TokenOk(ch, (a + b)[i]);
    OutsConcat(ch, hs, a, tl, b);
    GatesConcat(ch, Outs(ch, hs, a), a, Outs(ch, tl, b), b);
  }

  // --------------------------------------------------- padded vector registers

  /** Lanes past the state size hold zero: masked loads fill them, masked stores drop them. */
  function Pad(v: Vec, lanes: nat): (r: Vec)
    requires |v| <= lanes
    ensures |r| == lanes && r[..|v|] == v
    ensures forall n :: |v| <= n < lanes ==> r[n] == 0.0
  {
    v + seq(lanes - |v|, _ => 0.0)
  }

  /** A lane past the state size stays zero. */
  lemma IdleLane(ar: Arith, a: real, step: real, du: real)
    requires Lawful(ar)
    ensures Lane(ar, a, 0.0, step, du, 0.0) == 0.0
  {
    var decay := ar.exp(ar.mul(step, a));
    var zero := ar.mul(decay, 0.0);
    assert zero == 0.0;
    assert ar.mul(du, 0.0) == 0.0;
    assert ar.add(zero, 0.0) == zero;
  }

  /** The recurrence on padded registers is the padded recurrence. */
  lemma PadDecayAdd(ar: Arith, a: Vec, s: Vec, step: real, du: real, b: Vec, lanes: nat)
    requires Lawful(ar) && |a| == |s| == |b| <= lanes
    ensures DecayAdd(ar, Pad(a, lanes), Pad(s, lanes), step, du, Pad(b, lanes)) == Pad(DecayAdd(ar, a, s, step, du, b), lanes)
  {
    var l := DecayAdd(ar, Pad(a, lanes), Pad(s, lanes), step, du, Pad(b, lanes));
    var r := Pad(DecayAdd(ar, a, s, step, du, b), lanes);
    forall n | 0 <= n < lanes
      ensures l[n] == r[n]
    {
      var an, sn, bn := Pad(a, lanes)[n], Pad(s, lanes)[n], Pad(b, lanes)[n];
      assert l[n] == Lane(ar, an, sn, step, du, bn);
      if n < |a| {
        assert an == a[n] && sn == s[n] && bn == b[n];
        assert r[n] == DecayAdd(ar, a, s, step, du, b)[n] == Lane(ar, a[n], s[n], step, du, b[n]);
      } else {
        assert sn == 0.0 && bn == 0.0;
        IdleLane(ar, an, step, du);
      }
    }
  }

  lemma DotAppend(ar: Arith, s: Vec, c: Vec)
    requires Lawful(ar) && |s| == |c|
    ensures Dot(ar, s + [0.0], c + [0.0]) == Dot(ar, s, c)
  {
    assert (s + [0.0])[..|s|] == s && (c + [0.0])[..|c|] == c;
  }

  lemma {:induction false} PadDot(ar: Arith, s: Vec, c: Vec, lanes: nat)
    requires Lawful(ar) && |s| == |c| <= lanes
    ensures Dot(ar, Pad(s, lanes), Pad(c, lanes)) == Dot(ar, s, c)
    decreases lanes - |s|, lanes
  {
    if |s| == lanes {
      assert Pad(s, lanes) == s && Pad(c, lanes) == c;
    } else {
      PadDot(ar, s, c, lanes - 1);
      DotAppend(ar, Pad(s, lanes - 1), Pad(c, lanes - 1));
      assert Pad(s, lanes) == Pad(s, lanes - 1) + [0.0] && Pad(c, lanes) == Pad(c, lanes - 1) + [0.0];
    }
  }

  // ------------------------------------------------------------------- memory

  /** The tensors the kernel writes: `delta` is also `out`, `z` is also the gated output; `ssm[d][slot]`. */
  datatype Mem = Mem(delta: seq<Row>, z: seq<Row>, ssm: seq<seq<Vec>>)

  /** One chunk's end: which slot its state goes to. */
  datatype Store = Store(slot: nat, tokens: nat)

  /**
   What a program finds out about its request: the tensor row and range it covers,
   whether it runs at all, where its state comes from, and its checkpoints.
   */
  datatype Task = Task(
    dim: nat,
    row: nat,
    start: nat,
    len: nat,
    skip: bool,
    hasInit: bool,
    loadSlot: nat,
    stores: seq<Store>)

  /** Read-only inputs of one program: its channel, whether there is a gate, and rows of u, B and C. */
  datatype Inputs = Inputs(ch: Channel, hasZ: bool, u: Row, B: seq<Vec>, C: seq<Vec>)

  ghost predicate InputsOk(x: Inputs, t: Task) {
    && Lawful(x.ch.ar)
    && t.start + t.len <= |x.u| && t.start + t.len <= |x.B| && t.start + t.len <= |x.C|
    && (forall i :: t.start <= i < t.start + t.len ==> |x.B[i]| == |x.ch.A| == |x.C[i]|)
  }

  ghost predicate Fits(x: Inputs, t: Task, m: Mem) {
    && InputsOk(x, t)
    && t.row < |m.delta| && t.start + t.len <= |m.delta[t.row]|
    && (x.hasZ ==> t.row < |m.z| && t.start + t.len <= |m.z[t.row]|)
    && t.dim < |m.ssm| && t.loadSlot < |m.ssm[t.dim]|
    && (forall k :: 0 <= k < |m.ssm[t.dim]| ==> |m.ssm[t.dim][k]| == |x.ch.A|)
    && (forall c :: 0 <= c < |t.stores| ==> t.stores[c].slot < |m.ssm[t.dim]| && t.stores[c].tokens <= t.len)
  }

  /** The request's tokens as the tensors held them when the program started. */
  function Tokens(x: Inputs, t: Task, m: Mem): (r: seq<Token>)
    requires Fits(x, t, m)
    ensures |r| == t.len && TokensOk(x.ch, r)
  {
    seq(t.len, i requires 0 <= i < t.len =>
      Token(x.u[t.start + i], m.delta[t.row][t.start + i], x.B[t.start + i], x.C[t.start + i],
            if x.hasZ then m.z[t.row][t.start + i] else 0.0))
  }

  function InitialState(x: Inputs, t: Task, m: Mem): (s: Vec)
    requires Fits(x, t, m)
    ensures |s| == |x.ch.A|
  {
    if t.hasInit then m.ssm[t.dim][t.loadSlot] else seq(|x.ch.A|, _ => 0.0)
  }

  /** The row with the values from `start` on replaced. */
  function Overwrite(row: Row, start: nat, values: seq<real>): (r: Row)
    requires start + |values| <= |row|
    ensures |r| == |row|
  {
    row[..start] + values + row[start + |values|..]
  }

  /** The slots after the first `n` checkpoints, each holding the state at its token count. */
  function Slots(states: seq<Vec>, column: seq<Vec>, stores: seq<Store>, n: nat): (r: seq<Vec>)
    requires n <= |stores| && StoresFit(states, column, stores)
    ensures |r| == |column|
  {
    if n == 0 then column else Slots(states, column, stores, n - 1)[stores[n - 1].slot := states[stores[n - 1].tokens]]
  }

  ghost predicate StoresFit(states: seq<Vec>, column: seq<Vec>, stores: seq<Store>) {
    forall c :: 0 <= c < |stores| ==> stores[c].slot < |column| && stores[c].tokens < |states|
  }

  /** The tensors with one trace written into them. */
  ghost function WriteTrace(hasZ: bool, t: Task, m: Mem, tr: Trace): Mem
    requires t.row < |m.delta| && t.start + |tr.outs| <= |m.delta[t.row]|
    requires hasZ ==> t.row < |m.z| && t.start + |tr.gates| <= |m.z[t.row]|
    requires t.dim < |m.ssm| && StoresFit(tr.states, m.ssm[t.dim], t.stores)
  {
    Mem(
      m.delta[t.row := Overwrite(m.delta[t.row], t.start, tr.outs)],
      if hasZ then m.z[t.row := Overwrite(m.z[t.row], t.start, tr.gates)] else m.z,
      m.ssm[t.dim := Slots(tr.states, m.ssm[t.dim], t.stores, |t.stores|)])
  }

  /** What one program does to the tensors, stated without any loop over positions: write the fold of its tokens. */
  ghost function Effect(x: Inputs, t: Task, m: Mem): Mem
    requires t.skip || Fits(x, t, m)
  {
    if t.skip then m else WriteTrace(x.hasZ, t, m, Scan(x.ch, InitialState(x, t, m), Tokens(x, t, m)))
  }
}
