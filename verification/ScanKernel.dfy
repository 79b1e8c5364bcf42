/**
 The kernel as it runs: nested loops over chunks and tokens, outputs stored over the
 inputs they were computed from, the state checkpointed after every chunk.
 */
module ScanKernel {
  import opened Arithmetic
  import opened Options
  import opened SelectiveScan
  import opened ScanClosedForm

  // -------------------------------------------------------------- the token loop

  /** The loop body up to the store of `out`: the recurrence and the dot product on padded registers. */
  method StepLanes(ch: Channel, lanes: nat, aLanes: Vec, state: Vec, u: real, delta: real, B: Vec, C: Vec,
                   ghost s: Vec, ghost token: Token)
    returns (state': Vec, out: real)
    requires Lawful(ch.ar) && |s| == |ch.A| <= lanes && TokenOk(ch, token)
    requires token.u == u && token.delta == delta && token.B == B && token.C == C
    requires aLanes == Pad(ch.A, lanes) && state == Pad(s, lanes)
    ensures state' == Pad(Advance(ch, s, token), lanes)
    ensures out == Output(ch, Advance(ch, s, token), token)
  {
    var deltaVal := delta;
    if ch.deltaBias.Some? {
      deltaVal := ch.ar.add(deltaVal, ch.deltaBias.value);
    }
    if ch.softplus {
      deltaVal := Softplus(ch.ar, deltaVal);
    }
    var deltaU := ch.ar.mul(deltaVal, u);
    PadDecayAdd(ch.ar, ch.A, s, deltaVal, deltaU, B, lanes);
    state' := DecayAdd(ch.ar, aLanes, state, deltaVal, deltaU, Pad(B, lanes));
    PadDot(ch.ar, Advance(ch, s, token), C, lanes);
    out := Dot(ch.ar, state', Pad(C, lanes));
    if ch.D.Some? {
      out := ch.ar.add(out, ch.ar.mul(ch.D.value, u));
    }
  }

  /** A row whose values from `start` on have been replaced. */
  ghost predicate RowHolds(row: Row, was: Row, start: nat, values: seq<real>) {
    start + |values| <= |was| && row == Overwrite(was, start, values)
  }

  lemma RowUnread(row: Row, was: Row, start: nat, values: seq<real>, n: nat)
    requires n < |values| && RowHolds(row, was, start, values[..n]) && start + |values| <= |was|
    ensures |row| == |was| && row[start + n] == was[start + n]
    ensures RowHolds(row[start + n := values[n]], was, start, values[..n + 1])
  {
    assert values[..n + 1] == values[..n] + [values[n]];
  }

  /** The row and range of one program, with the rows as the call found them. */
  ghost predicate Covers(x: Inputs, t: Task, ts: seq<Token>, tr: Trace, dRow: Row, zRow: Row, delta: array<Row>, z: array<Row>) {
    && InputsOk(x, t) && TraceShape(x.ch, tr, t.len) && |ts| == t.len
    && delta != z && t.row < delta.Length && (x.hasZ ==> t.row < z.Length)
    && t.start + t.len <= |dRow| && (x.hasZ ==> t.start + t.len <= |zRow|)
  }

  /** Token `i` of the trace is what the tensors held at the start of the call. */
  ghost predicate TokenRead(x: Inputs, t: Task, ts: seq<Token>, dRow: Row, zRow: Row, i: nat)
    requires InputsOk(x, t) && |ts| == t.len && i < t.len
    requires t.start + t.len <= |dRow| && (x.hasZ ==> t.start + t.len <= |zRow|)
  {
    ts[i] == Token(x.u[t.start + i], dRow[t.start + i], x.B[t.start + i], x.C[t.start + i],
                   if x.hasZ then zRow[t.start + i] else 0.0)
  }

  /** Outputs over `delta` and gated outputs over `z` for the first `n` tokens. */
  ghost predicate Written(x: Inputs, t: Task, ts: seq<Token>, tr: Trace, dRow: Row, zRow: Row, delta: array<Row>, z: array<Row>, n: nat)
    reads delta, z
    requires Covers(x, t, ts, tr, dRow, zRow, delta, z) && n <= t.len
  {
    && RowHolds(delta[t.row], dRow, t.start, tr.outs[..n])
    && (x.hasZ ==> RowHolds(z[t.row], zRow, t.start, tr.gates[..n]))
  }

  /** Every token of the trace follows the recurrence and is what the tensors held. */
  ghost predicate Follows(x: Inputs, t: Task, ts: seq<Token>, tr: Trace, dRow: Row, zRow: Row)
    requires InputsOk(x, t) && TraceShape(x.ch, tr, t.len) && |ts| == t.len
    requires t.start + t.len <= |dRow| && (x.hasZ ==> t.start + t.len <= |zRow|)
  {
    forall i :: 0 <= i < t.len ==> TraceStep(x.ch, ts, tr, i) && TokenRead(x, t, ts, dRow, zRow, i)
  }

  /** One round of the token loop: it reads the token at the position it is about to overwrite. */
  method ScanToken(x: Inputs, t: Task, delta: array<Row>, z: array<Row>, lanes: nat, aLanes: Vec, state: Vec, pos: nat,
                   ghost ts: seq<Token>, ghost tr: Trace, ghost dRow: Row, ghost zRow: Row)
    returns (state': Vec)
    requires Covers(x, t, ts, tr, dRow, zRow, delta, z) && pos < t.len && |x.ch.A| <= lanes && aLanes == Pad(x.ch.A, lanes)
    requires Follows(x, t, ts, tr, dRow, zRow)
    requires Written(x, t, ts, tr, dRow, zRow, delta, z, pos) && state == Pad(tr.states[pos], lanes)
    modifies delta, z
    ensures Written(x, t, ts, tr, dRow, zRow, delta, z, pos + 1) && state' == Pad(tr.states[pos + 1], lanes)
    ensures forall r :: 0 <= r < delta.Length && r != t.row ==> delta[r] == old(delta[r])
    ensures forall r :: 0 <= r < z.Length && (r != t.row || !x.hasZ) ==> z[r] == old(z[r])
  {
    assert TraceStep(x.ch, ts, tr, pos) && TokenRead(x, t, ts, dRow, zRow, pos);
    RowUnread(delta[t.row], dRow, t.start, tr.outs, pos);
    var i := t.start + pos;
    var out;
    state', out := StepLanes(x.ch, lanes, aLanes, state, x.u[i], delta[t.row][i], x.B[i], x.C[i], tr.states[pos], ts[pos]);
    delta[t.row] := delta[t.row][i := out];
    if x.hasZ {
      RowUnread(z[t.row], zRow, t.start, tr.gates, pos);
      var zVal := z[t.row][i];
      z[t.row] := z[t.row][i := Gate(x.ch.ar, out, zVal)];
    }
  }

  /**
   The scan of one chunk, `range(chunk_tokens)` in the kernel: every read sees the value
   of the call's start, although outputs go over the inputs.
   */
  method ScanChunk(x: Inputs, t: Task, delta: array<Row>, z: array<Row>, lanes: nat, aLanes: Vec, state: Vec,
                   done: nat, count: nat, ghost ts: seq<Token>, ghost tr: Trace, ghost dRow: Row, ghost zRow: Row)
    returns (state': Vec)
    requires Covers(x, t, ts, tr, dRow, zRow, delta, z) && done + count <= t.len && |x.ch.A| <= lanes && aLanes == Pad(x.ch.A, lanes)
    requires Follows(x, t, ts, tr, dRow, zRow)
    requires Written(x, t, ts, tr, dRow, zRow, delta, z, done) && state == Pad(tr.states[done], lanes)
    modifies delta, z
    ensures Written(x, t, ts, tr, dRow, zRow, delta, z, done + count) && state' == Pad(tr.states[done + count], lanes)
    ensures forall r :: 0 <= r < delta.Length && r != t.row ==> delta[r] == old(delta[r])
    ensures forall r :: 0 <= r < z.Length && (r != t.row || !x.hasZ) ==> z[r] == old(z[r])
  {
    state' := state;
    var local := 0;
    while local < count
      invariant 0 <= local <= count
      invariant Written(x, t, ts, tr, dRow, zRow, delta, z, done + local) && state' == Pad(tr.states[done + local], lanes)
      invariant forall r :: 0 <= r < delta.Length && r != t.row ==> delta[r] == old(delta[r])
      invariant forall r :: 0 <= r < z.Length && (r != t.row || !x.hasZ) ==> z[r] == old(z[r])
    {
      state' := ScanToken(x, t, delta, z, lanes, aLanes, state', done + local, ts, tr, dRow, zRow);
      local := local + 1;
    }
  }

  // -------------------------------------------------------------- the chunk loop

  /** Scan the tokens of one chunk, then the masked store of the state into its slot. */
  method RunChunk(x: Inputs, t: Task, delta: array<Row>, z: array<Row>, ssm: array<seq<Vec>>, lanes: nat, aLanes: Vec, state: Vec,
                  done: nat, count: nat, slot: nat, ghost c: nat,
                  ghost ts: seq<Token>, ghost tr: Trace, ghost dRow: Row, ghost zRow: Row, ghost column: seq<Vec>)
    returns (state': Vec)
    requires Covers(x, t, ts, tr, dRow, zRow, delta, z) && done + count <= t.len && |x.ch.A| <= lanes && aLanes == Pad(x.ch.A, lanes)
    requires Follows(x, t, ts, tr, dRow, zRow) && StoresFit(tr.states, column, t.stores)
    requires Written(x, t, ts, tr, dRow, zRow, delta, z, done) && state == Pad(tr.states[done], lanes)
    requires c < |t.stores| && t.stores[c] == Store(slot, done + count)
    requires t.dim < ssm.Length && ssm[t.dim] == Slots(tr.states, column, t.stores, c)
    modifies delta, z, ssm
    ensures Written(x, t, ts, tr, dRow, zRow, delta, z, done + count) && state' == Pad(tr.states[done + count], lanes)
    ensures ssm[t.dim] == Slots(tr.states, column, t.stores, c + 1)
    ensures forall r :: 0 <= r < delta.Length && r != t.row ==> delta[r] == old(delta[r])
    ensures forall r :: 0 <= r < z.Length && (r != t.row || !x.hasZ) ==> z[r] == old(z[r])
    ensures forall e :: 0 <= e < ssm.Length && e != t.dim ==> ssm[e] == old(ssm[e])
  {
    state' := ScanChunk(x, t, delta, z, lanes, aLanes, state, done, count, ts, tr, dRow, zRow);
    ssm[t.dim] := ssm[t.dim][slot := state'[..|x.ch.A|]];
  }

  // ------------------------------------------------------------------- chunks

  /**
   The chunk metadata of one request: cumulative token counts, the request's row of the
   block table, and the blocks of its first and last scheduled token.
   */
  datatype ChunkPlan = ChunkPlan(cu: seq<int>, table: seq<int>, blockFirst: nat, blockLast: nat, size: nat)
  {
    function Count(): int { |cu| - 1 }

    /** Tokens up to the end of chunk `c`. */
    function End(c: nat): int
      requires c + 1 < |cu|
    { cu[c + 1] - cu[0] }

    /** The block whose slot takes the state of chunk `c`: consecutive blocks, then the last scheduled one. */
    function Block(c: nat): int {
      if c == Count() - 1 then blockLast else blockFirst + c
    }
  }

  /** All but the last chunk end on a block boundary: the first may be short, the others are whole blocks. */
  ghost predicate WellChunked(p: ChunkPlan) {
    && p.size > 0 && p.Count() >= 1
    && (forall c :: 0 <= c < p.Count() ==> p.cu[c] <= p.cu[c + 1])
    && (p.Count() > 1 ==> 1 <= p.cu[1] - p.cu[0] <= p.size)
    && (forall c :: 0 < c < p.Count() - 1 ==> p.cu[c + 1] - p.cu[c] == p.size)
  }

  ghost predicate PlanOk(p: ChunkPlan) {
    && WellChunked(p)
    && (forall c {:trigger p.Block(c)} :: 0 <= c < p.Count() ==> p.Block(c) < |p.table| && p.table[p.Block(c)] >= 0)
  }

  lemma {:induction false} CumulativeMonotone(p: ChunkPlan, a: nat, c: nat)
    requires WellChunked(p) && a <= c < |p.cu|
    ensures p.cu[a] <= p.cu[c]
    decreases c
  {
    if a < c {
      CumulativeMonotone(p, a, c - 1);
      assert p.cu[c - 1] <= p.cu[c - 1 + 1];
    }
  }

  function PlanStores(p: ChunkPlan): (r: seq<Store>)
    requires PlanOk(p)
    ensures |r| == p.Count()
    ensures forall c :: 0 <= c < |r| ==> p.End(c) >= 0 && r[c] == Store(p.table[p.Block(c)], p.End(c))
  {
    assert forall c :: 0 <= c < p.Count() ==> p.End(c) >= 0 by {
      forall c | 0 <= c < p.Count() ensures p.End(c) >= 0 { CumulativeMonotone(p, 0, c + 1); }
    }
    seq(p.Count(), c requires 0 <= c < p.Count() => Store(p.table[p.Block(c)], p.End(c)))
  }

  /** `block_idx_done`: a chunk that ends where block `k` ends belongs to block `k`. */
  lemma BlockDone(end: int, k: nat, size: nat)
    requires size > 0 && end == (k + 1) * size
    ensures (end - 1) / size == k
  {
    var n := end - 1;
    assert end == k * size + size;
    assert (n / size - k) * size == size - 1 - n % size;
    SmallMultiple(n / size - k, size);
  }

  /** `current_position` before chunk `c`: where the chunk ends is the end of block `blockFirst + c`. */
  ghost predicate OnBoundary(p: ChunkPlan, c: nat, position: int)
    requires WellChunked(p) && c < p.Count()
  {
    if c == 0 then position + p.cu[1] - p.cu[0] == (p.blockFirst + 1) * p.size
    else position == (p.blockFirst + c) * p.size
  }

  lemma BoundaryStart(p: ChunkPlan)
    requires WellChunked(p) && p.Count() > 1
    ensures OnBoundary(p, 0, p.blockFirst * p.size + (if p.cu[1] - p.cu[0] < p.size then p.size - (p.cu[1] - p.cu[0]) else 0))
  {
    assert (p.blockFirst + 1) * p.size == p.blockFirst * p.size + p.size;
  }

  lemma BoundaryStep(p: ChunkPlan, c: nat, position: int)
    requires WellChunked(p) && c < p.Count() - 1 && OnBoundary(p, c, position)
    ensures var tokens := p.cu[c + 1] - p.cu[c];
      (position + tokens - 1) / p.size == p.blockFirst + c && OnBoundary(p, c + 1, position + tokens)
  {
    var tokens := p.cu[c + 1] - p.cu[c];
    var k := p.blockFirst + c;
    assert (k + 1) * p.size == k * p.size + p.size;
    BlockDone(position + tokens, k, p.size);
  }

  /** `current_position` before the first chunk. */
  method StartPosition(p: ChunkPlan) returns (position: int)
    requires WellChunked(p)
    ensures p.Count() > 1 ==> OnBoundary(p, 0, position)
  {
    var firstTokens := p.cu[1] - p.cu[0];
    var offset := 0;
    if p.Count() > 1 && firstTokens < p.size {
      offset := p.size - firstTokens;
    }
    position := p.blockFirst * p.size + offset;
    if p.Count() > 1 {
      BoundaryStart(p);
    }
  }

  /** The slot for the state of chunk `c`, and `current_position` before the next one. */
  method CheckpointSlot(p: ChunkPlan, c: nat, position: int) returns (slot: nat, position': int)
    requires PlanOk(p) && c < p.Count() && (p.Count() > 1 ==> OnBoundary(p, c, position))
    ensures p.Block(c) < |p.table| && slot == p.table[p.Block(c)]
    ensures c + 1 < p.Count() ==> OnBoundary(p, c + 1, position')
  {
    var chunkTokens := p.cu[c + 1] - p.cu[c];
    var block;
    if c == p.Count() - 1 {
      block := p.blockLast;
    } else {
      BoundaryStep(p, c, position);
      block := (position + chunkTokens - 1) / p.size;
    }
    assert block == p.Block(c);
    slot := p.table[block];
    position' := position + chunkTokens;
  }

  /** The plan of a task, and its chunk `c` after `done` tokens. */
  ghost predicate AtChunk(p: ChunkPlan, t: Task, c: nat, done: int, position: int) {
    && PlanOk(p) && t.stores == PlanStores(p) && p.End(p.Count() - 1) == t.len
    && c <= p.Count() && done == p.cu[c] - p.cu[0] && 0 <= done <= t.len
    && (c < p.Count() && p.Count() > 1 ==> OnBoundary(p, c, position))
  }

  lemma ChunkEnds(p: ChunkPlan, t: Task, c: nat, done: int, position: int)
    requires AtChunk(p, t, c, done, position) && c < p.Count()
    ensures var count := p.cu[c + 1] - p.cu[c];
      count >= 0 && 0 <= done + count <= t.len && t.stores[c] == Store(p.table[p.Block(c)], done + count)
  {
    CumulativeMonotone(p, c + 1, p.Count());
    assert p.cu[c] <= p.cu[c + 1];
  }

  /** One round of the chunk loop. */
  method NextChunk(x: Inputs, p: ChunkPlan, t: Task, delta: array<Row>, z: array<Row>, ssm: array<seq<Vec>>, lanes: nat, aLanes: Vec,
                   state: Vec, c: nat, done: nat, position: int,
                   ghost ts: seq<Token>, ghost tr: Trace, ghost dRow: Row, ghost zRow: Row, ghost column: seq<Vec>)
    returns (state': Vec, done': nat, position': int)
    requires AtChunk(p, t, c, done, position) && c < p.Count()
    requires Covers(x, t, ts, tr, dRow, zRow, delta, z) && |x.ch.A| <= lanes && aLanes == Pad(x.ch.A, lanes)
    requires Follows(x, t, ts, tr, dRow, zRow) && StoresFit(tr.states, column, t.stores)
    requires Written(x, t, ts, tr, dRow, zRow, delta, z, done) && state == Pad(tr.states[done], lanes)
    requires t.dim < ssm.Length && ssm[t.dim] == Slots(tr.states, column, t.stores, c)
    modifies delta, z, ssm
    ensures AtChunk(p, t, c + 1, done', position')
    ensures Written(x, t, ts, tr, dRow, zRow, delta, z, done') && state' == Pad(tr.states[done'], lanes)
    ensures ssm[t.dim] == Slots(tr.states, column, t.stores, c + 1)
    ensures forall r :: 0 <= r < delta.Length && r != t.row ==> delta[r] == old(delta[r])
    ensures forall r :: 0 <= r < z.Length && (r != t.row || !x.hasZ) ==> z[r] == old(z[r])
    ensures forall e :: 0 <= e < ssm.Length && e != t.dim ==> ssm[e] == old(ssm[e])
  {
    var chunkTokens := p.cu[c + 1] - p.cu[c];
    ChunkEnds(p, t, c, done, position);
    var slot;
    slot, position' := CheckpointSlot(p, c, position);
    state' := RunChunk(x, t, delta, z, ssm, lanes, aLanes, state, done, chunkTokens, slot, c, ts, tr, dRow, zRow, column);
    done' := done + chunkTokens;
  }

  /** The chunk loop of the cached mode, with its checkpoint after every chunk. */
  method ProgramChunks(x: Inputs, p: ChunkPlan, t: Task, delta: array<Row>, z: array<Row>, ssm: array<seq<Vec>>,
                       lanes: nat, aLanes: Vec, initial: Vec, ghost ts: seq<Token>, ghost tr: Trace, ghost dRow: Row, ghost zRow: Row, ghost column: seq<Vec>)
    requires PlanOk(p) && t.stores == PlanStores(p) && p.End(p.Count() - 1) == t.len
    requires Covers(x, t, ts, tr, dRow, zRow, delta, z) && |x.ch.A| <= lanes && aLanes == Pad(x.ch.A, lanes)
    requires Follows(x, t, ts, tr, dRow, zRow) && StoresFit(tr.states, column, t.stores)
    requires Written(x, t, ts, tr, dRow, zRow, delta, z, 0) && initial == Pad(tr.states[0], lanes)
    requires t.dim < ssm.Length && ssm[t.dim] == column
    modifies delta, z, ssm
    ensures Written(x, t, ts, tr, dRow, zRow, delta, z, t.len)
    ensures ssm[t.dim] == Slots(tr.states, column, t.stores, |t.stores|)
    ensures forall r :: 0 <= r < delta.Length && r != t.row ==> delta[r] == old(delta[r])
    ensures forall r :: 0 <= r < z.Length && (r != t.row || !x.hasZ) ==> z[r] == old(z[r])
    ensures forall e :: 0 <= e < ssm.Length && e != t.dim ==> ssm[e] == old(ssm[e])
  {
    var n := p.Count();
    var position := StartPosition(p);
    var state := initial;
    var processed := 0;
    var chunk := 0;
    while chunk < n
      invariant 0 <= chunk <= n && AtChunk(p, t, chunk, processed, position)
      invariant Written(x, t, ts, tr, dRow, zRow, delta, z, processed) && state == Pad(tr.states[processed], lanes)
      invariant ssm[t.dim] == Slots(tr.states, column, t.stores, chunk)
      invariant forall r :: 0 <= r < delta.Length && r != t.row ==> delta[r] == old(delta[r])
      invariant forall r :: 0 <= r < z.Length && (r != t.row || !x.hasZ) ==> z[r] == old(z[r])
      invariant forall e :: 0 <= e < ssm.Length && e != t.dim ==> ssm[e] == old(ssm[e])
    {
      state, processed, position :=
        NextChunk(x, p, t, delta, z, ssm, lanes, aLanes, state, chunk, processed, position, ts, tr, dRow, zRow, column);
      chunk := chunk + 1;
    }
  }

  // ------------------------------------------------------------------ launching

  /** How requests find their cache slots: by position, by index, or block by block with chunk metadata. */
  datatype Mode =
    | Plain
    | Indexed(slots: seq<int>)
    | Cached(table: seq<seq<int>>, initIdx: seq<nat>, blockFirst: seq<nat>, blockLast: seq<nat>,
             cuChunk: seq<int>, lastChunk: seq<int>)

  datatype Launch = Launch(
    queryStart: Option<seq<nat>>,
    seqlen: nat,
    dims: nat,
    mode: Mode,
    hasInit: Option<seq<bool>>,
    nullBlock: int,
    blockSize: nat)

  ghost predicate CachedOk(m: Mode, b: nat) {
    && m.Cached?
    && b < |m.lastChunk| && b < |m.blockFirst| && b < |m.blockLast| && b < |m.initIdx| && b < |m.table|
    && m.initIdx[b] < |m.table[b]|
    && 0 <= FirstChunk(m, b) <= m.lastChunk[b] && m.lastChunk[b] + 1 < |m.cuChunk|
  }

  /** A request's chunks start right after those of the request before it. */
  function FirstChunk(m: Mode, b: nat): int
    requires m.Cached? && b < |m.lastChunk|
  {
    if b == 0 then 0 else m.lastChunk[b - 1] + 1
  }

  function PlanOf(l: Launch, b: nat): ChunkPlan
    requires CachedOk(l.mode, b)
  {
    var m := l.mode;
    ChunkPlan(m.cuChunk[FirstChunk(m, b)..m.lastChunk[b] + 2], m.table[b], m.blockFirst[b], m.blockLast[b], l.blockSize)
  }

  function SeqStart(l: Launch, b: nat): nat
    requires l.queryStart.Some? ==> b < |l.queryStart.value|
  { if l.queryStart.Some? then l.queryStart.value[b] else 0 }

  function SeqLen(l: Launch, b: nat): int
    requires l.queryStart.Some? ==> b + 1 < |l.queryStart.value|
  { if l.queryStart.Some? then l.queryStart.value[b + 1] - l.queryStart.value[b] else l.seqlen }

  ghost predicate LaunchOk(l: Launch, b: nat, d: nat) {
    && d < l.dims
    && (l.queryStart.Some? ==> b + 1 < |l.queryStart.value| && l.queryStart.value[b] <= l.queryStart.value[b + 1])
    && (l.hasInit.Some? ==> b < |l.hasInit.value|)
    && (l.mode.Indexed? ==> b < |l.mode.slots| && (l.mode.slots[b] != l.nullBlock ==> l.mode.slots[b] >= 0))
    && (l.mode.Cached? ==>
          && CachedOk(l.mode, b)
          && (l.mode.table[b][l.mode.initIdx[b]] != l.nullBlock ==> l.mode.table[b][l.mode.initIdx[b]] >= 0)
          && PlanOk(PlanOf(l, b))
          && PlanOf(l, b).End(PlanOf(l, b).Count() - 1) == SeqLen(l, b))
  }

  function RowOf(l: Launch, b: nat, d: nat): nat {
    if l.queryStart.Some? then d else b * l.dims + d
  }

  /** The slot the initial state comes from, as a raw table entry. */
  function LoadEntry(l: Launch, b: nat, d: nat): int
    requires LaunchOk(l, b, d)
  {
    match l.mode
    case Plain => b
    case Indexed(slots) => slots[b]
    case Cached(table, initIdx, _, _, _, _) => table[b][initIdx[b]]
  }

  predicate Skips(l: Launch, b: nat, d: nat)
    requires LaunchOk(l, b, d)
  { !l.mode.Plain? && LoadEntry(l, b, d) == l.nullBlock }

  /** What program (b, d) has to do. */
  function TaskOf(l: Launch, b: nat, d: nat): Task
    requires LaunchOk(l, b, d)
  {
    if Skips(l, b, d) then Task(d, RowOf(l, b, d), SeqStart(l, b), 0, true, false, 0, [])
    else Task(d, RowOf(l, b, d), SeqStart(l, b), SeqLen(l, b), false,
              l.hasInit.Some? && l.hasInit.value[b], LoadEntry(l, b, d),
              if l.mode.Cached? then PlanStores(PlanOf(l, b)) else [Store(LoadEntry(l, b, d), SeqLen(l, b))])
  }

  /** A position of a tensor row belongs to program (b, d): between the bounds of its request, or anywhere in its own row. */
  ghost predicate Belongs(l: Launch, b: nat, d: nat, row: nat, pos: nat)
    requires LaunchOk(l, b, d)
  {
    if l.queryStart.Some? then row == d && l.queryStart.value[b] <= pos < l.queryStart.value[b + 1]
    else row == b * l.dims + d && pos < l.seqlen
  }

  /** A program covers exactly the positions of its request and channel, and its last checkpoint is of all of them. */
  lemma TaskCovers(l: Launch, b: nat, d: nat, row: nat, pos: nat)
    requires LaunchOk(l, b, d) && !Skips(l, b, d)
    ensures var t := TaskOf(l, b, d);
      && !t.skip && t.dim == d && (Belongs(l, b, d, row, pos) <==> row == t.row && t.start <= pos < t.start + t.len)
      && t.stores != [] && t.stores[|t.stores| - 1].tokens == t.len
      && (l.mode.Cached? ==> t.stores[|t.stores| - 1].slot == l.mode.table[b][l.mode.blockLast[b]])
      && (!l.mode.Cached? ==> t.stores[|t.stores| - 1].slot == t.loadSlot)
  {
    if l.mode.Cached? {
      var p := PlanOf(l, b);
      assert p.Block(p.Count() - 1) == p.blockLast;
    }
  }

  /** The fold of a program's tokens is a trace the token loop can follow. */
  lemma ScanFollows(x: Inputs, t: Task, m: Mem)
    requires Fits(x, t, m)
    ensures var ts := Tokens(x, t, m); var tr := Scan(x.ch, InitialState(x, t, m), ts);
      && TraceShape(x.ch, tr, t.len) && tr.states[0] == InitialState(x, t, m)
      && Follows(x, t, ts, tr, m.delta[t.row], if x.hasZ then m.z[t.row] else [])
      && StoresFit(tr.states, m.ssm[t.dim], t.stores)
  {
    var ts, s := Tokens(x, t, m), InitialState(x, t, m);
    forall i | 0 <= i < t.len
      ensures TraceStep(x.ch, ts, Scan(x.ch, s, ts), i)
    {
      ScanStep(x.ch, s, ts, i);
    }
  }

  /** Everything written is the whole trace written. */
  lemma AllWritten(hasZ: bool, t: Task, m: Mem, tr: Trace, now: Mem)
    requires t.row < |m.delta| && t.start + |tr.outs| <= |m.delta[t.row]|
    requires hasZ ==> t.row < |m.z| && t.start + |tr.gates| <= |m.z[t.row]|
    requires t.dim < |m.ssm| && StoresFit(tr.states, m.ssm[t.dim], t.stores)
    requires |now.delta| == |m.delta| && |now.z| == |m.z| && |now.ssm| == |m.ssm|
    requires forall r :: 0 <= r < |m.delta| && r != t.row ==> now.delta[r] == m.delta[r]
    requires forall r :: 0 <= r < |m.z| && (r != t.row || !hasZ) ==> now.z[r] == m.z[r]
    requires forall e :: 0 <= e < |m.ssm| && e != t.dim ==> now.ssm[e] == m.ssm[e]
    requires now.delta[t.row] == Overwrite(m.delta[t.row], t.start, tr.outs)
    requires hasZ ==> now.z[t.row] == Overwrite(m.z[t.row], t.start, tr.gates)
    requires now.ssm[t.dim] == Slots(tr.states, m.ssm[t.dim], t.stores, |t.stores|)
    ensures now == WriteTrace(hasZ, t, m, tr)
  {
    var e := WriteTrace(hasZ, t, m, tr);
    assert now.delta == e.delta;
    assert now.z == e.z;
    assert now.ssm == e.ssm;
  }

  /** The part of the kernel after the early return: scan and store. */
  method RunTask(x: Inputs, p: Option<ChunkPlan>, t: Task, delta: array<Row>, z: array<Row>, ssm: array<seq<Vec>>,
                 lanes: nat, aLanes: Vec, initial: Vec, entry: nat, ghost ts: seq<Token>, ghost tr: Trace,
                 ghost dRow: Row, ghost zRow: Row, ghost column: seq<Vec>)
    requires p.Some? ==> PlanOk(p.value) && t.stores == PlanStores(p.value) && p.value.End(p.value.Count() - 1) == t.len
    requires p.None? ==> t.stores == [Store(entry, t.len)]
    requires Covers(x, t, ts, tr, dRow, zRow, delta, z) && |x.ch.A| <= lanes && aLanes == Pad(x.ch.A, lanes)
    requires Follows(x, t, ts, tr, dRow, zRow) && StoresFit(tr.states, column, t.stores)
    requires delta[t.row] == dRow && (x.hasZ ==> z[t.row] == zRow) && initial == Pad(tr.states[0], lanes)
    requires t.dim < ssm.Length && ssm[t.dim] == column
    modifies delta, z, ssm
    ensures Written(x, t, ts, tr, dRow, zRow, delta, z, t.len)
    ensures ssm[t.dim] == Slots(tr.states, column, t.stores, |t.stores|)
    ensures forall r :: 0 <= r < delta.Length && r != t.row ==> delta[r] == old(delta[r])
    ensures forall r :: 0 <= r < z.Length && (r != t.row || !x.hasZ) ==> z[r] == old(z[r])
    ensures forall e :: 0 <= e < ssm.Length && e != t.dim ==> ssm[e] == old(ssm[e])
  {
    assert tr.outs[..0] == [] && tr.gates[..0] == [];
    if p.Some? {
      ProgramChunks(x, p.value, t, delta, z, ssm, lanes, aLanes, initial, ts, tr, dRow, zRow, column);
    } else {
      var state := RunChunk(x, t, delta, z, ssm, lanes, aLanes, initial, 0, t.len, entry, 0, ts, tr, dRow, zRow, column);
    }
  }

  /**
   `_selective_scan_fwd_kernel` for program (b, d): exactly the loop-free effect.  Over exact arithmetic the outputs,
   the gated outputs and the last state are the closed form of the tokens `ts` that the tensors held, from state `s`.
   */
  method Program(x: Inputs, l: Launch, b: nat, d: nat, delta: array<Row>, z: array<Row>, ssm: array<seq<Vec>>, lanes: nat)
    returns (ghost s: Vec, ghost ts: seq<Token>)
    requires LaunchOk(l, b, d) && |x.ch.A| <= lanes && delta != z
    requires Skips(l, b, d) || Fits(x, TaskOf(l, b, d), Mem(delta[..], z[..], ssm[..]))
    modifies delta, z, ssm
    ensures Mem(delta[..], z[..], ssm[..]) == Effect(x, TaskOf(l, b, d), old(Mem(delta[..], z[..], ssm[..])))
    ensures !Skips(l, b, d) ==> Leaves(x, TaskOf(l, b, d), old(Mem(delta[..], z[..], ssm[..])), s, ts, Mem(delta[..], z[..], ssm[..]))
  {
    ghost var m := Mem(delta[..], z[..], ssm[..]);
    s, ts := [], [];
    var entry := LoadEntry(l, b, d);
    if !l.mode.Plain? && entry == l.nullBlock {
      return;
    }
    var t := TaskOf(l, b, d);
    var plan := if l.mode.Cached? then Some(PlanOf(l, b)) else None;
    ProgramBody(x, plan, t, delta, z, ssm, lanes, entry);
    s, ts := EffectLeaves(x, t, m);
  }

  /** The program after its early return: load the state, scan, store. */
  method ProgramBody(x: Inputs, p: Option<ChunkPlan>, t: Task, delta: array<Row>, z: array<Row>, ssm: array<seq<Vec>>,
                     lanes: nat, entry: nat)
    requires p.Some? ==> PlanOk(p.value) && t.stores == PlanStores(p.value) && p.value.End(p.value.Count() - 1) == t.len
    requires p.None? ==> t.stores == [Store(entry, t.len)]
    requires !t.skip && entry == t.loadSlot && |x.ch.A| <= lanes && delta != z
    requires Fits(x, t, Mem(delta[..], z[..], ssm[..]))
    modifies delta, z, ssm
    ensures Mem(delta[..], z[..], ssm[..]) == Effect(x, t, old(Mem(delta[..], z[..], ssm[..])))
  {
    ghost var m := Mem(delta[..], z[..], ssm[..]);
    var state := Pad(seq(|x.ch.A|, _ => 0.0), lanes);
    if t.hasInit {
      state := Pad(ssm[t.dim][entry], lanes);
    }
    ghost var ts := Tokens(x, t, m);
    ghost var tr := Scan(x.ch, InitialState(x, t, m), ts);
    ScanFollows(x, t, m);
    RunTask(x, p, t, delta, z, ssm, lanes, Pad(x.ch.A, lanes), state, entry,
            ts, tr, m.delta[t.row], if x.hasZ then m.z[t.row] else [], m.ssm[t.dim]);
    assert tr.outs[..t.len] == tr.outs && tr.gates[..t.len] == tr.gates;
    AllWritten(x.hasZ, t, m, tr, Mem(delta[..], z[..], ssm[..]));
  }
}
