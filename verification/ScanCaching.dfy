/**
 Prefix caching of scan states, end to end: the chunk metadata the scheduler side
 builds, the slots the kernel checkpoints into, and a later scan that resumes there.
 */
module ScanCaching {
  import opened Arithmetic
  import opened SelectiveScan
  import opened ScanKernel

  // ------------------------------------------------------------- chunk metadata

  function CeilDiv(a: nat, b: nat): nat
    requires b > 0
  { (a + b - 1) / b }

  function BlockIdxFirst(computed: nat, size: nat): int
    requires size > 0
  { (computed + size) / size - 1 }

  /** Block of the last scheduled token, clamped for a padded request of length zero. */
  function BlockIdxLast(seqLen: nat, size: nat): int
    requires size > 0
  { var b := (seqLen + size - 1) / size - 1; if b < 0 then 0 else b }

  /** Block of the last computed token, whose slot holds the state a request resumes from. */
  function BlockIdxLastComputed(computed: nat, size: nat): int
    requires size > 0
  { var b := (computed + size - 1) / size - 1; if b < 0 then 0 else b }

  /** Tokens of the request before its chunk `c`: chunks are cut where blocks end. */
  function ChunkStart(computed: nat, size: nat, c: nat): int
    requires size > 0
  {
    if c == 0 then 0 else (computed / size + c) * size - computed
  }

  lemma Quotient0(n: int, d: int, q: int)
    requires d > 0 && q * d <= n < q * d + d
    ensures n / d == q
  {
    assert (n / d - q) * d == n - n % d - q * d;
    SmallMultiple(n / d - q, d);
  }

  lemma CeilDivStep(n: nat, d: nat)
    requires n > 0 && d > 0
    ensures CeilDiv(n, d) == 1 + CeilDiv(if n <= d then 0 else n - d, d)
    ensures CeilDiv(0, d) == 0
  {
    Quotient0(d - 1, d, 0);
    if n <= d {
      Quotient0(n + d - 1, d, 1);
    } else {
      var q := (n - 1) / d;
      Quotient0(n + d - 1, d, q + 1);
      Quotient0(n - d + d - 1, d, q);
    }
  }

  /** The chunks of one request as the builder appends them: `n` starts from `f` on, up to `consumed` tokens. */
  ghost predicate Appended(cu: seq<int>, f: nat, n: nat, base: int, computed: nat, size: nat)
    requires size > 0
  {
    f + n <= |cu| && forall c :: 0 <= c < n ==> cu[f + c] == base + ChunkStart(computed, size, c)
  }

  lemma AppendedNext(cu: seq<int>, f: nat, n: nat, base: int, computed: nat, size: nat, pos: int)
    requires size > 0 && f + n == |cu| && Appended(cu, f, n, base, computed, size)
    requires pos == base + ChunkStart(computed, size, n)
    ensures Appended(cu + [pos], f, n + 1, base, computed, size)
  {
  }

  /** The boundary reached after finishing chunk `c - 1` in full. */
  lemma NextStart(computed: nat, size: nat, c: nat)
    requires size > 0
    ensures c > 0 ==> ChunkStart(computed, size, c) + size == ChunkStart(computed, size, c + 1)
    ensures ChunkStart(computed, size, 1) == size - computed % size
    ensures computed % size == 0 ==> ChunkStart(computed, size, 0) + size == ChunkStart(computed, size, 1)
  {
    var q := computed / size;
    assert (q + c + 1) * size == (q + c) * size + size;
    assert (q + 1) * size == q * size + size;
  }

  /**
   How many chunks a request gets: they reach into the block of its last token.  One without new
   tokens gets an empty chunk if it stopped inside a block, and none otherwise.
   */
  ghost predicate Cut(n: nat, computed: nat, tokens: nat, size: nat)
    requires size > 0
  {
    if tokens > 0 then n >= 1 && ChunkStart(computed, size, n - 1) < tokens <= ChunkStart(computed, size, n)
    else n == if computed % size == 0 then 0 else 1
  }

  /** One request of `_compute_chunk_metadata`. */
  method ChunkRequest(cu: seq<int>, pos: int, computed: nat, tokens: nat, size: nat) returns (cu': seq<int>, pos': int, ghost n: nat)
    requires size > 0
    ensures |cu'| == |cu| + n && cu'[..|cu|] == cu && pos' == pos + tokens
    ensures Appended(cu', |cu|, n, pos, computed, size) && Cut(n, computed, tokens, size)
  {
    cu', pos', n := cu, pos, 0;
    var remaining := tokens;
    NextStart(computed, size, 0);
    if computed % size != 0 {
      AppendedNext(cu', |cu|, 0, pos, computed, size, pos');
      cu', n := cu' + [pos'], 1;
      FinishBlock(computed, size);
      var len := Min(CeilDiv(computed, size) * size - computed, remaining);
      pos', remaining := pos' + len, remaining - len;
    }
    var chunks := CeilDiv(remaining, size);
    var k := 0;
    CeilDivStep(1, size);
    while k < chunks
      invariant 0 <= k <= chunks && remaining >= 0 && pos' == pos + tokens - remaining
      invariant chunks - k == CeilDiv(remaining, size)
      invariant |cu'| == |cu| + n && cu'[..|cu|] == cu && Appended(cu', |cu|, n, pos, computed, size)
      invariant n > 0 && tokens > 0 ==> ChunkStart(computed, size, n - 1) < tokens - remaining <= ChunkStart(computed, size, n)
      invariant tokens == 0 ==> chunks == 0 && n == if computed % size == 0 then 0 else 1
      invariant remaining > 0 ==> tokens - remaining == ChunkStart(computed, size, n)
      invariant n == 0 ==> computed % size == 0 && remaining == tokens
    {
      if remaining > 0 { CeilDivStep(remaining, size); }
      NextStart(computed, size, n);
      AppendedNext(cu', |cu|, n, pos, computed, size, pos');
      cu', n := cu' + [pos'], n + 1;
      var len := Min(size, remaining);
      pos', remaining := pos' + len, remaining - len;
      k := k + 1;
    }
    if remaining > 0 { CeilDivStep(remaining, size); }
  }

  lemma FinishBlock(computed: nat, size: nat)
    requires size > 0 && computed % size != 0
    ensures CeilDiv(computed, size) * size - computed == size - computed % size
  {
    var q := computed / size;
    Quotient0(computed + size - 1, size, q + 1);
    assert (q + 1) * size == q * size + size;
  }

  /** First chunk of request `r`, as the kernel finds it. */
  function ChunkFrom(last: seq<int>, r: nat): int
    requires r <= |last|
  { if r == 0 then 0 else last[r - 1] + 1 }

  /** Request `r` got consecutive chunks that start where its blocks start, and end where the next request starts. */
  ghost predicate RequestChunked(cu: seq<int>, last: seq<int>, r: nat, computed: seq<nat>, starts: seq<int>, size: nat)
    requires size > 0 && r < |last| && r < |computed| && r + 1 < |starts|
  {
    var f := ChunkFrom(last, r);
    var n := last[r] - f + 1;
    var tokens := starts[r + 1] - starts[r];
    && 0 <= f && 0 <= n && f + n < |cu| && 0 <= tokens
    && Appended(cu, f, n, starts[r] - starts[0], computed[r], size)
    && cu[f + n] == starts[r + 1] - starts[0]
    && Cut(n, computed[r], tokens, size)
  }

  /** `_compute_chunk_metadata`. */
  method ComputeChunkMetadata(size: nat, computed: seq<nat>, starts: seq<int>) returns (cu: seq<int>, last: seq<int>)
    requires size > 0 && |starts| == |computed| + 1
    requires forall r :: 0 <= r < |computed| ==> starts[r] <= starts[r + 1]
    ensures |last| == |computed|
    ensures forall r :: 0 <= r < |computed| ==> RequestChunked(cu, last, r, computed, starts, size)
  {
    cu, last := [], [];
    var pos := 0;
    var r := 0;
    while r < |computed|
      invariant 0 <= r <= |computed| && |last| == r && pos == starts[r] - starts[0]
      invariant ChunkFrom(last, r) == |cu|
      invariant forall q :: 0 <= q < r ==> RequestChunked(cu + [pos], last, q, computed, starts, size)
    {
      ghost var cu0, last0, pos0 := cu, last, pos;
      ghost var n;
      cu, pos, n := ChunkRequest(cu, pos, computed[r], starts[r + 1] - starts[r], size);
      last := last + [|cu| - 1];
      assert ChunkFrom(last, r) == |cu0|;
      assert n > 0 ==> cu[|cu0|] == pos0 + ChunkStart(computed[r], size, 0);
      assert (cu + [pos])[|cu0|] == pos0 && (cu + [pos])[..|cu0|] == cu0;
      forall q | 0 <= q < r
        ensures RequestChunked(cu + [pos], last, q, computed, starts, size)
      {
        assert RequestChunked(cu0 + [pos0], last0, q, computed, starts, size);
        Extended(cu0, pos0, cu + [pos], last0, last, q, computed, starts, size);
      }
      r := r + 1;
    }
    cu := cu + [pos];
  }

  /** What is known of earlier requests survives appending more chunks. */
  lemma Extended(cu0: seq<int>, pos0: int, cu: seq<int>, last0: seq<int>, last: seq<int>, q: nat, computed: seq<nat>, starts: seq<int>, size: nat)
    requires size > 0 && q < |last0| && q < |computed| && q + 1 < |starts|
    requires RequestChunked(cu0 + [pos0], last0, q, computed, starts, size)
    requires |cu0| < |cu| && cu[..|cu0|] == cu0 && cu[|cu0|] == pos0 && |last0| <= |last| && last[..|last0|] == last0
    ensures RequestChunked(cu, last, q, computed, starts, size)
  {
    assert cu[..|cu0| + 1] == cu0 + [pos0];
    assert forall i :: 0 <= i <= |cu0| ==> cu[i] == (cu0 + [pos0])[i];
    assert last[q] == last0[q] && (q > 0 ==> last[q - 1] == last0[q - 1]);
  }

  // ------------------------------------------------- what the metadata guarantees

  /** The plan the kernel derives for one request from the metadata. */
  ghost predicate Scheduled(p: ChunkPlan, computed: nat, tokens: nat) {
    && p.size > 0 && tokens > 0 && p.Count() >= 1
    && (forall c :: 0 <= c < p.Count() ==> p.cu[c] - p.cu[0] == ChunkStart(computed, p.size, c))
    && p.cu[p.Count()] - p.cu[0] == tokens
    && ChunkStart(computed, p.size, p.Count() - 1) < tokens <= ChunkStart(computed, p.size, p.Count())
    && p.blockFirst == BlockIdxFirst(computed, p.size)
    && p.blockLast == BlockIdxLast(computed + tokens, p.size)
  }

  /** A slice of appended chunks holds their starts, relative to the request. */
  lemma SliceOfAppended(cu: seq<int>, f: nat, n: nat, base: int, computed: nat, size: nat, slice: seq<int>, c: nat)
    requires size > 0 && f + n < |cu| && slice == cu[f..f + n + 1] && c < n && Appended(cu, f, n, base, computed, size)
    ensures slice[c] - slice[0] == ChunkStart(computed, size, c)
  {
    var z := 0;
    assert slice[c] == cu[f + c] == base + ChunkStart(computed, size, c);
    assert slice[z] == cu[f + z] == base + ChunkStart(computed, size, z);
  }

  /** The slices the kernel takes from the builder's metadata are scheduled plans. */
  lemma MetadataIsScheduled(cu: seq<int>, last: seq<int>, r: nat, computed: seq<nat>, starts: seq<int>, p: ChunkPlan)
    requires p.size > 0 && r < |last| && r < |computed| && r + 1 < |starts| && starts[r] < starts[r + 1]
    requires RequestChunked(cu, last, r, computed, starts, p.size)
    requires p.cu == cu[ChunkFrom(last, r)..last[r] + 2]
    requires p.blockFirst == BlockIdxFirst(computed[r], p.size)
    requires p.blockLast == BlockIdxLast(computed[r] + (starts[r + 1] - starts[r]), p.size)
    ensures Scheduled(p, computed[r], starts[r + 1] - starts[r])
  {
    var f := ChunkFrom(last, r);
    var n := last[r] - f + 1;
    assert p.Count() == n;
    forall c | 0 <= c < n
      ensures p.cu[c] - p.cu[0] == ChunkStart(computed[r], p.size, c)
    {
      SliceOfAppended(cu, f, n, starts[r] - starts[0], computed[r], p.size, p.cu, c);
    }
    assert p.cu[0] == cu[f + 0] && p.cu[n] == cu[f + n];
  }

  lemma BlockOfFirst(computed: nat, size: nat)
    requires size > 0
    ensures BlockIdxFirst(computed, size) == computed / size
  {
    var q := computed / size;
    assert (q + 1) * size == q * size + size;
    Quotient0(computed + size, size, q + 1);
  }

  /** Absolute position at which chunk `c` of a request ends, if it is not the last: the end of block first + c. */
  lemma BlockOfLast(computed: nat, tokens: nat, size: nat, n: nat)
    requires size > 0 && tokens > 0 && n >= 1
    requires ChunkStart(computed, size, n - 1) < tokens <= ChunkStart(computed, size, n)
    ensures BlockIdxLast(computed + tokens, size) == computed / size + n - 1
  {
    var q := computed / size;
    var total := computed + tokens;
    assert (q + n) * size == (q + n - 1) * size + size;
    assert n == 1 ==> (q + n - 1) * size <= computed;
    Quotient0(total + size - 1, size, q + n);
  }

  /**
   The metadata does what the kernel relies on: the plan is well chunked, every chunk's
   state goes to the slot of block first + c, and every chunk but the last ends exactly
   where that block ends.
   */
  lemma ScheduledIsWellChunked(p: ChunkPlan, computed: nat, tokens: nat)
    requires Scheduled(p, computed, tokens)
    ensures WellChunked(p)
    ensures forall c :: 0 <= c < p.Count() ==> p.Block(c) == computed / p.size + c
    ensures forall c :: 0 <= c < p.Count() - 1 ==> computed + p.End(c) == (computed / p.size + c + 1) * p.size
    ensures p.End(p.Count() - 1) == tokens
  {
    var n := p.Count();
    BlockOfFirst(computed, p.size);
    BlockOfLast(computed, tokens, p.size, n);
    forall c | 0 <= c < n
      ensures c + 1 < n ==> p.cu[c + 1] - p.cu[c] == (if c == 0 then p.size - computed % p.size else p.size)
      ensures p.cu[c] <= p.cu[c + 1]
    {
      NextStart(computed, p.size, c);
    }
  }

  // ------------------------------------------------------------- prefix resume

  /** A checkpoint no later checkpoint overwrites is still there at the end. */
  lemma {:induction false} SlotHoldsState(states: seq<Vec>, column: seq<Vec>, stores: seq<Store>, n: nat, c: nat)
    requires StoresFit(states, column, stores) && c < n <= |stores|
    requires forall e :: c < e < n ==> stores[e].slot != stores[c].slot
    ensures Slots(states, column, stores, n)[stores[c].slot] == states[stores[c].tokens]
  {
    if c < n - 1 {
      SlotHoldsState(states, column, stores, n - 1, c);
    }
  }

  function ZeroState(ch: Channel): (s: Vec)
    ensures |s| == |ch.A|
  { seq(|ch.A|, _ => 0.0) }

  /** A request's program, the tokens it computed before, and its plan: what the scheduler hands the kernel. */
  ghost predicate Prefill(x: Inputs, p: ChunkPlan, t: Task, m: Mem, history: seq<Token>) {
    && Fits(x, t, m) && !t.skip
    && PlanOk(p) && Scheduled(p, |history|, t.len) && t.stores == PlanStores(p)
    && TokensOk(x.ch, history)
    && InitialState(x, t, m) == States(x.ch, ZeroState(x.ch), history)[|history|]
    && (forall c, e :: 0 <= c < e < p.Count() ==> p.table[p.Block(c)] != p.table[p.Block(e)])
  }

  /** Tokens of the whole sequence that chunk `c` completes. */
  function CompletedBy(p: ChunkPlan, computed: nat, tokens: nat, c: nat): int
    requires p.size > 0
  {
    if c == p.Count() - 1 then computed + tokens else (computed / p.size + c + 1) * p.size
  }

  /** Checkpoint `c` goes to the slot of block first + c, at the end of that block. */
  lemma StoreOfPlan(p: ChunkPlan, computed: nat, tokens: nat, c: nat)
    requires PlanOk(p) && Scheduled(p, computed, tokens) && c < p.Count()
    ensures 0 <= computed / p.size + c < |p.table| && p.table[computed / p.size + c] >= 0
    ensures p.Block(c) == computed / p.size + c
    ensures PlanStores(p)[c].slot == p.table[computed / p.size + c]
    ensures PlanStores(p)[c].tokens == CompletedBy(p, computed, tokens, c) - computed
  {
    ScheduledIsWellChunked(p, computed, tokens);
    assert p.Block(c) == computed / p.size + c;
  }

  lemma StoreOfChunk(x: Inputs, p: ChunkPlan, t: Task, m: Mem, history: seq<Token>, c: nat)
    requires Prefill(x, p, t, m, history) && c < p.Count()
    ensures 0 <= |history| / p.size + c < |p.table| && p.table[|history| / p.size + c] >= 0
    ensures t.stores[c].slot == p.table[|history| / p.size + c]
    ensures t.stores[c].tokens == CompletedBy(p, |history|, t.len, c) - |history|
    ensures forall e :: c < e < |t.stores| ==> t.stores[e].slot != t.stores[c].slot
  {
    StoreOfPlan(p, |history|, t.len, c);
    assert t.stores[c] == Store(p.table[p.Block(c)], p.End(c));
    forall e | c < e < |t.stores|
      ensures t.stores[e].slot != t.stores[c].slot
    {
      assert t.stores[e] == Store(p.table[p.Block(e)], p.End(e));
    }
  }

  /**
   What the kernel leaves in the slot of block first + c is the fold, from the zero state, of
   every token of the sequence up to the end of that block (up to the last token for the last chunk).
   */
  lemma CheckpointIsPrefixFold(x: Inputs, p: ChunkPlan, t: Task, m: Mem, history: seq<Token>, c: nat)
    requires Prefill(x, p, t, m, history) && c < p.Count()
    ensures var k := |history| / p.size + c; var upTo := CompletedBy(p, |history|, t.len, c);
      var all := history + Tokens(x, t, m);
      && 0 <= k < |p.table| && 0 <= p.table[k] < |Effect(x, t, m).ssm[t.dim]|
      && 0 <= upTo <= |all| && TokensOk(x.ch, all)
      && Effect(x, t, m).ssm[t.dim][p.table[k]] == States(x.ch, ZeroState(x.ch), all)[upTo]
  {
    var ts, s := Tokens(x, t, m), InitialState(x, t, m);
    var states := States(x.ch, s, ts);
    StoreOfChunk(x, p, t, m, history, c);
    SlotHoldsState(states, m.ssm[t.dim], t.stores, |t.stores|, c);
    StatesResume(x.ch, ZeroState(x.ch), history, ts);
  }

  /** The states up to a cut do not depend on what follows it. */
  lemma {:induction false} StatesOfPrefix(ch: Channel, s: Vec, ts: seq<Token>, n: nat)
    requires |s| == |ch.A| && TokensOk(ch, ts) && n <= |ts|
    ensures States(ch, s, ts[..n])[n] == States(ch, s, ts)[n]
  {
    assert ts[..n] + ts[n..] == ts;
    StatesResume(ch, s, ts[..n], ts[n..]);
  }

  /** Whoever has computed up to the end of chunk `c` resumes from the slot that chunk was stored in. */
  lemma BlockToResumeFrom(p: ChunkPlan, computed: nat, tokens: nat, c: nat)
    requires Scheduled(p, computed, tokens) && c < p.Count()
    ensures CompletedBy(p, computed, tokens, c) >= 0
    ensures BlockIdxLastComputed(CompletedBy(p, computed, tokens, c), p.size) == computed / p.size + c
  {
    if c == p.Count() - 1 {
      BlockOfLast(computed, tokens, p.size, p.Count());
    } else {
      EndOfBlock(computed / p.size + c, p.size);
    }
  }

  lemma EndOfBlock(k: nat, size: nat)
    requires size > 0
    ensures (k + 1) * size >= 0 && BlockIdxLastComputed((k + 1) * size, size) == k
  {
    assert (k + 1) * size == k * size + size;
    Quotient0((k + 1) * size + size - 1, size, k + 1);
  }

  /** A scan that starts from the state at the end of `shared` writes the tail of one scan over everything. */
  lemma TailOfWhole(x: Inputs, t: Task, m: Mem, shared: seq<Token>)
    requires Fits(x, t, m) && !t.skip && TokensOk(x.ch, shared)
    requires InitialState(x, t, m) == States(x.ch, ZeroState(x.ch), shared)[|shared|]
    ensures TokensOk(x.ch, shared + Tokens(x, t, m))
    ensures var whole := Scan(x.ch, ZeroState(x.ch), shared + Tokens(x, t, m));
      && Effect(x, t, m).delta[t.row] == Overwrite(m.delta[t.row], t.start, whole.outs[|shared|..])
      && (x.hasZ ==> Effect(x, t, m).z[t.row] == Overwrite(m.z[t.row], t.start, whole.gates[|shared|..]))
  {
    var rest := Tokens(x, t, m);
    ScanResume(x.ch, ZeroState(x.ch), shared, rest);
    var whole := Scan(x.ch, ZeroState(x.ch), shared + rest);
    var tail := Scan(x.ch, InitialState(x, t, m), rest);
    assert whole.outs[|shared|..] == tail.outs;
    assert whole.gates[|shared|..] == tail.gates;
  }

  /** The tokens of the sequence up to the end of block first + c, or all of them for the last chunk. */
  ghost function Shared(x: Inputs, p: ChunkPlan, t: Task, m: Mem, history: seq<Token>, c: nat): seq<Token>
    requires Prefill(x, p, t, m, history) && c < p.Count()
  {
    CheckpointIsPrefixFold(x, p, t, m, history, c);
    (history + Tokens(x, t, m))[..CompletedBy(p, |history|, t.len, c)]
  }

  /** The slot of block first + c holds the fold of the shared tokens. */
  lemma SlotHoldsShared(x: Inputs, p: ChunkPlan, t: Task, m: Mem, history: seq<Token>, c: nat)
    requires Prefill(x, p, t, m, history) && c < p.Count()
    ensures var k := |history| / p.size + c; var shared := Shared(x, p, t, m, history, c);
      && 0 <= k < |p.table| && 0 <= p.table[k] < |Effect(x, t, m).ssm[t.dim]|
      && TokensOk(x.ch, shared) && |shared| == CompletedBy(p, |history|, t.len, c)
      && Effect(x, t, m).ssm[t.dim][p.table[k]] == States(x.ch, ZeroState(x.ch), shared)[|shared|]
      && BlockIdxLastComputed(|shared|, p.size) == k
  {
    CheckpointIsPrefixFold(x, p, t, m, history, c);
    StatesOfPrefix(x.ch, ZeroState(x.ch), history + Tokens(x, t, m), CompletedBy(p, |history|, t.len, c));
    BlockToResumeFrom(p, |history|, t.len, c);
  }

  /**
   Prefix resume is exact.  A later request that shares the sequence up to the end of block k, or
   continues it from its last token, and starts from the slot the first one left there, writes
   exactly the outputs that one uninterrupted scan of the whole sequence would give for its tokens.
   */
  lemma ResumeIsExact(x: Inputs, p: ChunkPlan, t: Task, m: Mem, history: seq<Token>, c: nat, x2: Inputs, t2: Task, m2: Mem)
    requires Prefill(x, p, t, m, history) && c < p.Count()
    requires Fits(x2, t2, m2) && !t2.skip && x2.ch == x.ch && t2.dim == t.dim && t2.hasInit
    requires var k := |history| / p.size + c;
      && 0 <= k < |p.table| && t2.loadSlot == p.table[k] && t2.loadSlot < |Effect(x, t, m).ssm[t.dim]|
      && m2.ssm[t.dim][t2.loadSlot] == Effect(x, t, m).ssm[t.dim][t2.loadSlot]
    ensures var shared := Shared(x, p, t, m, history, c);
      && TokensOk(x.ch, shared + Tokens(x2, t2, m2))
      && var whole := Scan(x.ch, ZeroState(x.ch), shared + Tokens(x2, t2, m2));
      && Effect(x2, t2, m2).delta[t2.row] == Overwrite(m2.delta[t2.row], t2.start, whole.outs[|shared|..])
      && (x2.hasZ ==> Effect(x2, t2, m2).z[t2.row] == Overwrite(m2.z[t2.row], t2.start, whole.gates[|shared|..]))
  {
    SlotHoldsShared(x, p, t, m, history, c);
    TailOfWhole(x2, t2, m2, Shared(x, p, t, m, history, c));
  }

  /**
   Chunking is invisible: for every well-formed chunking of the tokens, from any initial state and into
   any slots, outputs are those of a single chunk, and the last checkpoint is its final state.
   */
  lemma ChunkingIsInvisible(x: Inputs, p: ChunkPlan, t: Task, m: Mem, single: Task)
    requires Fits(x, t, m) && !t.skip
    requires PlanOk(p) && t.stores == PlanStores(p) && p.End(p.Count() - 1) == t.len
    requires single == t.(stores := [Store(t.loadSlot, t.len)])
    ensures Fits(x, single, m)
    ensures Effect(x, t, m).delta == Effect(x, single, m).delta && Effect(x, t, m).z == Effect(x, single, m).z
    ensures var lastSlot := t.stores[|t.stores| - 1].slot;
      lastSlot < |Effect(x, t, m).ssm[t.dim]| && t.loadSlot < |Effect(x, single, m).ssm[t.dim]| &&
      Effect(x, t, m).ssm[t.dim][lastSlot] == Effect(x, single, m).ssm[t.dim][t.loadSlot]
  {
    var ts, s := Tokens(x, t, m), InitialState(x, t, m);
    assert Tokens(x, single, m) == ts && InitialState(x, single, m) == s;
    var states := States(x.ch, s, ts);
    var n := |t.stores|;
    SlotHoldsState(states, m.ssm[t.dim], t.stores, n, n - 1);
    SlotHoldsState(states, m.ssm[t.dim], single.stores, 1, 0);
  }
}
