/**
 * How an allocation is cut into chunks, after my_malloc and get_memcreate_chunk_size in csrc/cumem_allocator.cpp.
 *
 * Sizes are 64-bit unsigned in the source, so sums that may exceed 64 bits are taken modulo WORD.
 */
module Chunking {
  import opened Arithmetic

  const WORD: nat := 0x1_0000_0000_0000_0000
  const MB: nat := 1024 * 1024
  const DEFAULT_CHUNK: nat := 256 * MB

  /** What the environment variable holds: nothing, text that is not a number in range, or a number of megabytes. */
  datatype Setting = Unset | Unparsable | Megabytes(mb: nat)

  /** The configured chunk size in bytes. */
  function ChunkSetting(s: Setting): (r: nat)
    ensures 0 < r < WORD && r % MB == 0
    ensures r == DEFAULT_CHUNK || (s.Megabytes? && r == s.mb * MB)
    ensures s.Megabytes? && 0 < s.mb * MB < WORD ==> r == s.mb * MB
  {
    match s
    case Unset => DEFAULT_CHUNK
    case Unparsable => DEFAULT_CHUNK
    case Megabytes(mb) => if mb == 0 || mb > (WORD - 1) / MB then DEFAULT_CHUNK else mb * MB
  }

  // ---- Multiples ----

  function Times(q: nat, g: nat): nat { if q == 0 then 0 else Times(q - 1, g) + g }

  lemma {:induction false} TimesIsProduct(q: nat, g: nat)
    ensures Times(q, g) == q * g
  {
    if q > 0 {
      TimesIsProduct(q - 1, g);
      assert q * g == (q - 1) * g + g;
    }
  }

  lemma {:induction false} TimesIsMonotone(p: nat, q: nat, g: nat)
    requires p <= q
    ensures Times(p, g) <= Times(q, g)
  {
    if p < q { TimesIsMonotone(p, q - 1, g); }
  }

  lemma IsMultiple(q: nat, g: nat)
    requires g > 0
    ensures Times(q, g) % g == 0
  {
    var x := Times(q, g);
    TimesIsProduct(q, g);
    assert x == g * (x / g) + x % g;
    assert g * (q - x / g) == x % g;
    SmallMultiple(q - x / g, g);
  }

  lemma Divides(x: nat, g: nat)
    requires g > 0
    ensures x == Times(x / g, g) + x % g
  {
    TimesIsProduct(x / g, g);
  }

  lemma {:induction false} TimesAdds(p: nat, q: nat, g: nat)
    ensures Times(p + q, g) == Times(p, g) + Times(q, g)
  {
    if q > 0 { TimesAdds(p, q - 1, g); }
  }

  /** Multiples are closed under addition. */
  lemma Total(a: nat, b: nat, g: nat)
    requires g > 0 && a % g == 0 && b % g == 0
    ensures (a + b) % g == 0
  {
    Divides(a, g);
    Divides(b, g);
    TimesAdds(a / g, b / g, g);
    IsMultiple(a / g + b / g, g);
  }

  /** Multiples are closed under subtraction, and two that are less than `g` apart are equal. */
  lemma Difference(a: nat, b: nat, g: nat)
    requires g > 0 && a % g == 0 && b % g == 0 && b <= a
    ensures (a - b) % g == 0 && (a - b < g ==> a == b)
  {
    var p, q := a / g, b / g;
    Divides(a, g);
    Divides(b, g);
    if p < q { TimesIsMonotone(p, q, g); }
    if q <= p {
      TimesAdds(q, p - q, g);
      IsMultiple(p - q, g);
      if p - q >= 1 { TimesIsMonotone(1, p - q, g); }
    }
  }

  // ---- Rounding up ----

  function Wrap(x: nat): nat { x % WORD }

  /** Rounding up to a multiple of `g`, as 64-bit arithmetic computes it. */
  function AlignUp(x: nat, g: nat): nat
    requires g > 0
  { Times(Wrap(x + g - 1) / g, g) }

  /** Rounding up gives the least multiple that is large enough exactly when the sum does not wrap. */
  lemma AlignUpIff(x: nat, g: nat)
    requires 0 < g < WORD && x < WORD
    ensures AlignUp(x, g) % g == 0 && AlignUp(x, g) < WORD
    ensures x <= AlignUp(x, g) <==> x + g - 1 < WORD
    ensures x + g - 1 < WORD ==> AlignUp(x, g) < x + g
  {
    var t := Wrap(x + g - 1);
    IsMultiple(t / g, g);
    Divides(t, g);
  }

  /** Rounding up gives nothing at all exactly for nothing and when the sum wraps. */
  lemma AlignUpIsZeroIff(x: nat, g: nat)
    requires 0 < g < WORD && x < WORD
    ensures AlignUp(x, g) == 0 <==> x == 0 || x + g - 1 >= WORD
  {
    var t := Wrap(x + g - 1);
    Divides(t, g);
    if t / g > 0 { TimesIsMonotone(1, t / g, g); }
  }

  /**
   * A configured chunk size rounds up to zero exactly when rounding wraps, as 17592186044415 megabytes do with a
   * granularity of two.
   */
  lemma ChunkSettingIsZeroIff(s: Setting, g: nat)
    requires 0 < g < WORD
    ensures AlignUp(ChunkSetting(s), g) == 0 <==> ChunkSetting(s) + g - 1 >= WORD
    ensures g == 2 * MB && s == Megabytes(17592186044415) ==> AlignUp(ChunkSetting(s), g) == 0
  {
    AlignUpIsZeroIff(ChunkSetting(s), g);
  }

  /** A size is its own rounding exactly when it is a multiple already. */
  lemma AlignedIff(x: nat, g: nat)
    requires 0 < g < WORD && x + g - 1 < WORD
    ensures AlignUp(x, g) == x <==> x % g == 0
  {
    AlignUpIff(x, g);
    if x % g == 0 { Difference(AlignUp(x, g), x, g); }
  }

  // ---- Chunks ----

  /** Bytes in the first `n` chunks: where chunk `n` begins. */
  function Sum(c: seq<nat>, n: nat): nat
    requires n <= |c|
  { if n == 0 then 0 else Sum(c, n - 1) + c[n - 1] }

  ghost predicate Fits(x: nat, g: nat, whole: nat)
    requires g > 0
  { 0 < x <= whole && x % g == 0 }

  /** Chunk `i` is a positive multiple of the granularity, and a whole chunk unless it is the last. */
  ghost predicate ChunkOk(c: seq<nat>, g: nat, whole: nat, i: nat)
    requires i < |c| && g > 0
  { Fits(c[i], g, whole) && (i + 1 < |c| ==> c[i] == whole) }

  ghost predicate ChunksOk(c: seq<nat>, g: nat, whole: nat)
    requires g > 0
  { forall i: nat {:trigger ChunkOk(c, g, whole, i)} :: i < |c| ==> ChunkOk(c, g, whole, i) }

  /** `n` whole chunks are enough, and one fewer would not be. */
  ghost predicate Enough(aligned: nat, whole: nat, n: nat) { aligned <= Times(n, whole) < aligned + whole }

  /** The number of chunks, as 64-bit arithmetic computes it. */
  function Count(aligned: nat, whole: nat): nat
    requires whole > 0
  { Wrap(aligned + whole - 1) / whole }

  /** The count is enough when it does not wrap around; when it does, it is zero. */
  lemma CountIff(aligned: nat, whole: nat)
    requires 0 < whole < WORD && aligned < WORD
    ensures aligned + whole - 1 < WORD ==> Enough(aligned, whole, Count(aligned, whole))
    ensures aligned == 0 || aligned + whole - 1 >= WORD ==> Count(aligned, whole) == 0
  {
    var t := Wrap(aligned + whole - 1);
    Divides(t, whole);
    if t / whole > 0 { TimesIsMonotone(1, t / whole, whole); }
  }

  /** One chunk: what is left of the allocation, but no more than a whole chunk. */
  lemma NextChunk(aligned: nat, g: nat, whole: nat, n: nat, i: nat)
    requires g > 0 && whole > 0 && i < n && aligned % g == 0 && whole % g == 0
    requires Enough(aligned, whole, n) && Times(i, whole) % g == 0
    ensures Times(i, whole) < aligned
    ensures i + 1 < n ==> Times(i + 1, whole) < aligned
    ensures i + 1 == n ==> aligned <= Times(i + 1, whole)
    ensures (aligned - Times(i, whole)) % g == 0 && Times(i + 1, whole) % g == 0
    ensures Times(i + 1, whole) == Times(i, whole) + whole
  {
    TimesIsMonotone(i + 1, n, whole);
    if i + 1 < n { TimesIsMonotone(i + 2, n, whole); }
    Difference(aligned, Times(i, whole), g);
    Total(Times(i, whole), whole, g);
  }

  lemma {:induction false} SumOfPrefix(c: seq<nat>, d: seq<nat>, n: nat)
    requires n <= |c| && n <= |d| && c[..n] == d[..n]
    ensures Sum(c, n) == Sum(d, n)
  {
    if n > 0 {
      assert c[n - 1] == c[..n][n - 1] == d[n - 1];
      assert c[..n - 1] == c[..n][..n - 1] && d[..n - 1] == d[..n][..n - 1];
      SumOfPrefix(c, d, n - 1);
    }
  }

  method FillChunks(aligned: nat, g: nat, whole: nat, n: nat) returns (chunks: array<nat>)
    requires g > 0 && whole > 0 && aligned % g == 0 && whole % g == 0 && (n > 0 ==> Enough(aligned, whole, n))
    ensures fresh(chunks) && chunks.Length == n && ChunksOk(chunks[..], g, whole)
    ensures Sum(chunks[..], n) == if n > 0 then aligned else 0
  {
    chunks := new nat[n];
    var i := 0;
    while i < n
      invariant 0 <= i <= n
      invariant Times(i, whole) % g == 0
      invariant forall j: nat {:trigger chunks[j]} :: j < i ==> Fits(chunks[j], g, whole) && (j + 1 < n ==> chunks[j] == whole)
      invariant Sum(chunks[..i], i) == if n == 0 || i < n then Times(i, whole) else aligned
    {
      NextChunk(aligned, g, whole, n, i);
      ghost var before := chunks[..i];
      var left := aligned - Times(i, whole);
      chunks[i] := if left < whole then left else whole;
      SumOfPrefix(before, chunks[..i + 1], i);
      i := i + 1;
    }
    assert chunks[..n] == chunks[..];
    forall j: nat | j < |chunks[..]| ensures ChunkOk(chunks[..], g, whole, j) { assert chunks[..][j] == chunks[j]; }
  }

  /**
   * The chunks of an allocation: together they are exactly as large as it is, unless the count wraps around and there
   * are none at all. Counting chunks of size zero divides by zero.
   */
  method ComputeChunks(aligned: nat, g: nat, whole: nat) returns (ok: bool, chunks: array<nat>)
    requires 0 < g < WORD && whole < WORD && aligned < WORD && aligned % g == 0 && whole % g == 0
    ensures ok <==> whole != 0
    ensures ok ==> fresh(chunks) && ChunksOk(chunks[..], g, whole)
    ensures ok ==> (Sum(chunks[..], chunks.Length) == aligned <==> aligned == 0 || aligned + whole - 1 < WORD)
    ensures ok && Sum(chunks[..], chunks.Length) != aligned ==> chunks.Length == 0
  {
    ok := whole != 0;
    if !ok {
      chunks := new nat[0];
      return;
    }
    CountIff(aligned, whole);
    chunks := FillChunks(aligned, g, whole, Count(aligned, whole));
  }

  // ---- The chunks tile the allocation ----

  lemma {:induction false} SumIsMonotone(c: seq<nat>, m: nat, n: nat)
    requires m <= n <= |c|
    ensures Sum(c, m) <= Sum(c, n)
  {
    if m < n { SumIsMonotone(c, m, n - 1); }
  }

  /** Byte `x` lies in chunk `i`. */
  ghost predicate InChunk(c: seq<nat>, i: nat, x: nat) { i < |c| && Sum(c, i) <= x < Sum(c, i + 1) }

  /** Every byte of an allocation lies in exactly one chunk. */
  lemma {:induction false} ByteHasOneChunk(c: seq<nat>, n: nat, x: nat) returns (i: nat)
    requires n <= |c| && x < Sum(c, n)
    ensures InChunk(c, i, x) && i < n
    ensures forall j: nat :: InChunk(c, j, x) ==> j == i
  {
    if x < Sum(c, n - 1) {
      i := ByteHasOneChunk(c, n - 1, x);
    } else {
      i := n - 1;
    }
    forall j: nat | InChunk(c, j, x) ensures j == i {
      if j < i { SumIsMonotone(c, j + 1, i); }
      if i < j { SumIsMonotone(c, i + 1, j); }
    }
  }
}
