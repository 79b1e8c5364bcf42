/**
 * Gathering the cached context of a batch of requests, after gather_mla_context_cache_cpu in vllm/_custom_ops.py.
 *
 * The cache is a flat array of rows divided into pages. Position p of a request lies in page p / pageSize of its row of
 * the block table. The gather copies, request after request, a range of positions of each into one destination.
 */
module Gather {
  import opened Arithmetic

  datatype Cache<T> = Cache(rows: seq<T>, pageSize: nat)

  /** One request of the batch: where its range starts, how long it is, and its pages. */
  datatype Request = Request(start: int, len: int, pages: seq<nat>)

  /** Where position `p` of a request with these pages is stored. */
  function Slot(pages: seq<nat>, pageSize: nat, p: nat): nat
    requires pageSize > 0 && p / pageSize < |pages|
  { pages[p / pageSize] * pageSize + p % pageSize }

  /** The slot of a position lies in the page that the table names for it, as far in as the position is in its own page. */
  lemma SlotIsInItsPage(pages: seq<nat>, pageSize: nat, p: nat)
    requires pageSize > 0 && p / pageSize < |pages|
    ensures Slot(pages, pageSize, p) / pageSize == pages[p / pageSize] && Slot(pages, pageSize, p) % pageSize == p % pageSize
  {
    var s, q, r := Slot(pages, pageSize, p), pages[p / pageSize], p % pageSize;
    assert s == s / pageSize * pageSize + s % pageSize;
    assert (s / pageSize - q) * pageSize == s / pageSize * pageSize - q * pageSize == r - s % pageSize;
    SmallMultiple(s / pageSize - q, pageSize);
  }

  /** Position `p` is inside the request's pages and its slot inside the cache; indexing raises otherwise. */
  predicate Reachable<T>(cache: Cache<T>, pages: seq<nat>, p: int) {
    cache.pageSize > 0 && 0 <= p && p / cache.pageSize < |pages| && Slot(pages, cache.pageSize, p) < |cache.rows|
  }

  predicate Readable<T>(cache: Cache<T>, r: Request) {
    forall p {:trigger Reachable(cache, r.pages, p)} :: r.start <= p < r.start + r.len ==> Reachable(cache, r.pages, p)
  }

  /** A request's pages; reading past the table raises, so a missing row has none. */
  function Row(table: seq<seq<nat>>, i: nat): seq<nat> { if i < |table| then table[i] else [] }

  /** The requests the loop visits: it stops with the shorter of the starts and the lengths. */
  function Requests(table: seq<seq<nat>>, starts: seq<int>, cu: seq<int>): (rs: seq<Request>)
    ensures |rs| <= |starts| && (rs != [] || |cu| > 0 ==> |rs| < |cu|)
    ensures |rs| == |starts| || |rs| + 1 >= |cu|
  {
    var n := if |cu| == 0 then 0 else if |starts| < |cu| then |starts| else |cu| - 1;
    seq(n, i requires 0 <= i < n => Request(starts[i], cu[i + 1] - cu[i], Row(table, i)))
  }

  function Count(len: int): nat { if len <= 0 then 0 else len }

  /** Rows copied for the first `n` requests. */
  function Offset(rs: seq<Request>, n: nat): nat
    requires n <= |rs|
  { if n == 0 then 0 else Offset(rs, n - 1) + Count(rs[n - 1].len) }

  /** Row `k` of the destination is the `j`-th token of request `i`. */
  ghost predicate Holds<T>(dst: seq<T>, cache: Cache<T>, rs: seq<Request>, i: nat, j: nat)
    requires i < |rs| && Readable(cache, rs[i]) && j < Count(rs[i].len)
  {
    var k := Offset(rs, i) + j;
    var p := rs[i].start + j;
    assert Reachable(cache, rs[i].pages, p);
    k < |dst| && dst[k] == cache.rows[Slot(rs[i].pages, cache.pageSize, p)]
  }

  ghost predicate AllReadable<T>(cache: Cache<T>, rs: seq<Request>) {
    forall i: nat {:trigger rs[i]} :: i < |rs| ==> Readable(cache, rs[i])
  }

  /** The first `n` requests have been copied: every token of each is in its place. */
  ghost predicate Copied<T>(dst: seq<T>, cache: Cache<T>, rs: seq<Request>, n: nat)
    requires n <= |rs| && AllReadable(cache, rs)
  {
    forall i: nat, j: nat {:trigger Holds(dst, cache, rs, i, j)} ::
      i < n && j < Count(rs[i].len) ==> Holds(dst, cache, rs, i, j)
  }

  lemma {:induction false} OffsetIsMonotone(rs: seq<Request>, m: nat, n: nat)
    requires m <= n <= |rs|
    ensures Offset(rs, m) <= Offset(rs, n)
  {
    if m < n {
      OffsetIsMonotone(rs, m, n - 1);
    }
  }

  /** A token's row lies in its own request's part of the destination. */
  lemma RowIsInside(rs: seq<Request>, i: nat, j: nat, n: nat)
    requires i < n <= |rs| && j < Count(rs[i].len)
    ensures Offset(rs, i) <= Offset(rs, i) + j < Offset(rs, i + 1) <= Offset(rs, n)
  {
    OffsetIsMonotone(rs, i + 1, n);
  }

  /** Row `k` is that of token `j` of request `i`. */
  ghost predicate IsRow(rs: seq<Request>, n: nat, i: nat, j: nat, k: nat)
    requires n <= |rs|
  { i < n && j < Count(rs[i].len) && k == Offset(rs, i) + j }

  /** Every row up to the total belongs to exactly one token of exactly one request. */
  lemma {:induction false} RowHasOneToken(rs: seq<Request>, n: nat, k: nat) returns (i: nat, j: nat)
    requires n <= |rs| && k < Offset(rs, n)
    ensures IsRow(rs, n, i, j, k)
    ensures forall i': nat, j': nat :: IsRow(rs, n, i', j', k) ==> i' == i && j' == j
  {
    if k < Offset(rs, n - 1) {
      i, j := RowHasOneToken(rs, n - 1, k);
    } else {
      i, j := n - 1, k - Offset(rs, n - 1);
    }
    forall i': nat, j': nat | IsRow(rs, n, i', j', k) ensures i' == i && j' == j {
      RowIsInside(rs, i', j', n);
      if i' < i { OffsetIsMonotone(rs, i' + 1, i); }
      if i < i' { OffsetIsMonotone(rs, i + 1, i'); }
    }
  }

  ghost predicate Grows(cu: seq<int>, i: nat)
    requires i + 1 < |cu|
  { cu[i] <= cu[i + 1] }

  /** Request `i` is written where the cumulative lengths say. */
  ghost predicate InPlace(rs: seq<Request>, cu: seq<int>, i: nat)
    requires i <= |rs| && i < |cu|
  { Offset(rs, i) == cu[i] }

  ghost predicate HasLength(rs: seq<Request>, cu: seq<int>, i: nat)
    requires i < |rs| && i + 1 < |cu|
  { rs[i].len == cu[i + 1] - cu[i] }

  /** Where the parts begin: at the cumulative lengths exactly when those start at zero and never decrease. */
  lemma InPlaceIff(table: seq<seq<nat>>, starts: seq<int>, cu: seq<int>)
    requires |cu| > 0
    ensures
      var rs := Requests(table, starts, cu);
      (forall i: nat {:trigger InPlace(rs, cu, i)} :: i <= |rs| ==> InPlace(rs, cu, i)) <==>
      (cu[0] == 0 && forall i: nat {:trigger Grows(cu, i)} :: i < |rs| ==> Grows(cu, i))
  {
    var rs := Requests(table, starts, cu);
    if forall i: nat {:trigger InPlace(rs, cu, i)} :: i <= |rs| ==> InPlace(rs, cu, i) {
      assert InPlace(rs, cu, 0);
      forall i: nat | i < |rs| ensures Grows(cu, i) { assert InPlace(rs, cu, i + 1) && InPlace(rs, cu, i); }
    }
    if cu[0] == 0 && forall i: nat {:trigger Grows(cu, i)} :: i < |rs| ==> Grows(cu, i) {
      forall i: nat | i < |rs| ensures HasLength(rs, cu, i) { }
      forall i: nat | i <= |rs| ensures InPlace(rs, cu, i) { OffsetFollows(rs, cu, i); }
    }
  }

  lemma {:induction false} OffsetFollows(rs: seq<Request>, cu: seq<int>, n: nat)
    requires |rs| < |cu| && n <= |rs| && cu[0] == 0
    requires forall i: nat {:trigger Grows(cu, i)} :: i < |rs| ==> Grows(cu, i)
    requires forall i: nat {:trigger HasLength(rs, cu, i)} :: i < |rs| ==> HasLength(rs, cu, i)
    ensures InPlace(rs, cu, n)
  {
    if n > 0 {
      OffsetFollows(rs, cu, n - 1);
      assert Grows(cu, n - 1) && HasLength(rs, cu, n - 1);
    }
  }

  // ---- The code ----

  /** The rows a request contributes. */
  ghost function Piece<T>(cache: Cache<T>, r: Request): (s: seq<T>)
    requires Readable(cache, r)
    ensures |s| == Count(r.len)
  {
    seq(Count(r.len), j requires 0 <= j < Count(r.len) =>
      assert Reachable(cache, r.pages, r.start + j); cache.rows[Slot(r.pages, cache.pageSize, r.start + j)])
  }

  /** Copies one request's range to the rows from `at`. */
  method CopyRequest<T>(cache: Cache<T>, r: Request, dst: array<T>, at: nat)
    requires r.len > 0 && Readable(cache, r) && at + r.len <= dst.Length
    modifies dst
    ensures dst[..at] == old(dst[..at]) && dst[at..at + r.len] == Piece(cache, r) && dst[at + r.len..] == old(dst[at + r.len..])
  {
    ghost var piece := Piece(cache, r);
    var j := 0;
    while j < r.len
      invariant 0 <= j <= r.len
      invariant dst[..at] == old(dst[..at]) && dst[at + j..] == old(dst[at + j..])
      invariant forall m: nat :: m < j ==> dst[at..at + j][m] == piece[m]
    {
      assert Reachable(cache, r.pages, r.start + j);
      ghost var done := dst[at..at + j];
      dst[at + j] := cache.rows[Slot(r.pages, cache.pageSize, r.start + j)];
      assert dst[at..at + j + 1] == done + [piece[j]];
      j := j + 1;
    }
  }

  lemma CopiedStep<T>(before: seq<T>, after: seq<T>, cache: Cache<T>, rs: seq<Request>, i: nat)
    requires i < |rs| && AllReadable(cache, rs) && Copied(before, cache, rs, i) && |after| == |before|
    requires Offset(rs, i + 1) <= |before| && Readable(cache, rs[i])
    requires after[..Offset(rs, i)] == before[..Offset(rs, i)]
    requires after[Offset(rs, i)..Offset(rs, i + 1)] == Piece(cache, rs[i])
    ensures Copied(after, cache, rs, i + 1)
  {
    forall q: nat, j: nat | q < i + 1 && j < Count(rs[q].len) ensures Holds(after, cache, rs, q, j) {
      if q < i {
        assert Holds(before, cache, rs, q, j);
        RowIsInside(rs, q, j, i);
        assert after[..Offset(rs, i)][Offset(rs, q) + j] == before[..Offset(rs, i)][Offset(rs, q) + j];
      } else {
        assert after[Offset(rs, i)..Offset(rs, i + 1)][j] == Piece(cache, rs[i])[j];
      }
    }
  }

  /** One round of the gather: request `i`, which may be empty. */
  method GatherOne<T>(cache: Cache<T>, dst: array<T>, rs: seq<Request>, i: nat, at: nat) returns (next: nat)
    requires i < |rs| && AllReadable(cache, rs) && at == Offset(rs, i) && Offset(rs, i + 1) <= dst.Length
    requires Copied(dst[..], cache, rs, i)
    modifies dst
    ensures next == Offset(rs, i + 1) && Copied(dst[..], cache, rs, i + 1) && dst[next..] == old(dst[next..])
  {
    ghost var before := dst[..];
    next := at;
    assert Readable(cache, rs[i]);
    if rs[i].len > 0 {
      CopyRequest(cache, rs[i], dst, at);
      next := at + rs[i].len;
    }
    CopiedStep(before, dst[..], cache, rs, i);
  }

  /** The gather: every token of every request is in its place and no other row has changed. */
  method GatherContext<T>(cache: Cache<T>, dst: array<T>, table: seq<seq<nat>>, starts: seq<int>, cu: seq<int>)
    requires AllReadable(cache, Requests(table, starts, cu))
    requires Offset(Requests(table, starts, cu), |Requests(table, starts, cu)|) <= dst.Length
    modifies dst
    ensures
      var rs := Requests(table, starts, cu);
      && Copied(dst[..], cache, rs, |rs|)
      && dst[Offset(rs, |rs|)..] == old(dst[Offset(rs, |rs|)..])
  {
    var rs := Requests(table, starts, cu);
    ghost var was := dst[..];
    var outStart := 0;
    for i := 0 to |rs|
      invariant outStart == Offset(rs, i) <= dst.Length
      invariant Copied(dst[..], cache, rs, i)
      invariant dst[outStart..] == was[outStart..]
    {
      OffsetIsMonotone(rs, i + 1, |rs|);
      ghost var tail := dst[outStart..];
      ghost var skip := Offset(rs, i + 1) - outStart;
      assert dst[Offset(rs, i + 1)..] == tail[skip..] && was[Offset(rs, i + 1)..] == was[outStart..][skip..];
      outStart := GatherOne(cache, dst, rs, i, outStart);
    }
  }

  // ---- What the gather means ----

  /** The pieces of all requests, one after the other. */
  ghost function Pieces<T>(cache: Cache<T>, rs: seq<Request>): seq<T>
    requires AllReadable(cache, rs)
  {
    if rs == [] then []
    else
      assert Readable(cache, rs[|rs| - 1]);
      Pieces(cache, rs[..|rs| - 1]) + Piece(cache, rs[|rs| - 1])
  }

  /** A destination into which the requests were copied begins with their pieces, in order. */
  lemma {:induction false} CopiedIsPieces<T>(dst: seq<T>, cache: Cache<T>, rs: seq<Request>, n: nat)
    requires n <= |rs| && AllReadable(cache, rs) && Offset(rs, n) <= |dst| && Copied(dst, cache, rs, n)
    ensures dst[..Offset(rs, n)] == Pieces(cache, rs[..n])
  {
    if n > 0 {
      var m := n - 1;
      assert Readable(cache, rs[m]);
      assert Copied(dst, cache, rs, m);
      CopiedIsPieces(dst, cache, rs, m);
      assert rs[..n][..m] == rs[..m];
      var piece, lo := Piece(cache, rs[m]), Offset(rs, m);
      forall j: nat | j < |piece| ensures dst[lo + j] == piece[j] { assert Holds(dst, cache, rs, m, j); }
      assert dst[lo..Offset(rs, n)] == piece;
      assert dst[..Offset(rs, n)] == dst[..lo] + dst[lo..Offset(rs, n)];
    }
  }

  /** When the pages hold the tokens of a sequence, a piece is the contiguous range of that sequence. */
  lemma PieceIsContiguous<T>(cache: Cache<T>, r: Request, tokens: seq<T>)
    requires Readable(cache, r) && 0 <= r.start && r.start + Count(r.len) <= |tokens|
    requires forall p: nat {:trigger tokens[p]} :: p < |tokens| ==>
               Reachable(cache, r.pages, p) && cache.rows[Slot(r.pages, cache.pageSize, p)] == tokens[p]
    ensures Piece(cache, r) == tokens[r.start..r.start + Count(r.len)]
  {
    forall j: nat | j < Count(r.len) ensures Piece(cache, r)[j] == tokens[r.start + j] {
    }
  }

  lemma ReadableConcatenate<T>(cache: Cache<T>, a: seq<Request>, b: seq<Request>)
    ensures AllReadable(cache, a + b) <==> AllReadable(cache, a) && AllReadable(cache, b)
  {
    if AllReadable(cache, a + b) {
      forall i: nat | i < |a| ensures Readable(cache, a[i]) { assert (a + b)[i] == a[i]; }
      forall i: nat | i < |b| ensures Readable(cache, b[i]) { assert (a + b)[|a| + i] == b[i]; }
    }
  }

  lemma PiecesAppend<T>(cache: Cache<T>, rs: seq<Request>, r: Request)
    requires AllReadable(cache, rs) && Readable(cache, r)
    ensures AllReadable(cache, rs + [r]) && Pieces(cache, rs + [r]) == Pieces(cache, rs) + Piece(cache, r)
  {
    assert (rs + [r])[..|rs|] == rs;
  }

  lemma Regroup<T>(a: seq<T>, b: seq<T>, c: seq<T>)
    ensures a + b + c == a + (b + c)
  {
  }

  lemma {:induction false} PiecesConcatenate<T>(cache: Cache<T>, a: seq<Request>, b: seq<Request>)
    requires AllReadable(cache, a) && AllReadable(cache, b)
    ensures AllReadable(cache, a + b) && Pieces(cache, a + b) == Pieces(cache, a) + Pieces(cache, b)
  {
    if b == [] {
      assert a + b == a;
    } else {
      var front, last := b[..|b| - 1], b[|b| - 1];
      assert b == front + [last] && a + b == (a + front) + [last];
      ReadableConcatenate(cache, front, [last]);
      assert Readable(cache, [last][0]);
      PiecesAppend(cache, front, last);
      PiecesConcatenate(cache, a, front);
      PiecesAppend(cache, a + front, last);
      Regroup(Pieces(cache, a), Pieces(cache, front), Piece(cache, last));
    }
  }

  /** Gathering two adjacent ranges is gathering their union, wherever in the batch they are. */
  lemma AdjacentRangesJoin<T>(cache: Cache<T>, pre: seq<Request>, start: int, a: nat, b: nat, pages: seq<nat>, post: seq<Request>)
    requires AllReadable(cache, pre) && AllReadable(cache, post) && Readable(cache, Request(start, a + b, pages))
    ensures
      var apart, joined := pre + [Request(start, a, pages), Request(start + a, b, pages)] + post, pre + [Request(start, a + b, pages)] + post;
      AllReadable(cache, apart) && AllReadable(cache, joined) && Pieces(cache, apart) == Pieces(cache, joined)
  {
    var x, y, xy := Request(start, a, pages), Request(start + a, b, pages), Request(start, a + b, pages);
    forall p | start <= p < start + a + b ensures Reachable(cache, pages, p) { assert Reachable(cache, xy.pages, p); }
    assert Readable(cache, x) && Readable(cache, y);
    assert Piece(cache, x) + Piece(cache, y) == Piece(cache, xy);
    assert [x, y][..1] == [x] && [x][..0] == [] && [xy][..0] == [];
    assert Pieces(cache, [x]) == Piece(cache, x);
    assert Pieces(cache, [x, y]) == Pieces(cache, [xy]);
    PiecesConcatenate(cache, pre, [x, y]);
    PiecesConcatenate(cache, pre, [xy]);
    PiecesConcatenate(cache, pre + [x, y], post);
    PiecesConcatenate(cache, pre + [xy], post);
  }

  /** Row `q` lies in the page of position `p`, as far in as `p` is in its own page. */
  ghost predicate IsPlaceOf(pages: seq<nat>, pageSize: nat, q: nat, p: nat) {
    pageSize > 0 && p / pageSize < |pages| && q / pageSize == pages[p / pageSize] && q % pageSize == p % pageSize
  }

  /** The pages hold the tokens. */
  ghost predicate Stores<T(!new)>(cache: Cache<T>, pages: seq<nat>, tokens: seq<T>) {
    forall q: nat, p: nat {:trigger IsPlaceOf(pages, cache.pageSize, q, p)} ::
      q < |cache.rows| && p < |tokens| && IsPlaceOf(pages, cache.pageSize, q, p) ==> cache.rows[q] == tokens[p]
  }

  /** With cumulative lengths that start at zero and grow, row cu[i] + j of the destination is token starts[i] + j of request i. */
  lemma ContextIsGathered<T(!new)>(dst: seq<T>, cache: Cache<T>, table: seq<seq<nat>>, starts: seq<int>, cu: seq<int>, i: nat, j: nat, tokens: seq<T>)
    requires AllReadable(cache, Requests(table, starts, cu))
    requires Copied(dst, cache, Requests(table, starts, cu), |Requests(table, starts, cu)|)
    requires |cu| == |starts| + 1 && cu[0] == 0 && forall k: nat {:trigger Grows(cu, k)} :: k + 1 < |cu| ==> Grows(cu, k)
    requires i < |starts| && i < |table| && j < cu[i + 1] - cu[i]
    requires 0 <= starts[i] && starts[i] + j < |tokens| && Stores(cache, table[i], tokens)
    ensures 0 <= cu[i] && cu[i] + j < |dst| && dst[cu[i] + j] == tokens[starts[i] + j]
  {
    var rs, p := Requests(table, starts, cu), starts[i] + j;
    assert Readable(cache, rs[i]) && Holds(dst, cache, rs, i, j);
    assert Reachable(cache, rs[i].pages, p);
    SlotIsInItsPage(table[i], cache.pageSize, p);
    assert IsPlaceOf(table[i], cache.pageSize, Slot(table[i], cache.pageSize, p), p);
    InPlaceIff(table, starts, cu);
    assert InPlace(rs, cu, i);
  }
}
