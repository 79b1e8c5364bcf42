/**
 What a signature says, member by member and in terms of the nodes alone, and what
 becomes of the buffers that it marks for deallocation.
 */
module GraphPartitionExact {
  import opened GraphPartition
  import opened GraphPartitionMeaning
  import opened Options

  // ---------------------------------------------------------- what nodes do

  ghost predicate MadeIn(p: Partition, x: Name) { exists i :: 0 <= i < |p| && x in p[i].outs }

  ghost predicate LastUsedIn(p: Partition, x: Name) { exists i :: 0 <= i < |p| && x in p[i].lastUsage }

  ghost predicate AccessedIn(p: Partition, x: Name) { exists i :: 0 <= i < |p| && x in p[i].Accesses() }

  /** The partition must release `x`: it is the last to use it and has it from outside. */
  ghost predicate MustFree(g: Graph, p: Partition, x: Name) { x in g.known && !MadeIn(p, x) && LastUsedIn(p, x) }

  /** A node accesses some allocated version `y` of `x` that the partition does not make. */
  ghost predicate ReadsVersion(g: Graph, p: Partition, x: Name, y: Name)
    requires Idempotent(g)
  { AccessedIn(p, y) && !IsNone(g, y) && !MadeIn(p, y) && Real(g, y) == x }

  ghost predicate MustTakeIn(g: Graph, p: Partition, x: Name)
    requires Idempotent(g)
  { x in g.known && (MustFree(g, p, x) || exists y :: ReadsVersion(g, p, x, y)) }

  ghost predicate TakenInAt(g: Graph, parts: seq<Partition>, q: nat, x: Name)
    requires Idempotent(g) && q < |parts|
  { MustTakeIn(g, parts[q], x) }

  /** The graph or a later partition needs `x`. */
  ghost predicate NeededAfter(g: Graph, parts: seq<Partition>, k: nat, x: Name)
    requires Idempotent(g)
  { x in g.outputs || exists q: nat :: k < q < |parts| && TakenInAt(g, parts, q, x) }

  /** The partition hands `x` back: it made it for somebody, or has it from outside and is not the last to use it. */
  ghost predicate MustReturn(g: Graph, parts: seq<Partition>, k: nat, x: Name)
    requires Idempotent(g) && k < |parts|
  {
    && !IsNone(g, x)
    && ((MadeIn(parts[k], x) && NeededAfter(g, parts, k, x)) || (MustTakeIn(g, parts[k], x) && !MustFree(g, parts[k], x)))
  }

  // ------------------------------------------------------ exact signatures

  lemma InputMeans(g: Graph, parts: seq<Partition>, k: nat, x: Name)
    requires WellFormed(g, parts) && k < |parts|
    ensures x in InputNames(g, parts[k]) && x in g.known <==> MustTakeIn(g, parts[k], x)
    ensures x in InputNames(g, parts[k]) ==> !MadeIn(parts[k], x)
  {
    var p := parts[k];
    if x in InputNames(g, p) {
      InputIsFromBefore(g, parts, k, x);
      assert MadeIn(p, x) ==> x in Outs(p);
      if !(x in Frees(p) && x !in Outs(p) && x in g.known) {
        var y :| y in Accessed(p) && !IsNone(g, y) && y !in Outs(p) && x == Real(g, y);
        assert ReadsVersion(g, p, x, y);
      }
    }
    if MustTakeIn(g, p, x) && !MustFree(g, p, x) {
      var y :| ReadsVersion(g, p, x, y);
      assert y in Accessed(p) && y !in Outs(p);
    }
  }

  lemma FreedMeans(g: Graph, parts: seq<Partition>, k: nat, x: Name)
    requires WellFormed(g, parts) && k < |parts|
    ensures x in InputNames(g, parts[k]) * g.known * Frees(parts[k]) <==> MustFree(g, parts[k], x)
  {
    InputMeans(g, parts, k, x);
  }

  /** A name is unmet only if an output or an input of a later partition. */
  lemma {:induction false} UnmetMeans(g: Graph, parts: seq<Partition>, k: nat, x: Name)
    requires WellFormed(g, parts) && k < |parts| && x in Unmet(g, parts, k + 1) && x in g.known
    ensures NeededAfter(g, parts, k, x)
    decreases |parts| - k
  {
    var q := k + 1;
    if q < |parts| {
      if x in InputNames(g, parts[q]) {
        InputMeans(g, parts, q, x);
        assert TakenInAt(g, parts, q, x);
      } else {
        UnmetMeans(g, parts, q, x);
      }
    }
  }

  lemma NeededIsUnmetAfter(g: Graph, parts: seq<Partition>, k: nat, x: Name)
    requires WellFormed(g, parts) && k < |parts| && MadeIn(parts[k], x) && NeededAfter(g, parts, k, x) && !IsNone(g, x)
    ensures x in Unmet(g, parts, k + 1) && x in g.known
  {
    assert x in Outs(parts[k]);
    if x in g.outputs {
      NotMadeAfter(g, parts, k, x);
      StaysUnmet(g, parts, k + 1, |parts|, x);
    } else {
      var q: nat :| k < q < |parts| && TakenInAt(g, parts, q, x);
      InputMeans(g, parts, q, x);
      NeededStaysUnmet(g, parts, k, k + 1, q, x);
    }
  }

  lemma ReturnedMeans(g: Graph, parts: seq<Partition>, k: nat, x: Name)
    requires WellFormed(g, parts) && k < |parts|
    ensures x in Returned(g, parts[k], Unmet(g, parts, k + 1)) && !IsNone(g, x) <==> MustReturn(g, parts, k, x)
  {
    var p, later := parts[k], Unmet(g, parts, k + 1);
    InputMeans(g, parts, k, x);
    if x in Returned(g, p, later) && !IsNone(g, x) {
      var y :| y in Outs(p) * later + Kept(g, p) && Real(g, y) == x;
      if y in Kept(g, p) {
        InputIsFromBefore(g, parts, k, y);
      } else {
        UnmetIsFromBefore(g, parts, k + 1, y);
        OnlyProducer(g, parts, k, k, y);
        UnmetMeans(g, parts, k, y);
      }
    }
    if MustReturn(g, parts, k, x) {
      if MadeIn(p, x) && NeededAfter(g, parts, k, x) {
        NeededIsUnmetAfter(g, parts, k, x);
        UnmetIsFromBefore(g, parts, k + 1, x);
      } else {
        InputIsFromBefore(g, parts, k, x);
      }
      assert x in Outs(p) * later + Kept(g, p) && Real(g, x) == x;
    }
  }

  lemma ConstantMeans(g: Graph, parts: seq<Partition>, k: nat, x: Name)
    requires WellFormed(g, parts) && k < |parts|
    ensures x in InputNames(g, parts[k]) * g.constants <==> x in g.constants && AccessedIn(parts[k], x)
  {
    var p := parts[k];
    if x in InputNames(g, p) * g.constants {
      var y :| y in Accessed(p) && !IsNone(g, y) && y !in Outs(p) && x == Real(g, y);
      assert y == x;
    }
    if x in g.constants && AccessedIn(p, x) {
      forall i | 0 <= i < |p| ensures x !in p[i].outs { assert x in p[i].outs ==> Produces(parts, k, i, x); }
      assert x in Accessed(p) && !IsNone(g, x) && Real(g, x) == x;
    }
  }

  ghost predicate ExactAt(g: Graph, parts: seq<Partition>, skips: seq<bool>, k: nat, sig: Signature, x: Name)
    requires Idempotent(g) && k < |parts| == |skips|
  {
    && (x in sig.inputs <==> MustTakeIn(g, parts[k], x))
    && (x in sig.outputs <==> MustReturn(g, parts, k, x))
    && (x in sig.freed <==> MustFree(g, parts[k], x))
    && (x in sig.constants <==> x in g.constants && AccessedIn(parts[k], x))
    && sig.skipCudagraph == skips[k]
  }

  /**
   The signature of every partition, exactly: it takes in what its nodes access or last use from outside, hands back
   what it made for others and what it did not use last, frees what it uses last and did not make, and names the
   constants its nodes access.
   */
  lemma SignaturesAreExact(g: Graph, parts: seq<Partition>, skips: seq<bool>, k: nat, x: Name)
    requires WellFormed(g, parts) && k < |parts| == |skips|
    ensures |SignaturesFrom(g, parts, skips, 0)| == |parts|
    ensures ExactAt(g, parts, skips, k, SignaturesFrom(g, parts, skips, 0)[k], x)
  {
    SignaturesFromAt(g, parts, skips, 0, k);
    SignAtIsExact(g, parts, skips, k, x);
  }

  lemma SignAtIsExact(g: Graph, parts: seq<Partition>, skips: seq<bool>, k: nat, x: Name)
    requires WellFormed(g, parts) && k < |parts| == |skips|
    ensures ExactAt(g, parts, skips, k, SignAt(g, parts, skips, k), x)
  {
    InputMeans(g, parts, k, x);
    ReturnedMeans(g, parts, k, x);
    FreedMeans(g, parts, k, x);
    ConstantMeans(g, parts, k, x);
  }

  // ------------------------------------------------------- released buffers

  ghost predicate NotReturned(g: Graph, parts: seq<Partition>, skips: seq<bool>, q: nat, x: Name)
    requires Idempotent(g) && q < |parts| == |skips|
  { x !in SignAt(g, parts, skips, q).outputs }

  /** From partition `k` on, none hands `x` back. */
  ghost predicate NeverReturned(g: Graph, parts: seq<Partition>, skips: seq<bool>, k: nat, x: Name)
    requires Idempotent(g) && k <= |parts| == |skips|
  { forall q: nat {:trigger NotReturned(g, parts, skips, q, x)} :: k <= q < |parts| ==> NotReturned(g, parts, skips, q, x) }

  lemma FreedIsNotMadeLater(g: Graph, parts: seq<Partition>, p: nat, q: nat, x: Name)
    requires WellFormed(g, parts) && p < q < |parts| && MustFree(g, parts[p], x)
    ensures !MadeIn(parts[q], x)
  {
    var i :| 0 <= i < |parts[p]| && x in parts[p][i].lastUsage;
    assert LastUses(parts, p, i, x);
    forall j | 0 <= j < |parts[q]| ensures x !in parts[q][j].outs {
      assert x in parts[q][j].outs ==> Produces(parts, q, j, x) && Before(p, i, q, j);
    }
  }

  /** Once a partition has freed `x`, no partition hands it back. */
  lemma FreedIsNotReturned(g: Graph, parts: seq<Partition>, skips: seq<bool>, p: nat, q: nat, x: Name)
    requires WellFormed(g, parts) && p <= q < |parts| == |skips| && MustFree(g, parts[p], x)
    ensures NotReturned(g, parts, skips, q, x)
  {
    ReturnedMeans(g, parts, q, x);
    if q > p {
      FreedIsNotMadeLater(g, parts, p, q, x);
      FreedIsNotNeeded(g, parts, p, q, x);
      InputMeans(g, parts, q, x);
    }
  }

  lemma {:induction false} GoneStaysGone(g: Graph, parts: seq<Partition>, skips: seq<bool>, k: nat, env: Mem, consts: Mem, x: Name)
    requires Idempotent(g) && k <= |parts| == |skips| && NeverReturned(g, parts, skips, k, x) && x !in env
    ensures |SignaturesFrom(g, parts, skips, k)| == |parts| - k
    ensures var r := CallAll(g, parts[k..], SignaturesFrom(g, parts, skips, k), env, consts); r.Some? ==> x !in r.value
    decreases |parts| - k
  {
    if k < |parts| {
      Unroll(g, parts, skips, k);
      assert NotReturned(g, parts, skips, k, x);
      var r := CallPartition(g, SignAt(g, parts, skips, k), parts[k], env, consts);
      if r.Some? { GoneStaysGone(g, parts, skips, k + 1, r.value, consts, x); }
    }
  }

  lemma Unroll(g: Graph, parts: seq<Partition>, skips: seq<bool>, k: nat)
    requires Idempotent(g) && k < |parts| == |skips|
    ensures var sigs := SignaturesFrom(g, parts, skips, k);
      |sigs| == |parts| - k && sigs[0] == SignAt(g, parts, skips, k) && sigs[1..] == SignaturesFrom(g, parts, skips, k + 1)
    ensures parts[k..][0] == parts[k] && parts[k..][1..] == parts[k + 1..]
  {
    SignaturesFromAt(g, parts, skips, k, k);
  }

  lemma {:induction false} FreedFrom(g: Graph, parts: seq<Partition>, skips: seq<bool>, k: nat, p: nat, env: Mem, consts: Mem, x: Name)
    requires Idempotent(g) && k <= p < |parts| == |skips|
    requires x in SignAt(g, parts, skips, p).freed && NeverReturned(g, parts, skips, p, x)
    ensures |SignaturesFrom(g, parts, skips, k)| == |parts| - k
    ensures var r := CallAll(g, parts[k..], SignaturesFrom(g, parts, skips, k), env, consts); r.Some? ==> x !in r.value
    decreases p - k
  {
    Unroll(g, parts, skips, k);
    var r := CallPartition(g, SignAt(g, parts, skips, k), parts[k], env, consts);
    if r.Some? {
      if k < p {
        FreedFrom(g, parts, skips, k + 1, p, r.value, consts, x);
      } else {
        assert NotReturned(g, parts, skips, k, x);
        GoneStaysGone(g, parts, skips, k + 1, r.value, consts, x);
      }
    }
  }

  /** A completed partitioned run has released every buffer that was last used outside the partition that made it. */
  lemma LastUsedIsReleased(g: Graph, parts: seq<Partition>, skips: seq<bool>, args: Mem, consts: Mem, p: nat, x: Name)
    requires WellFormed(g, parts) && p < |parts| == |skips|
    requires x in g.known && !MadeIn(parts[p], x) && LastUsedIn(parts[p], x)
    ensures |SignaturesFrom(g, parts, skips, 0)| == |parts|
    ensures var r := CallAll(g, parts, SignaturesFrom(g, parts, skips, 0), args, consts); r.Some? ==> x !in r.value
  {
    assert parts[0..] == parts;
    FreedMeans(g, parts, p, x);
    forall q: nat | p <= q < |parts| ensures NotReturned(g, parts, skips, q, x) {
      FreedIsNotReturned(g, parts, skips, p, q, x);
    }
    FreedFrom(g, parts, skips, 0, p, args, consts, x);
  }
}
