/**
 What the signatures of module GraphPartition are for: the partitions, each seeing
 only its signature inputs and handing back only its signature outputs, compute what
 the unpartitioned graph computes.
 */
module GraphPartitionMeaning {
  import opened GraphPartition
  import opened Options

  // ------------------------------------------------------------- running nodes

  function Footprint(g: Graph, n: Node): set<Name>
    requires Idempotent(g)
  {
    set x | x in n.Accesses() && !IsNone(g, x) :: Real(g, x)
  }

  function Targets(g: Graph, n: Node): set<Name>
    requires Idempotent(g)
  {
    set x | x in n.outs + n.writeNames && !IsNone(g, x) :: Real(g, x)
  }

  function Restrict(m: Mem, names: set<Name>): Mem {
    map x | x in m && x in names :: m[x]
  }

  /** A node sees the memory it accesses and updates the buffers it produces or writes. */
  function Exec(g: Graph, n: Node, m: Mem): Mem
    requires Idempotent(g)
  {
    m + map x | x in Targets(g, n) :: n.compute(Restrict(m, Footprint(g, n)), x)
  }

  function ExecAll(g: Graph, nodes: seq<Node>, m: Mem): Mem
    requires Idempotent(g)
  {
    if nodes == [] then m else ExecAll(g, nodes[1..], Exec(g, nodes[0], m))
  }

  function Flatten(parts: seq<Partition>): seq<Node> {
    if parts == [] then [] else parts[0] + Flatten(parts[1..])
  }

  // -------------------------------------------------------- running partitions

  /**
   One partition call: fails when an input is missing or an output was not made.
   The partition's own memory holds its inputs and constants and nothing else.
   */
  function CallPartition(g: Graph, sig: Signature, p: Partition, env: Mem, consts: Mem): Option<Mem>
    requires Idempotent(g)
  {
    if !(sig.inputs <= env.Keys) then None
    else
      var local := ExecAll(g, p, Restrict(env, sig.inputs) + Restrict(consts, sig.constants));
      if !(sig.outputs <= local.Keys) then None
      else Some((env - sig.freed) + Restrict(local, sig.outputs))
  }

  function CallAll(g: Graph, parts: seq<Partition>, sigs: seq<Signature>, env: Mem, consts: Mem): Option<Mem>
    requires Idempotent(g) && |parts| == |sigs|
    decreases |parts|
  {
    if parts == [] then Some(env)
    else
      match CallPartition(g, sigs[0], parts[0], env, consts)
      case None => None
      case Some(env') => CallAll(g, parts[1..], sigs[1..], env', consts)
  }

  // ------------------------------------------------------- well-formed schedules

  predicate Pos(parts: seq<Partition>, p: int, i: int) {
    0 <= p < |parts| && 0 <= i < |parts[p]|
  }

  predicate Before(p: int, i: int, q: int, j: int) {
    p < q || (p == q && i < j)
  }

  ghost predicate Produces(parts: seq<Partition>, p: int, i: int, x: Name) {
    Pos(parts, p, i) && x in parts[p][i].outs
  }

  ghost predicate Uses(parts: seq<Partition>, p: int, i: int, x: Name) {
    Pos(parts, p, i) && x in parts[p][i].Accesses()
  }

  ghost predicate LastUses(parts: seq<Partition>, p: int, i: int, x: Name) {
    Pos(parts, p, i) && x in parts[p][i].lastUsage
  }

  /** `x` comes from outside or is produced no later than node (p, i). */
  ghost predicate Available(g: Graph, parts: seq<Partition>, p: int, i: int, x: Name) {
    x in g.inputs || x in g.constants || exists q, j :: Produces(parts, q, j, x) && !Before(p, i, q, j)
  }

  ghost predicate Made(parts: seq<Partition>, x: Name) { exists p, i :: Produces(parts, p, i, x) }

  /** A version of the buffer that `x` mutates is accessed where `x` is made. */
  ghost predicate MutatesEarlier(g: Graph, parts: seq<Partition>, p: int, i: int, x: Name)
    requires x in g.realName
  { exists y :: Uses(parts, p, i, y) && !Produces(parts, p, i, y) && Real(g, y) == g.realName[x] }

  ghost predicate Names(g: Graph, parts: seq<Partition>) {
    && g.constants !! g.known
    && g.outputs <= g.known
    && g.inputs <= g.known
    && (forall x :: x in g.outputs ==> x !in g.realName)
    && (forall p, i, x :: Produces(parts, p, i, x) ==> x in g.known && x !in g.inputs)
    && (forall x {:trigger Made(parts, x)} :: x in g.known && x !in g.inputs ==> Made(parts, x))
    && (forall x :: x in g.unallocated ==> x in g.known && x !in g.inputs)
    && (forall x :: x in g.realName ==>
          x in g.known && x !in g.inputs && g.realName[x] in g.known && x in g.mutationOutputs && x in g.unallocated)
  }

  /** Every buffer is produced once. */
  ghost predicate ProducedOnce(parts: seq<Partition>) {
    forall p, i, q, j, x :: Produces(parts, p, i, x) && Produces(parts, q, j, x) ==> p == q && i == j
  }

  /** Nodes run after what they access; a mutation accesses an earlier version of what it mutates. */
  ghost predicate Scheduled(g: Graph, parts: seq<Partition>) {
    && (forall p, i, x {:trigger Available(g, parts, p, i, x)} :: Uses(parts, p, i, x) ==> Available(g, parts, p, i, x))
    && (forall p, i, x :: Pos(parts, p, i) && x in parts[p][i].writeNames ==> x in g.known)
    && (forall p, i, x {:trigger MutatesEarlier(g, parts, p, i, x)} ::
          Produces(parts, p, i, x) && x in g.realName ==> MutatesEarlier(g, parts, p, i, x))
  }

  /** `last_usage` holds real names that nothing touches, frees or outputs later. */
  ghost predicate LastUsage(g: Graph, parts: seq<Partition>) {
    forall p, i, x :: LastUses(parts, p, i, x) ==>
      && x !in g.realName && x !in g.outputs
      && (forall q, j :: Before(p, i, q, j) ==> !LastUses(parts, q, j, x))
      && (forall q, j, y :: Before(p, i, q, j) && (Uses(parts, q, j, y) || Produces(parts, q, j, y)) ==> Real(g, y) != x)
  }

  ghost predicate WellFormed(g: Graph, parts: seq<Partition>) {
    && Idempotent(g)
    && Names(g, parts)
    && ProducedOnce(parts)
    && Scheduled(g, parts)
    && LastUsage(g, parts)
  }

  /** No partition is the last user of an unallocated buffer of an earlier one. */
  ghost predicate FreesAllocated(g: Graph, parts: seq<Partition>)
    requires Idempotent(g)
  {
    forall p, x :: 0 <= p < |parts| && x in Frees(parts[p]) && x !in Outs(parts[p]) && x in g.known ==> !IsNone(g, x)
  }

  // ------------------------------------------------- facts about one partition

  lemma RealIsReal(g: Graph, parts: seq<Partition>, x: Name)
    requires WellFormed(g, parts)
    ensures Real(g, x) !in g.realName
    ensures IsNone(g, Real(g, x)) == IsNone(g, x)
    ensures x in g.known ==> Real(g, x) in g.known
  {
  }

  /** A mutated buffer comes from outside or is produced before every version of it. */
  lemma {:induction false} OriginalIsEarlier(g: Graph, parts: seq<Partition>, p: int, i: int, x: Name)
    requires WellFormed(g, parts) && Produces(parts, p, i, x) && x in g.realName
    ensures g.realName[x] in g.inputs ||
            exists q, j :: Produces(parts, q, j, g.realName[x]) && Before(q, j, p, i)
    decreases p, i
  {
    assert MutatesEarlier(g, parts, p, i, x);
    var y :| Uses(parts, p, i, y) && !Produces(parts, p, i, y) && Real(g, y) == g.realName[x];
    assert Available(g, parts, p, i, y);
    assert y in g.known;
    if y !in g.inputs {
      var q, j :| Produces(parts, q, j, y) && !Before(p, i, q, j);
      assert Before(q, j, p, i);
      if y in g.realName {
        OriginalIsEarlier(g, parts, q, j, y);
        if g.realName[y] !in g.inputs {
          var q', j' :| Produces(parts, q', j', g.realName[y]) && Before(q', j', q, j);
          assert Before(q', j', p, i);
        }
      }
    }
  }

  /** Whatever a node of `p` touches is an input of `p` or produced in `p`. */
  lemma {:induction false} TouchedIsLocal(g: Graph, parts: seq<Partition>, p: int, i: int, x: Name)
    requires WellFormed(g, parts) && (Uses(parts, p, i, x) || Produces(parts, p, i, x)) && !IsNone(g, x)
    ensures Real(g, x) in InputNames(g, parts[p]) || Real(g, x) in Outs(parts[p])
    decreases p, i, if Produces(parts, p, i, x) then 0 else 1
  {
    if x in Outs(parts[p]) {
      if x in g.realName {
        var k :| 0 <= k < |parts[p]| && x in parts[p][k].outs;
        assert Produces(parts, p, k, x);
        if !Produces(parts, p, i, x) {
          assert Available(g, parts, p, i, x);
          assert k < i by {
            var q, j :| Produces(parts, q, j, x) && !Before(p, i, q, j);
          }
          TouchedIsLocal(g, parts, p, k, x);
        } else {
          assert MutatesEarlier(g, parts, p, i, x);
          var y :| Uses(parts, p, i, y) && !Produces(parts, p, i, y) && Real(g, y) == g.realName[x];
          RealIsReal(g, parts, x);
          RealIsReal(g, parts, y);
          UsedVersionIsLocal(g, parts, p, i, y);
        }
      }
    } else {
      assert x in Accessed(parts[p]);
    }
  }

  lemma {:induction false} UsedVersionIsLocal(g: Graph, parts: seq<Partition>, p: int, i: int, y: Name)
    requires WellFormed(g, parts) && Uses(parts, p, i, y) && !Produces(parts, p, i, y) && !IsNone(g, y)
    ensures Real(g, y) in InputNames(g, parts[p]) || Real(g, y) in Outs(parts[p])
    decreases p, i, -1
  {
    if y in Outs(parts[p]) {
      var k :| 0 <= k < |parts[p]| && y in parts[p][k].outs;
      assert Produces(parts, p, k, y);
      assert Available(g, parts, p, i, y);
      assert k < i by {
        var q, j :| Produces(parts, q, j, y) && !Before(p, i, q, j);
      }
      TouchedIsLocal(g, parts, p, k, y);
    } else {
      assert y in Accessed(parts[p]);
    }
  }

  /** An input of a partition is a real, known or constant name that no partition from there on produces. */
  lemma InputIsFromBefore(g: Graph, parts: seq<Partition>, p: int, n: Name)
    requires WellFormed(g, parts) && 0 <= p < |parts| && n in InputNames(g, parts[p])
    ensures n !in g.realName && (n in g.known || n in g.constants)
    ensures forall q :: p <= q < |parts| ==> n !in Outs(parts[q])
  {
    if n in Frees(parts[p]) && n !in Outs(parts[p]) && n in g.known {
      var i :| 0 <= i < |parts[p]| && n in parts[p][i].lastUsage;
      assert LastUses(parts, p, i, n);
      forall q | p <= q < |parts|
        ensures n !in Outs(parts[q])
      {
        if n in Outs(parts[q]) {
          var j :| 0 <= j < |parts[q]| && n in parts[q][j].outs;
          assert Produces(parts, q, j, n) && Before(p, i, q, j);
        }
      }
    } else {
      var x :| x in Accessed(parts[p]) && !IsNone(g, x) && x !in Outs(parts[p]) && n == Real(g, x);
      UsedIsFromBefore(g, parts, p, x);
    }
  }

  lemma UsedIsFromBefore(g: Graph, parts: seq<Partition>, p: int, x: Name)
    requires WellFormed(g, parts) && 0 <= p < |parts| && x in Accessed(parts[p]) && x !in Outs(parts[p])
    ensures Real(g, x) !in g.realName && (Real(g, x) in g.known || Real(g, x) in g.constants)
    ensures forall q :: p <= q < |parts| ==> Real(g, x) !in Outs(parts[q])
  {
    var i :| 0 <= i < |parts[p]| && x in parts[p][i].Accesses();
    assert Uses(parts, p, i, x);
    assert Available(g, parts, p, i, x);
    RealIsReal(g, parts, x);
    if x in g.known && x !in g.inputs {
      var q0, j0 :| Produces(parts, q0, j0, x) && !Before(p, i, q0, j0);
      assert q0 != p;
      if x in g.realName {
        OriginalIsEarlier(g, parts, q0, j0, x);
      }
      forall q | p <= q < |parts|
        ensures Real(g, x) !in Outs(parts[q])
      {
        if Real(g, x) in Outs(parts[q]) {
          var j :| 0 <= j < |parts[q]| && Real(g, x) in parts[q][j].outs;
          assert Produces(parts, q, j, Real(g, x));
        }
      }
    } else {
      assert Real(g, x) == x;
      forall q | p <= q < |parts|
        ensures x !in Outs(parts[q])
      {
        if x in Outs(parts[q]) {
          var j :| 0 <= j < |parts[q]| && x in parts[q][j].outs;
          assert Produces(parts, q, j, x);
        }
      }
    }
  }

  /** What a partition frees, nothing later needs. */
  lemma FreedIsNotNeeded(g: Graph, parts: seq<Partition>, p: int, q: int, n: Name)
    requires WellFormed(g, parts) && 0 <= p < q < |parts| && n in Frees(parts[p])
    ensures n !in InputNames(g, parts[q]) && n !in g.outputs
  {
    var i :| 0 <= i < |parts[p]| && n in parts[p][i].lastUsage;
    assert LastUses(parts, p, i, n);
    if n in InputNames(g, parts[q]) {
      if n in Frees(parts[q]) {
        var j :| 0 <= j < |parts[q]| && n in parts[q][j].lastUsage;
        assert LastUses(parts, q, j, n) && Before(p, i, q, j);
      } else {
        var x :| x in Accessed(parts[q]) && n == Real(g, x);
        var j :| 0 <= j < |parts[q]| && x in parts[q][j].Accesses();
        assert Uses(parts, q, j, x) && Before(p, i, q, j);
      }
    }
  }

  // ------------------------------------------------------------ the unmet set

  /** Every unmet name is a real name that no partition from there on produces. */
  lemma {:induction false} UnmetIsFromBefore(g: Graph, parts: seq<Partition>, k: nat, n: Name)
    requires WellFormed(g, parts) && k <= |parts| && n in Unmet(g, parts, k)
    ensures n !in g.realName && (n in g.known || n in g.constants)
    ensures forall q :: k <= q < |parts| ==> n !in Outs(parts[q])
    decreases |parts| - k
  {
    if k < |parts| {
      var later := Unmet(g, parts, k + 1);
      if n in InputNames(g, parts[k]) {
        InputIsFromBefore(g, parts, k, n);
      } else {
        UnmetIsFromBefore(g, parts, k + 1, n);
        var candidates := Outs(parts[k]) * later + Kept(g, parts[k]);
        assert n in Outs(parts[k]) ==> n in candidates;
      }
    }
  }

  /** A name freed before partition `k` is not unmet there. */
  lemma {:induction false} FreedIsNotUnmet(g: Graph, parts: seq<Partition>, p: int, k: nat, n: Name)
    requires WellFormed(g, parts) && 0 <= p < k <= |parts| && n in Frees(parts[p])
    ensures n !in Unmet(g, parts, k)
    decreases |parts| - k
  {
    if k < |parts| {
      FreedIsNotNeeded(g, parts, p, k, n);
      FreedIsNotUnmet(g, parts, p, k + 1, n);
    } else {
      var i :| 0 <= i < |parts[p]| && n in parts[p][i].lastUsage;
      assert LastUses(parts, p, i, n);
    }
  }

  /** The names unmet before the first partition are produced by no partition. */
  lemma NothingProducedIsUnmet(g: Graph, parts: seq<Partition>)
    requires WellFormed(g, parts)
    ensures forall n, p :: n in Unmet(g, parts, 0) && 0 <= p < |parts| ==> n !in Outs(parts[p])
  {
    forall n, p | n in Unmet(g, parts, 0) && 0 <= p < |parts|
      ensures n !in Outs(parts[p])
    {
      UnmetIsFromBefore(g, parts, 0, n);
    }
  }

  /** A needed name that `k` neither produces nor takes in passes by it, and one it takes in is handed back. */
  lemma UnmetPassesThrough(g: Graph, parts: seq<Partition>, skips: seq<bool>, k: nat, n: Name)
    requires WellFormed(g, parts) && k < |parts| == |skips| && n in Unmet(g, parts, k + 1) && n in g.known && !IsNone(g, n)
    ensures n in Outs(parts[k]) ==> n in SignAt(g, parts, skips, k).outputs
    ensures n !in Outs(parts[k]) ==> n in Unmet(g, parts, k) && n !in SignAt(g, parts, skips, k).freed
    ensures n in SignAt(g, parts, skips, k).inputs ==> n in SignAt(g, parts, skips, k).outputs
    ensures n in SignAt(g, parts, skips, k).outputs ==> n in SignAt(g, parts, skips, k).inputs || n in Outs(parts[k])
  {
    var later := Unmet(g, parts, k + 1);
    UnmetIsFromBefore(g, parts, k + 1, n);
    assert Real(g, n) == n;
    if n in Frees(parts[k]) {
      FreedIsNotUnmet(g, parts, k, k + 1, n);
      assert false;
    }
    if n in Outs(parts[k]) || n in InputNames(g, parts[k]) {
      assert n in Outs(parts[k]) * later + Kept(g, parts[k]);
      assert n in Returned(g, parts[k], later);
    } else if n in Returned(g, parts[k], later) {
      var x :| x in Outs(parts[k]) * later + Kept(g, parts[k]) && Real(g, x) == n;
      if x in Kept(g, parts[k]) {
        InputIsFromBefore(g, parts, k, x);
      } else {
        UnmetIsFromBefore(g, parts, k + 1, x);
      }
      assert false;
    }
  }

  lemma OnlyProducer(g: Graph, parts: seq<Partition>, p: nat, r: nat, n: Name)
    requires WellFormed(g, parts) && p < |parts| && r < |parts| && n in Outs(parts[p])
    ensures n in g.known
    ensures r != p ==> n !in Outs(parts[r])
  {
    var i :| 0 <= i < |parts[p]| && n in parts[p][i].outs;
    assert Produces(parts, p, i, n);
    forall j | 0 <= j < |parts[r]| && n in parts[r][j].outs
      ensures r == p
    {
      assert Produces(parts, r, j, n);
    }
  }

  lemma UnmetBefore(g: Graph, parts: seq<Partition>, k: nat, n: Name)
    requires WellFormed(g, parts) && k < |parts| && n in Unmet(g, parts, k + 1) && n in g.known && !IsNone(g, n)
    requires n !in Outs(parts[k])
    ensures n in Unmet(g, parts, k)
  {
    UnmetPassesThrough(g, parts, seq(|parts|, _ => false), k, n);
  }

  /** Partition `r` does not produce `n`. */
  ghost predicate NotMade(parts: seq<Partition>, r: nat, n: Name)
    requires r < |parts|
  { n !in Outs(parts[r]) }

  lemma {:induction false} StaysUnmet(g: Graph, parts: seq<Partition>, r: nat, q: nat, n: Name)
    requires WellFormed(g, parts) && r <= q <= |parts| && n in Unmet(g, parts, q) && n in g.known && !IsNone(g, n)
    requires forall k: nat {:trigger NotMade(parts, k, n)} :: r <= k < q ==> NotMade(parts, k, n)
    ensures n in Unmet(g, parts, r)
    decreases q - r
  {
    if r < q {
      StaysUnmet(g, parts, r + 1, q, n);
      assert NotMade(parts, r, n);
      UnmetBefore(g, parts, r, n);
    }
  }

  lemma NeededIsUnmet(g: Graph, parts: seq<Partition>, q: nat, n: Name)
    requires Idempotent(g) && q < |parts| && n in InputNames(g, parts[q])
    ensures n in Unmet(g, parts, q)
  {
  }

  lemma NotMadeAfter(g: Graph, parts: seq<Partition>, p: nat, n: Name)
    requires WellFormed(g, parts) && p < |parts| && n in Outs(parts[p])
    ensures n in g.known && forall k: nat {:trigger NotMade(parts, k, n)} :: p < k < |parts| ==> NotMade(parts, k, n)
  {
    OnlyProducer(g, parts, p, p, n);
    forall k: nat | p < k < |parts| ensures NotMade(parts, k, n) { OnlyProducer(g, parts, p, k, n); }
  }

  lemma NeededStaysUnmet(g: Graph, parts: seq<Partition>, p: nat, r: nat, q: nat, n: Name)
    requires WellFormed(g, parts) && p < r <= q < |parts|
    requires n in Outs(parts[p]) && n in InputNames(g, parts[q]) && !IsNone(g, n)
    ensures n in Unmet(g, parts, r) && n in g.known
  {
    NeededIsUnmet(g, parts, q, n);
    NotMadeAfter(g, parts, p, n);
    StaysUnmet(g, parts, r, q, n);
  }

  /** A partition neither frees `n` nor keeps it to itself. */
  ghost predicate HandsOn(sig: Signature, n: Name) {
    n !in sig.freed && (n in sig.inputs ==> n in sig.outputs)
  }

  lemma UnmetIsHandedOn(g: Graph, parts: seq<Partition>, skips: seq<bool>, k: nat, n: Name)
    requires WellFormed(g, parts) && k < |parts| == |skips| && n in Unmet(g, parts, k + 1) && n in g.known && !IsNone(g, n)
    requires n !in Outs(parts[k])
    ensures HandsOn(SignAt(g, parts, skips, k), n)
  {
    UnmetPassesThrough(g, parts, skips, k, n);
  }

  lemma UnmetIsReturned(g: Graph, parts: seq<Partition>, skips: seq<bool>, k: nat, n: Name)
    requires WellFormed(g, parts) && k < |parts| == |skips| && n in Unmet(g, parts, k + 1) && n in g.known && !IsNone(g, n)
    requires n in Outs(parts[k])
    ensures n in SignAt(g, parts, skips, k).outputs
  {
    UnmetPassesThrough(g, parts, skips, k, n);
  }

  lemma NeededIsHandedOnBy(g: Graph, parts: seq<Partition>, skips: seq<bool>, p: nat, r: nat, q: nat, n: Name)
    requires WellFormed(g, parts) && p < r < q < |parts| == |skips|
    requires n in Outs(parts[p]) && n in InputNames(g, parts[q]) && !IsNone(g, n)
    ensures HandsOn(SignAt(g, parts, skips, r), n)
  {
    NeededStaysUnmet(g, parts, p, r + 1, q, n);
    OnlyProducer(g, parts, p, r, n);
    UnmetIsHandedOn(g, parts, skips, r, n);
  }

  lemma NeededIsReturned(g: Graph, parts: seq<Partition>, skips: seq<bool>, p: nat, q: nat, n: Name)
    requires WellFormed(g, parts) && p < q < |parts| == |skips|
    requires n in Outs(parts[p]) && n in InputNames(g, parts[q]) && !IsNone(g, n)
    ensures n in SignAt(g, parts, skips, p).outputs
  {
    NeededStaysUnmet(g, parts, p, p + 1, q, n);
    UnmetIsReturned(g, parts, skips, p, n);
  }

  /**
   Every buffer a later partition takes in is returned by its producer, and every
   partition in between hands it on: none frees it, and one that takes it in returns it.
   */
  lemma NeededIsHandedOn(g: Graph, parts: seq<Partition>, skips: seq<bool>, p: nat, q: nat, n: Name)
    requires WellFormed(g, parts) && p < q < |parts| == |skips|
    requires n in Outs(parts[p]) && n in InputNames(g, parts[q]) && !IsNone(g, n)
    ensures n in SignAt(g, parts, skips, p).outputs
    ensures forall r :: p < r < q ==> HandsOn(SignAt(g, parts, skips, r), n)
  {
    NeededIsReturned(g, parts, skips, p, q, n);
    forall r | p < r < q
      ensures HandsOn(SignAt(g, parts, skips, r), n)
    {
      NeededIsHandedOnBy(g, parts, skips, p, r, q, n);
    }
  }

  // ------------------------------------------------- two memories side by side

  /** The two memories hold the same of `names`. */
  ghost predicate Agree(names: set<Name>, a: Mem, b: Mem) {
    forall n :: n in names ==> (n in a <==> n in b) && (n in a ==> a[n] == b[n])
  }

  lemma ExecAgree(g: Graph, n: Node, a: Mem, b: Mem, names: set<Name>)
    requires Idempotent(g) && Agree(names, a, b) && Footprint(g, n) <= names
    ensures Agree(names, Exec(g, n, a), Exec(g, n, b))
  {
    assert Restrict(a, Footprint(g, n)) == Restrict(b, Footprint(g, n));
  }

  lemma {:induction false} ExecAllAgree(g: Graph, nodes: seq<Node>, a: Mem, b: Mem, names: set<Name>)
    requires Idempotent(g) && Agree(names, a, b)
    requires forall i :: 0 <= i < |nodes| ==> Footprint(g, nodes[i]) <= names
    ensures Agree(names, ExecAll(g, nodes, a), ExecAll(g, nodes, b))
    decreases |nodes|
  {
    if nodes != [] {
      ExecAgree(g, nodes[0], a, b, names);
      ExecAllAgree(g, nodes[1..], Exec(g, nodes[0], a), Exec(g, nodes[0], b), names);
    }
  }

  /** Names that no node targets keep their value; names some node targets are present afterwards. */
  lemma {:induction false} ExecAllEffect(g: Graph, nodes: seq<Node>, m: Mem, n: Name)
    requires Idempotent(g)
    ensures n in m ==> n in ExecAll(g, nodes, m)
    ensures (exists i :: 0 <= i < |nodes| && n in Targets(g, nodes[i])) ==> n in ExecAll(g, nodes, m)
    ensures (forall i :: 0 <= i < |nodes| ==> n !in Targets(g, nodes[i])) ==> Agree({n}, m, ExecAll(g, nodes, m))
    decreases |nodes|
  {
    if nodes != [] {
      ExecAllEffect(g, nodes[1..], Exec(g, nodes[0], m), n);
      if i :| 0 <= i < |nodes| && n in Targets(g, nodes[i]) {
        if i > 0 {
          assert nodes[1..][i - 1] == nodes[i];
        }
      } else {
        assert n !in Targets(g, nodes[0]);
        assert forall i :: 0 <= i < |nodes[1..]| ==> nodes[1..][i] == nodes[i + 1];
      }
    }
  }

  lemma {:induction false} ExecAllAppend(g: Graph, a: seq<Node>, b: seq<Node>, m: Mem)
    requires Idempotent(g)
    ensures ExecAll(g, a + b, m) == ExecAll(g, b, ExecAll(g, a, m))
    decreases |a|
  {
    if a == [] {
      assert a + b == b;
    } else {
      assert (a + b)[1..] == a[1..] + b;
      ExecAllAppend(g, a[1..], b, Exec(g, a[0], m));
    }
  }

  // --------------------------------------------------------------- simulation

  /** What a partition can touch. */
  ghost function Reach(g: Graph, p: Partition): set<Name>
    requires Idempotent(g)
  { InputNames(g, p) + Outs(p) }

  lemma TouchesOnlyReach(g: Graph, parts: seq<Partition>, k: nat, i: nat)
    requires WellFormed(g, parts) && Pos(parts, k, i)
    ensures Footprint(g, parts[k][i]) <= Reach(g, parts[k])
    ensures Targets(g, parts[k][i]) <= Reach(g, parts[k]) * g.known
    ensures forall x :: x in Targets(g, parts[k][i]) ==> x !in g.realName
  {
    forall x | x in parts[k][i].Accesses() && !IsNone(g, x)
      ensures Real(g, x) in Reach(g, parts[k])
    {
      assert Uses(parts, k, i, x);
      TouchedIsLocal(g, parts, k, i, x);
    }
    forall x | x in parts[k][i].outs + parts[k][i].writeNames && !IsNone(g, x)
      ensures Real(g, x) in Reach(g, parts[k]) && Real(g, x) in g.known && Real(g, x) !in g.realName
    {
      if x in parts[k][i].outs {
        assert Produces(parts, k, i, x);
      } else {
        assert Uses(parts, k, i, x) && x in parts[k][i].writeNames;
      }
      TouchedIsLocal(g, parts, k, i, x);
      RealIsReal(g, parts, x);
    }
  }

  /** If `n` is needed from partition `k` on, it is at hand with the right value. */
  ghost predicate AtHand(g: Graph, parts: seq<Partition>, k: nat, env: Mem, mem: Mem, n: Name)
    requires Idempotent(g) && k <= |parts|
  { n in Unmet(g, parts, k) && n in g.known && !IsNone(g, n) ==> n in env && n in mem && env[n] == mem[n] }

  /** `mem` holds nothing that a partition from `k` on makes, and no mutation output. */
  ghost predicate NothingLater(g: Graph, parts: seq<Partition>, k: nat, mem: Mem) {
    && (forall n, q :: n in mem && k <= q < |parts| ==> n !in Outs(parts[q]))
    && (forall n :: n in mem ==> n !in g.realName)
  }

  ghost predicate Allocated(g: Graph, env: Mem)
    requires Idempotent(g)
  { forall n {:trigger n in env} :: n in env ==> !IsNone(g, n) }

  /** Everything needed from partition `k` on is at hand, with the value the unpartitioned run gives it. */
  ghost predicate InStep(g: Graph, parts: seq<Partition>, k: nat, env: Mem, mem: Mem, consts: Mem)
    requires Idempotent(g) && k <= |parts|
  {
    && (forall n {:trigger AtHand(g, parts, k, env, mem, n)} :: AtHand(g, parts, k, env, mem, n))
    && NothingLater(g, parts, k, mem)
    && Agree(g.constants, consts, mem)
    && Allocated(g, env)
  }

  ghost predicate AllAllocated(g: Graph, names: set<Name>)
    requires Idempotent(g)
  { forall n :: n in names ==> !IsNone(g, n) }

  /** With nothing unallocated freed, every input of a partition is allocated; otherwise some input is not. */
  lemma InputsAllocated(g: Graph, parts: seq<Partition>, k: nat)
    requires WellFormed(g, parts) && k < |parts|
    ensures (forall x :: x in Frees(parts[k]) && x !in Outs(parts[k]) && x in g.known ==> !IsNone(g, x))
       <==> AllAllocated(g, InputNames(g, parts[k]) * g.known)
  {
    forall x | x in Accessed(parts[k]) && !IsNone(g, x) && x !in Outs(parts[k])
      ensures !IsNone(g, Real(g, x))
    {
      RealIsReal(g, parts, x);
    }
    forall x | x in Frees(parts[k]) && x !in Outs(parts[k]) && x in g.known
      ensures x in InputNames(g, parts[k]) * g.known
    {
    }
  }

  /** The memory a partition starts from holds what the unpartitioned run holds of its reach. */
  lemma LocalStart(g: Graph, parts: seq<Partition>, skips: seq<bool>, k: nat, env: Mem, mem: Mem, consts: Mem)
    requires WellFormed(g, parts) && k < |parts| == |skips| && InStep(g, parts, k, env, mem, consts)
    requires AllAllocated(g, InputNames(g, parts[k]) * g.known)
    ensures var sig := SignAt(g, parts, skips, k);
      && sig.inputs <= env.Keys
      && Agree(Reach(g, parts[k]), Restrict(env, sig.inputs) + Restrict(consts, sig.constants), mem)
  {
    var sig := SignAt(g, parts, skips, k);
    forall n | n in sig.inputs
      ensures n in env && n in mem && env[n] == mem[n]
    {
      assert n in Unmet(g, parts, k) && AtHand(g, parts, k, env, mem, n);
    }
    var local := Restrict(env, sig.inputs) + Restrict(consts, sig.constants);
    forall n | n in Reach(g, parts[k])
      ensures (n in local <==> n in mem) && (n in local ==> local[n] == mem[n])
    {
      if n in InputNames(g, parts[k]) {
        InputIsFromBefore(g, parts, k, n);
      }
    }
  }

  /** Every output a signature promises is in the partition's reach, and is there when the partition ends. */
  lemma OutputIsMade(g: Graph, parts: seq<Partition>, skips: seq<bool>, k: nat, local: Mem, n: Name)
    requires WellFormed(g, parts) && k < |parts| == |skips|
    requires SignAt(g, parts, skips, k).inputs <= local.Keys
    requires n in SignAt(g, parts, skips, k).outputs
    ensures n in Reach(g, parts[k]) && n in ExecAll(g, parts[k], local)
  {
    var later := Unmet(g, parts, k + 1);
    var x :| x in Outs(parts[k]) * later + Kept(g, parts[k]) && Real(g, x) == n;
    if x in Kept(g, parts[k]) {
      InputIsFromBefore(g, parts, k, x);
      ExecAllEffect(g, parts[k], local, n);
    } else {
      UnmetIsFromBefore(g, parts, k + 1, x);
      var i :| 0 <= i < |parts[k]| && x in parts[k][i].outs;
      assert x in parts[k][i].outs + parts[k][i].writeNames;
      assert n in Targets(g, parts[k][i]);
      ExecAllEffect(g, parts[k], local, n);
    }
  }

  /** The unpartitioned memory after partition `k` has nothing of later partitions in it. */
  lemma MemStep(g: Graph, parts: seq<Partition>, k: nat, env: Mem, mem: Mem, consts: Mem)
    requires WellFormed(g, parts) && k < |parts| && InStep(g, parts, k, env, mem, consts)
    ensures var mem' := ExecAll(g, parts[k], mem);
      && NothingLater(g, parts, k + 1, mem')
      && Agree(g.constants, consts, mem')
      && (forall n :: n !in Reach(g, parts[k]) || n in g.constants ==> Agree({n}, mem, mem'))
  {
    var mem' := ExecAll(g, parts[k], mem);
    forall i | 0 <= i < |parts[k]|
      ensures Targets(g, parts[k][i]) <= Reach(g, parts[k]) * g.known
      ensures forall x :: x in Targets(g, parts[k][i]) ==> x !in g.realName
    {
      TouchesOnlyReach(g, parts, k, i);
    }
    forall n
      ensures n !in Reach(g, parts[k]) || n in g.constants ==> Agree({n}, mem, mem')
      ensures n in mem' ==> n !in g.realName && (n in mem || n in Reach(g, parts[k]))
    {
      ExecAllEffect(g, parts[k], mem, n);
      assert n in {n};
    }
    forall n | n in g.constants
      ensures (n in consts <==> n in mem') && (n in consts ==> consts[n] == mem'[n])
    {
      assert Agree({n}, mem, mem') && n in {n};
    }
    forall n, q | n in mem' && k + 1 <= q < |parts|
      ensures n !in Outs(parts[q])
    {
      if n in InputNames(g, parts[k]) {
        InputIsFromBefore(g, parts, k, n);
      } else if n in Outs(parts[k]) {
        OnlyProducer(g, parts, k, q, n);
      }
    }
  }

  /** The partition's memory ends up agreeing with the unpartitioned memory, and holds every promised output. */
  lemma LocalEnd(g: Graph, parts: seq<Partition>, skips: seq<bool>, k: nat, env: Mem, mem: Mem, consts: Mem)
    requires WellFormed(g, parts) && k < |parts| == |skips| && InStep(g, parts, k, env, mem, consts)
    requires AllAllocated(g, InputNames(g, parts[k]) * g.known)
    ensures var sig := SignAt(g, parts, skips, k);
      var local := ExecAll(g, parts[k], Restrict(env, sig.inputs) + Restrict(consts, sig.constants));
      && sig.inputs <= env.Keys
      && sig.outputs <= local.Keys
      && sig.outputs <= Reach(g, parts[k])
      && Agree(Reach(g, parts[k]), local, ExecAll(g, parts[k], mem))
  {
    var sig := SignAt(g, parts, skips, k);
    var start := Restrict(env, sig.inputs) + Restrict(consts, sig.constants);
    LocalStart(g, parts, skips, k, env, mem, consts);
    forall i | 0 <= i < |parts[k]|
      ensures Footprint(g, parts[k][i]) <= Reach(g, parts[k])
    {
      TouchesOnlyReach(g, parts, k, i);
    }
    ExecAllAgree(g, parts[k], start, mem, Reach(g, parts[k]));
    forall n | n in sig.outputs
      ensures n in Reach(g, parts[k]) && n in ExecAll(g, parts[k], start)
    {
      OutputIsMade(g, parts, skips, k, start, n);
    }
  }

  /** A name still needed after partition `k` is handed over with the value of the unpartitioned run. */
  lemma NeededIsRight(g: Graph, parts: seq<Partition>, skips: seq<bool>, k: nat, env: Mem, mem: Mem, local: Mem, mem': Mem, n: Name)
    requires WellFormed(g, parts) && k < |parts| == |skips|
    requires n in Unmet(g, parts, k + 1) && n in g.known && !IsNone(g, n)
    requires AtHand(g, parts, k, env, mem, n)
    requires SignAt(g, parts, skips, k).outputs <= local.Keys
    requires SignAt(g, parts, skips, k).outputs <= Reach(g, parts[k])
    requires Agree(Reach(g, parts[k]), local, mem')
    requires n !in Reach(g, parts[k]) ==> Agree({n}, mem, mem')
    ensures var sig := SignAt(g, parts, skips, k);
      var env' := (env - sig.freed) + Restrict(local, sig.outputs);
      n in env' && n in mem' && env'[n] == mem'[n]
  {
    UnmetPassesThrough(g, parts, skips, k, n);
    if n !in SignAt(g, parts, skips, k).outputs {
      assert n !in Reach(g, parts[k]);
      assert n in {n};
    }
  }

  /** Everything at hand after partition `k` is allocated. */
  lemma HandedOnIsAllocated(g: Graph, parts: seq<Partition>, skips: seq<bool>, k: nat, env: Mem, local: Mem)
    requires Idempotent(g) && k < |parts| == |skips| && Allocated(g, env)
    ensures Allocated(g, (env - SignAt(g, parts, skips, k).freed) + Restrict(local, SignAt(g, parts, skips, k).outputs))
  {
  }

  /** One partition call keeps the two runs in step. */
  lemma CallStep(g: Graph, parts: seq<Partition>, skips: seq<bool>, k: nat, env: Mem, mem: Mem, consts: Mem)
    requires WellFormed(g, parts) && k < |parts| == |skips| && InStep(g, parts, k, env, mem, consts)
    requires AllAllocated(g, InputNames(g, parts[k]) * g.known)
    ensures var r := CallPartition(g, SignAt(g, parts, skips, k), parts[k], env, consts);
      r.Some? && InStep(g, parts, k + 1, r.value, ExecAll(g, parts[k], mem), consts)
  {
    var sig := SignAt(g, parts, skips, k);
    var local := ExecAll(g, parts[k], Restrict(env, sig.inputs) + Restrict(consts, sig.constants));
    var mem' := ExecAll(g, parts[k], mem);
    LocalEnd(g, parts, skips, k, env, mem, consts);
    MemStep(g, parts, k, env, mem, consts);
    var env' := (env - sig.freed) + Restrict(local, sig.outputs);
    var next := k + 1;
    forall n
      ensures AtHand(g, parts, next, env', mem', n)
    {
      assert AtHand(g, parts, k, env, mem, n);
      if n in Unmet(g, parts, k + 1) && n in g.known && !IsNone(g, n) {
        NeededIsRight(g, parts, skips, k, env, mem, local, mem', n);
      }
    }
    HandedOnIsAllocated(g, parts, skips, k, env, local);
  }

  // ---------------------------------------------------------------- main result

  ghost predicate FreesAllocatedAt(g: Graph, p: Partition)
    requires Idempotent(g)
  {
    forall x :: x in Frees(p) && x !in Outs(p) && x in g.known ==> !IsNone(g, x)
  }

  /** An unallocated input is never at hand, so the call fails. */
  lemma CallStuck(g: Graph, parts: seq<Partition>, skips: seq<bool>, k: nat, env: Mem, mem: Mem, consts: Mem)
    requires WellFormed(g, parts) && k < |parts| == |skips| && InStep(g, parts, k, env, mem, consts)
    requires !FreesAllocatedAt(g, parts[k])
    ensures CallPartition(g, SignAt(g, parts, skips, k), parts[k], env, consts).None?
  {
    InputsAllocated(g, parts, k);
    var x :| x in InputNames(g, parts[k]) * g.known && IsNone(g, x);
    assert x in SignAt(g, parts, skips, k).inputs;
  }

  lemma {:induction false} SimulateFrom(g: Graph, parts: seq<Partition>, skips: seq<bool>, k: nat, env: Mem, mem: Mem, consts: Mem)
    requires WellFormed(g, parts) && k <= |parts| == |skips| && InStep(g, parts, k, env, mem, consts)
    ensures |SignaturesFrom(g, parts, skips, k)| == |parts| - k
    ensures var r := CallAll(g, parts[k..], SignaturesFrom(g, parts, skips, k), env, consts);
      if forall p :: k <= p < |parts| ==> FreesAllocatedAt(g, parts[p])
      then r.Some? && InStep(g, parts, |parts|, r.value, ExecAll(g, Flatten(parts[k..]), mem), consts)
      else r.None?
    decreases |parts| - k
  {
    if k < |parts| {
      var sigs := SignaturesFrom(g, parts, skips, k);
      var sig := SignAt(g, parts, skips, k);
      SignaturesFromAt(g, parts, skips, k, k);
      assert sigs[0] == sig && sigs[1..] == SignaturesFrom(g, parts, skips, k + 1);
      assert parts[k..][0] == parts[k] && parts[k..][1..] == parts[k + 1..];
      if FreesAllocatedAt(g, parts[k]) {
        InputsAllocated(g, parts, k);
        CallStep(g, parts, skips, k, env, mem, consts);
        var env' := CallPartition(g, sig, parts[k], env, consts).value;
        SimulateFrom(g, parts, skips, k + 1, env', ExecAll(g, parts[k], mem), consts);
        ExecAllAppend(g, parts[k], Flatten(parts[k + 1..]), mem);
      } else {
        CallStuck(g, parts, skips, k, env, mem, consts);
      }
    }
  }

  /** Before the first partition the two runs are in step. */
  lemma StartsInStep(g: Graph, parts: seq<Partition>, args: Mem, consts: Mem)
    requires WellFormed(g, parts) && args.Keys == g.inputs && consts.Keys == g.constants
    ensures InStep(g, parts, 0, args, args + consts, consts)
  {
    var mem := args + consts;
    forall n
      ensures AtHand(g, parts, 0, args, mem, n)
    {
      if n in Unmet(g, parts, 0) && n in g.known && !IsNone(g, n) {
        UnmetIsFromBefore(g, parts, 0, n);
        assert n !in g.inputs ==> Made(parts, n);
      }
    }
    forall n, q | n in mem && 0 <= q < |parts|
      ensures n !in Outs(parts[q])
    {
      forall i | 0 <= i < |parts[q]|
        ensures n !in parts[q][i].outs
      {
        assert n in parts[q][i].outs ==> Produces(parts, q, i, n);
      }
    }
  }

  /**
   Partitioning preserves meaning.  The partitioned run completes exactly when no
   partition is the last user of an unallocated buffer of an earlier one, and when it
   completes every allocated graph output has the value of the unpartitioned run.
   */
  lemma PartitionedRunMeansTheSame(g: Graph, parts: seq<Partition>, skips: seq<bool>, args: Mem, consts: Mem)
    requires WellFormed(g, parts) && |parts| == |skips|
    requires args.Keys == g.inputs && consts.Keys == g.constants
    ensures |SignaturesFrom(g, parts, skips, 0)| == |parts|
    ensures var r := CallAll(g, parts, SignaturesFrom(g, parts, skips, 0), args, consts);
      var whole := ExecAll(g, Flatten(parts), args + consts);
      && (r.Some? <==> FreesAllocated(g, parts))
      && (r.Some? ==> forall o :: o in g.outputs && !IsNone(g, o) ==> o in r.value && o in whole && r.value[o] == whole[o])
  {
    var mem := args + consts;
    StartsInStep(g, parts, args, consts);
    assert parts[0..] == parts;
    SimulateFrom(g, parts, skips, 0, args, mem, consts);
    assert FreesAllocated(g, parts) <==> forall p :: 0 <= p < |parts| ==> FreesAllocatedAt(g, parts[p]);
    var r := CallAll(g, parts, SignaturesFrom(g, parts, skips, 0), args, consts);
    var whole := ExecAll(g, Flatten(parts), mem);
    forall o | r.Some? && o in g.outputs && !IsNone(g, o)
      ensures o in r.value && o in whole && r.value[o] == whole[o]
    {
      assert AtHand(g, parts, |parts|, r.value, whole, o);
    }
  }

  /** A two-partition graph: the first makes an unallocated buffer, the second is its last user. */
  function TokenGraph(token: Name, v: Value): (Graph, seq<Partition>) {
    (Graph({}, {}, {}, {token}, map[], {}, {token}),
     [[Node({token}, {}, {}, {}, (_: Mem, _: Name) => v)],
      [Node({}, {token}, {}, {token}, (_: Mem, _: Name) => v)]])
  }

  /** The exception is real: this schedule is well formed and its partitioned run fails. */
  lemma TokenGraphFails(token: Name, v: Value)
    ensures var (g, parts) := TokenGraph(token, v);
      WellFormed(g, parts) &&
      |SignaturesFrom(g, parts, [false, false], 0)| == 2 &&
      CallAll(g, parts, SignaturesFrom(g, parts, [false, false], 0), map[], map[]).None?
  {
    var (g, parts) := TokenGraph(token, v);
    assert parts[0][0].outs == {token} && parts[1][0].lastUsage == {token};
    assert Produces(parts, 0, 0, token);
    assert !Before(1, 0, 0, 0);
    assert Available(g, parts, 1, 0, token);
    assert WellFormed(g, parts);
    assert token in Frees(parts[1]) && token !in Outs(parts[1]) && IsNone(g, token);
    assert !FreesAllocated(g, parts);
    PartitionedRunMeansTheSame(g, parts, [false, false], map[], map[]);
  }
}
