/**
 Graph partition signatures: a backward liveness pass over the partitions of a
 scheduled graph decides what each partition receives, returns and frees.  Running
 the partitions through those signatures must mean the same as running the graph.
 */
module GraphPartition {
  import opened Options

  /** The name of a buffer; the pass only compares names. */
  type Name(==, !new)
  type Value(!new)
  type Mem = map<Name, Value>

  /**
   A scheduled node: the buffers it produces, the names it reads and writes, the
   names it is the last to use, and the new value of each buffer it changes, as a
   function of the memory it accesses.
   */
  datatype Node = Node(
    outs: set<Name>,
    readNames: set<Name>,
    writeNames: set<Name>,
    lastUsage: set<Name>,
    compute: (Mem, Name) -> Value)
  {
    function Accesses(): set<Name> { readNames + writeNames }
  }

  type Partition = seq<Node>

  /**
   What the pass knows of the graph.  `known` are the keys of the name-to-node map
   (graph inputs and produced buffers); `realName` sends a mutation output to the buffer
   it mutates; `unallocated` are the buffers with no layout.
   */
  datatype Graph = Graph(
    inputs: set<Name>,
    constants: set<Name>,
    outputs: set<Name>,
    known: set<Name>,
    realName: map<Name, Name>,
    mutationOutputs: set<Name>,
    unallocated: set<Name>)

  /** `freed` are the inputs that `input_deallocation` marks true; the others are marked false. */
  datatype Signature = Signature(
    inputs: set<Name>,
    outputs: set<Name>,
    freed: set<Name>,
    skipCudagraph: bool,
    constants: set<Name>)

  // ------------------------------------------------------------ the pass

  ghost predicate Idempotent(g: Graph) {
    forall k :: k in g.realName ==> g.realName[k] !in g.realName
  }

  function Real(g: Graph, n: Name): Name {
    if n in g.realName then g.realName[n] else n
  }

  /** `is_none_layout`: a mutation output is as unallocated as the buffer it mutates. */
  predicate IsNone(g: Graph, n: Name)
    requires Idempotent(g)
    decreases if n in g.realName then 1 else 0
  {
    n in g.unallocated && (if n in g.mutationOutputs && n in g.realName then IsNone(g, g.realName[n]) else true)
  }

  function Outs(p: Partition): set<Name> {
    set i, x | 0 <= i < |p| && x in p[i].outs :: x
  }

  function Accessed(p: Partition): set<Name> {
    set i, x | 0 <= i < |p| && x in p[i].Accesses() :: x
  }

  function Frees(p: Partition): set<Name> {
    set i, x | 0 <= i < |p| && x in p[i].lastUsage :: x
  }

  /** `partition_input_names`, extra inputs included. */
  function InputNames(g: Graph, p: Partition): set<Name>
    requires Idempotent(g)
  {
    (set x | x in Accessed(p) && !IsNone(g, x) && x !in Outs(p) :: Real(g, x))
    + (set x | x in Frees(p) && x !in Outs(p) && x in g.known)
  }

  /** `returned_output_names`, extra outputs included and mutations resolved. */
  function Returned(g: Graph, p: Partition, unmet: set<Name>): set<Name>
    requires Idempotent(g)
  {
    set x | x in Outs(p) * unmet + Kept(g, p) :: Real(g, x)
  }

  /** Inputs the partition does not free: it hands them back. */
  function Kept(g: Graph, p: Partition): set<Name>
    requires Idempotent(g)
  {
    set x | x in InputNames(g, p) && x in g.known && x !in Frees(p)
  }

  function Sign(g: Graph, p: Partition, skip: bool, unmet: set<Name>): Signature
    requires Idempotent(g)
  {
    Signature(
      InputNames(g, p) * g.known,
      (set x | x in Returned(g, p, unmet) && !IsNone(g, x)),
      InputNames(g, p) * g.known * Frees(p),
      skip,
      InputNames(g, p) * g.constants)
  }

  /** What partition `k` and everything after it still needs from outside. */
  function Unmet(g: Graph, parts: seq<Partition>, k: nat): set<Name>
    requires Idempotent(g) && k <= |parts|
    decreases |parts| - k
  {
    if k == |parts| then g.outputs
    else InputNames(g, parts[k]) + (Unmet(g, parts, k + 1) - Returned(g, parts[k], Unmet(g, parts, k + 1)))
  }

  function SignAt(g: Graph, parts: seq<Partition>, skips: seq<bool>, k: nat): Signature
    requires Idempotent(g) && k < |parts| == |skips|
  {
    Sign(g, parts[k], skips[k], Unmet(g, parts, k + 1))
  }

  function SignaturesFrom(g: Graph, parts: seq<Partition>, skips: seq<bool>, k: nat): seq<Signature>
    requires Idempotent(g) && k <= |parts| == |skips|
    decreases |parts| - k
  {
    if k == |parts| then [] else [SignAt(g, parts, skips, k)] + SignaturesFrom(g, parts, skips, k + 1)
  }

  lemma {:induction false} SignaturesFromAt(g: Graph, parts: seq<Partition>, skips: seq<bool>, k: nat, j: nat)
    requires Idempotent(g) && k <= j < |parts| == |skips|
    ensures |SignaturesFrom(g, parts, skips, k)| == |parts| - k
    ensures SignaturesFrom(g, parts, skips, k)[j - k] == SignAt(g, parts, skips, j)
    decreases |parts| - k
  {
    var sig, rest := SignAt(g, parts, skips, k), SignaturesFrom(g, parts, skips, k + 1);
    assert SignaturesFrom(g, parts, skips, k) == [sig] + rest;
    if k + 1 < |parts| {
      SignaturesFromAt(g, parts, skips, k + 1, if j == k then k + 1 else j);
      assert j > k ==> ([sig] + rest)[j - k] == rest[j - (k + 1)];
    }
  }

  function Reverse<T>(s: seq<T>): seq<T> {
    if s == [] then [] else [s[|s| - 1]] + Reverse(s[..|s| - 1])
  }

  /** `get_graph_partition_signature_patched`: one backward loop over the partitions. */
  method GetSignatures(g: Graph, parts: seq<Partition>, skips: seq<bool>) returns (signatures: seq<Signature>)
    requires Idempotent(g) && |parts| == |skips|
    ensures signatures == SignaturesFrom(g, parts, skips, 0)
  {
    var backward: seq<Signature> := [];
    var unmet := g.outputs;
    var k := |parts|;
    while k > 0
      invariant 0 <= k <= |parts|
      invariant unmet == Unmet(g, parts, k)
      invariant Reverse(backward) == SignaturesFrom(g, parts, skips, k)
    {
      k := k - 1;
      var sig, unmetBefore := SignPartition(g, parts[k], skips[k], unmet);
      assert SignaturesFrom(g, parts, skips, k) == [sig] + SignaturesFrom(g, parts, skips, k + 1);
      assert (backward + [sig])[..|backward|] == backward;
      backward := backward + [sig];
      assert Reverse(backward) == [sig] + Reverse(backward[..|backward| - 1]);
      unmet := unmetBefore;
    }
    signatures := Reverse(backward);
  }

  /** One round of the loop: the signature of `p`, and what is unmet before it. */
  method SignPartition(g: Graph, p: Partition, skip: bool, unmet: set<Name>)
    returns (sig: Signature, unmetBefore: set<Name>)
    requires Idempotent(g)
    ensures sig == Sign(g, p, skip, unmet)
    ensures unmetBefore == InputNames(g, p) + (unmet - Returned(g, p, unmet))
  {
    var outputNames, accessed, toFree := Scan(p);
    var returned := outputNames * unmet;
    var inputNames := set x | x in accessed && !IsNone(g, x) && x !in outputNames;
    inputNames := set x | x in inputNames :: Real(g, x);
    var extraInputs := set x | x in toFree - outputNames && x in g.known;
    inputNames := inputNames + extraInputs;
    assert inputNames == InputNames(g, p);
    var inputNodes := inputNames * g.known;
    var freed := inputNodes * toFree;
    var extraOutputs := set x | x in inputNames && x in g.known && x !in toFree;
    assert extraOutputs == Kept(g, p);
    returned := returned + extraOutputs;
    returned := set x | x in returned :: Real(g, x);
    assert returned == Returned(g, p, unmet);
    var outputNodes := set x | x in returned && !IsNone(g, x);
    var constants := inputNames * g.constants;
    sig := Signature(inputNodes, outputNodes, freed, skip, constants);
    unmetBefore := inputNames + (unmet - returned);
  }

  /** The three per-node accumulations of the pass. */
  method Scan(p: Partition) returns (outputNames: set<Name>, accessed: set<Name>, toFree: set<Name>)
    ensures outputNames == Outs(p) && accessed == Accessed(p) && toFree == Frees(p)
  {
    outputNames, accessed, toFree := {}, {}, {};
    for i := 0 to |p|
      invariant outputNames == Outs(p[..i]) && accessed == Accessed(p[..i]) && toFree == Frees(p[..i])
    {
      assert forall j :: 0 <= j < i ==> p[..i][j] == p[..i + 1][j];
      outputNames := outputNames + p[i].outs;
      accessed := accessed + p[i].Accesses();
      toFree := toFree + p[i].lastUsage;
      assert p[..i + 1][i] == p[i];
      ScanStep(p, i);
    }
    assert p[..|p|] == p;
  }

  lemma ScanStep(p: Partition, i: nat)
    requires i < |p|
    ensures Outs(p[..i + 1]) == Outs(p[..i]) + p[i].outs
    ensures Accessed(p[..i + 1]) == Accessed(p[..i]) + p[i].Accesses()
    ensures Frees(p[..i + 1]) == Frees(p[..i]) + p[i].lastUsage
  {
    var a, b := p[..i], p[..i + 1];
    assert forall j :: 0 <= j < i ==> a[j] == b[j];
    assert b[i] == p[i];
  }
}
