/**
 The memory planning pass of the wrapper code generator: trim dead planning lines
 off the end, then plan every remaining one with the state of the subgraph it is in,
 keeping the open subgraphs on a stack.
 */
module MemoryPlan {

  /** The name of a buffer; the pass only compares names. */
  type Name(==)

  /** A planning state is identified by the line that opened it; the outermost one by -1. */
  datatype Line =
    | Planning(name: Name)
    | Planned(name: Name, state: int)
    | EnterSubgraph
    | ExitSubgraph
    | Other

  const ROOT := -1

  datatype Result = Done | IndexError | AssertionError

  // ------------------------------------------------------- nesting of subgraphs

  function Weight(l: Line): int {
    if l.EnterSubgraph? then 1 else if l.ExitSubgraph? then -1 else 0
  }

  /** Subgraphs entered minus subgraphs left by the first `i` lines. */
  function Depth(s: seq<Line>, i: nat): int
    requires i <= |s|
  {
    if i == 0 then 0 else Depth(s, i - 1) + Weight(s[i - 1])
  }

  /** The depth at `k` is at least `d`. */
  ghost predicate AtLeast(s: seq<Line>, k: nat, d: int) { k <= |s| ==> Depth(s, k) >= d }

  /** Between `lo` and `hi` every exit closes an earlier enter, and every enter is closed. */
  ghost predicate BalancedIn(s: seq<Line>, lo: nat, hi: nat)
    requires lo <= hi <= |s|
  {
    Depth(s, hi) == Depth(s, lo) && forall k: nat {:trigger AtLeast(s, k, Depth(s, lo))} :: lo <= k <= hi ==> AtLeast(s, k, Depth(s, lo))
  }

  ghost predicate Balanced(s: seq<Line>) { BalancedIn(s, 0, |s|) }

  /** Line `i` sits directly inside the subgraph opened by line `j`: all that lies between is closed. */
  ghost predicate Encloses(s: seq<Line>, j: int, i: int) {
    -1 <= j < i <= |s| && (j == ROOT || s[j].EnterSubgraph?) && BalancedIn(s, j + 1, i)
  }

  /** Seen from an opener further in, the lines up to `i` have closed something that was open. */
  lemma InnerOpenerIsClosed(s: seq<Line>, j: int, j': int, i: int)
    requires Encloses(s, j, i) && j < j' < i && s[j'].EnterSubgraph?
    ensures Depth(s, i) < Depth(s, j' + 1)
  {
    assert AtLeast(s, j', Depth(s, j + 1));
  }

  /** The enclosing subgraph is unique. */
  lemma EnclosesUnique(s: seq<Line>, j: int, j': int, i: int)
    requires Encloses(s, j, i) && Encloses(s, j', i)
    ensures j == j'
  {
    if j < j' {
      InnerOpenerIsClosed(s, j, j', i);
    } else if j' < j {
      InnerOpenerIsClosed(s, j', j, i);
    }
  }

  // ------------------------------------------------------------------ trimming

  predicate Dead(l: Line, outNames: set<Name>) {
    l.Planning? && l.name !in outNames
  }

  function Trim(s: seq<Line>, outNames: set<Name>): seq<Line> {
    if s != [] && Dead(s[|s| - 1], outNames) then Trim(s[..|s| - 1], outNames) else s
  }

  /** Trimming removes exactly the longest dead tail. */
  lemma {:induction false} TrimIsLongestDeadTail(s: seq<Line>, outNames: set<Name>)
    ensures var t := Trim(s, outNames);
      && |t| <= |s| && t == s[..|t|]
      && (forall k :: |t| <= k < |s| ==> Dead(s[k], outNames))
      && (t == [] || !Dead(t[|t| - 1], outNames))
  {
    if s != [] && Dead(s[|s| - 1], outNames) {
      TrimIsLongestDeadTail(s[..|s| - 1], outNames);
    }
  }

  lemma {:induction false} DepthOfPrefix(s: seq<Line>, n: nat, i: nat)
    requires i <= n <= |s|
    ensures Depth(s[..n], i) == Depth(s, i)
  {
    if i > 0 { DepthOfPrefix(s, n, i - 1); }
  }

  lemma {:induction false} DeadTailIsFlat(s: seq<Line>, n: nat, i: nat)
    requires n <= i <= |s| && forall k :: n <= k < |s| ==> Weight(s[k]) == 0
    ensures Depth(s, i) == Depth(s, n)
  {
    if i > n { DeadTailIsFlat(s, n, i - 1); }
  }

  lemma TrimKeepsBalance(s: seq<Line>, outNames: set<Name>)
    ensures Balanced(Trim(s, outNames)) <==> Balanced(s)
  {
    var t := Trim(s, outNames);
    TrimIsLongestDeadTail(s, outNames);
    forall i: nat | i <= |t| ensures Depth(t, i) == Depth(s, i) { DepthOfPrefix(s, |t|, i); }
    forall i: nat | |t| <= i <= |s| ensures Depth(s, i) == Depth(t, |t|) { DeadTailIsFlat(s, |t|, i); }
    if Balanced(s) {
      forall k: nat | k <= |t| ensures AtLeast(t, k, 0) { assert AtLeast(s, k, Depth(s, 0)); }
    }
    if Balanced(t) {
      forall k: nat | k <= |s| ensures AtLeast(s, k, 0) {
        assert AtLeast(t, if k <= |t| then k else |t|, Depth(t, 0));
      }
    }
  }

  // ------------------------------------------------------------- when it works

  /** The walk neither pops nor looks at an empty stack, and one state is left at the end. */
  ghost predicate Survives(s: seq<Line>) {
    && Depth(s, |s|) == 0
    && (forall k: nat {:trigger AtLeast(s, k, -1)} :: k <= |s| ==> AtLeast(s, k, -1))
    && (forall k: nat {:trigger AtLeast(s, k, 0)} :: k < |s| && s[k].Planning? ==> AtLeast(s, k, 0))
  }

  lemma BalancedSurvives(s: seq<Line>)
    requires Balanced(s)
    ensures Survives(s)
  {
    forall k: nat | k <= |s| ensures AtLeast(s, k, -1) { assert AtLeast(s, k, Depth(s, 0)); }
    forall k: nat | k < |s| ensures AtLeast(s, k, 0) { assert AtLeast(s, k, Depth(s, 0)); }
  }

  /** The converse fails: an exit before an enter goes unnoticed when nothing is planned between them. */
  lemma UnbalancedCanSurvive()
    ensures Survives([ExitSubgraph, EnterSubgraph]) && !Balanced([ExitSubgraph, EnterSubgraph])
  {
    var s := [ExitSubgraph, EnterSubgraph];
    assert Depth(s, 0) == 0 && Depth(s, 1) == -1 && Depth(s, 2) == 0;
    assert !AtLeast(s, 1, Depth(s, 0));
  }

  // -------------------------------------------------------------------- the pass

  /** The stack of planning states after the first `i` lines. */
  function Stack(s: seq<Line>, i: nat): seq<int>
    requires i <= |s|
  {
    if i == 0 then [ROOT]
    else
      var st := Stack(s, i - 1);
      if s[i - 1].EnterSubgraph? then st + [i - 1]
      else if s[i - 1].ExitSubgraph? && st != [] then st[..|st| - 1]
      else st
  }

  /** Line `i` after planning with the top of the stack. */
  function PlanLine(s: seq<Line>, i: nat): Line
    requires i < |s|
  {
    var st := Stack(s, i);
    if s[i].Planning? && st != [] then Planned(s[i].name, st[|st| - 1]) else s[i]
  }

  lemma {:induction false} StackHeight(s: seq<Line>, i: nat)
    requires i <= |s| && forall k: nat {:trigger AtLeast(s, k, -1)} :: k <= i ==> AtLeast(s, k, -1)
    ensures |Stack(s, i)| == Depth(s, i) + 1
  {
    if i > 0 {
      StackHeight(s, i - 1);
      assert AtLeast(s, i, -1);
    }
  }

  /** State `d` of the stack was opened directly inside the one below it. */
  ghost predicate Opened(s: seq<Line>, st: seq<int>, d: nat)
    requires 0 < d < |st|
  { 0 <= st[d] < |s| && s[st[d]].EnterSubgraph? && Encloses(s, st[d - 1], st[d]) }

  ghost predicate Nested(s: seq<Line>, st: seq<int>, i: int) {
    && |st| > 0 && st[0] == ROOT
    && (forall d: nat {:trigger Opened(s, st, d)} :: 0 < d < |st| ==> Opened(s, st, d))
    && Encloses(s, st[|st| - 1], i)
  }

  /** The depth never falls below zero up to `i`. */
  ghost predicate StaysUp(s: seq<Line>, i: nat) { forall k: nat {:trigger AtLeast(s, k, 0)} :: k <= i ==> AtLeast(s, k, 0) }

  lemma {:induction false} StackIsNested(s: seq<Line>, i: nat)
    requires i <= |s| && StaysUp(s, i)
    ensures Nested(s, Stack(s, i), i)
  {
    if i == 0 {
      NestedStart(s);
    } else {
      var j := i - 1;
      assert StaysUp(s, j);
      StackIsNested(s, j);
      NestedStep(s, j);
    }
  }

  lemma NestedStart(s: seq<Line>)
    ensures Nested(s, Stack(s, 0), 0)
  {
    assert AtLeast(s, 0, Depth(s, 0));
  }

  /** After one more line the stack is still nested, as long as the depth does not fall below zero. */
  lemma NestedStep(s: seq<Line>, i: nat)
    requires i < |s| && Nested(s, Stack(s, i), i)
    requires StaysUp(s, i + 1)
    ensures Nested(s, Stack(s, i + 1), i + 1)
  {
    var st := Stack(s, i);
    if s[i].EnterSubgraph? {
      NestedEnter(s, st, i);
      assert Stack(s, i + 1) == st + [i];
    } else if s[i].ExitSubgraph? {
      StackIsDeep(s, i);
      NestedExit(s, st, i);
      assert Stack(s, i + 1) == st[..|st| - 1];
    } else {
      EnclosesPast(s, st[|st| - 1], i);
      NestedPast(s, st, i);
      assert Stack(s, i + 1) == st;
    }
  }

  /** An exit that does not lead below depth zero finds more than the outermost state. */
  lemma StackIsDeep(s: seq<Line>, i: nat)
    requires i < |s| && s[i].ExitSubgraph?
    requires StaysUp(s, i + 1)
    ensures |Stack(s, i)| > 1
  {
    forall k: nat | k <= i ensures AtLeast(s, k, -1) { assert AtLeast(s, k, 0); }
    StackHeight(s, i);
    assert AtLeast(s, i + 1, 0);
    assert Depth(s, i + 1) == Depth(s, i) - 1;
  }

  lemma NestedPast(s: seq<Line>, st: seq<int>, i: nat)
    requires i < |s| && Nested(s, st, i) && Encloses(s, st[|st| - 1], i + 1)
    ensures Nested(s, st, i + 1)
  {
  }

  lemma EnclosesPast(s: seq<Line>, j: int, i: int)
    requires Encloses(s, j, i) && i < |s| && Weight(s[i]) == 0
    ensures Encloses(s, j, i + 1)
  {
    var open := Depth(s, j + 1);
    forall k: nat | j + 1 <= k <= i + 1 ensures AtLeast(s, k, open) {
      assert k <= i ==> AtLeast(s, k, open);
    }
  }

  lemma EnclosesAfterExit(s: seq<Line>, below: int, top: int, i: int)
    requires Encloses(s, below, top) && Encloses(s, top, i) && top >= 0 && i < |s| && s[i].ExitSubgraph?
    ensures Encloses(s, below, i + 1)
  {
    var open := Depth(s, below + 1);
    forall k: nat | below + 1 <= k <= i + 1 ensures AtLeast(s, k, open) {
      assert k <= top ==> AtLeast(s, k, open);
      assert top < k <= i ==> AtLeast(s, k, Depth(s, top + 1));
    }
  }

  lemma NestedEnter(s: seq<Line>, st: seq<int>, i: nat)
    requires i < |s| && Nested(s, st, i) && s[i].EnterSubgraph?
    ensures Nested(s, st + [i], i + 1)
  {
    var st' := st + [i];
    forall d: nat | 0 < d < |st'| ensures Opened(s, st', d) {
      assert d < |st| ==> Opened(s, st, d);
    }
    assert AtLeast(s, i + 1, Depth(s, i + 1));
  }

  lemma NestedExit(s: seq<Line>, st: seq<int>, i: nat)
    requires i < |s| && Nested(s, st, i) && s[i].ExitSubgraph? && |st| > 1
    ensures Nested(s, st[..|st| - 1], i + 1)
  {
    var st' := st[..|st| - 1];
    forall d: nat | 0 < d < |st'| ensures Opened(s, st', d) { assert Opened(s, st, d); }
    assert Opened(s, st, |st| - 1);
    EnclosesAfterExit(s, st[|st| - 2], st[|st| - 1], i);
  }

  /** In a balanced listing every planning line is planned with the state of its innermost enclosing subgraph. */
  lemma PlannedInsideItsSubgraph(s: seq<Line>, i: nat)
    requires Balanced(s) && i < |s| && s[i].Planning?
    ensures PlanLine(s, i).Planned? && PlanLine(s, i).name == s[i].name && Encloses(s, PlanLine(s, i).state, i)
  {
    forall k: nat | k <= i ensures AtLeast(s, k, 0) { assert AtLeast(s, k, Depth(s, 0)); }
    StackIsNested(s, i);
  }

  /** What becomes of a line: a planning line is planned under its name, any other is left as it is. */
  ghost predicate IsPlanned(was: Line, now: Line) {
    if was.Planning? then now.Planned? && now.name == was.name else now == was
  }

  lemma PlanningLinesArePlanned(s: seq<Line>, i: nat)
    requires Survives(s) && i < |s|
    ensures IsPlanned(s[i], PlanLine(s, i))
  {
    forall k: nat | k <= i ensures AtLeast(s, k, -1) { }
    StackHeight(s, i);
    assert s[i].Planning? ==> AtLeast(s, i, 0);
  }

  class WrapperCodegen {
    var lines: seq<Line>

    /** `memory_plan_reuse_patched`. */
    method MemoryPlanReuse(outNames: set<Name>) returns (r: Result)
      modifies this
      ensures r.Done? <==> Survives(Trim(old(lines), outNames))
      ensures r.Done? ==>
        var s := Trim(old(lines), outNames);
        |lines| == |s| && forall k :: 0 <= k < |s| ==> lines[k] == PlanLine(s, k) && IsPlanned(s[k], lines[k])
      ensures Balanced(old(lines)) ==> r.Done?
    {
      ghost var s := Trim(lines, outNames);
      TrimKeepsBalance(lines, outNames);
      if Balanced(s) { BalancedSurvives(s); }
      while lines != [] && lines[|lines| - 1].Planning? && lines[|lines| - 1].name !in outNames
        invariant Trim(lines, outNames) == s
        decreases |lines|
      {
        lines := lines[..|lines| - 1];
      }
      assert lines == s;
      r := PlanLines(s);
      if r.Done? {
        forall k | 0 <= k < |s| ensures IsPlanned(s[k], lines[k]) { PlanningLinesArePlanned(s, k); }
      }
    }

    /** The walk over the lines with its stack of planning states. */
    method PlanLines(ghost s: seq<Line>) returns (r: Result)
      requires lines == s
      modifies this
      ensures r.Done? <==> Survives(s)
      ensures r.Done? ==> |lines| == |s| && forall k :: 0 <= k < |s| ==> lines[k] == PlanLine(s, k)
    {
      var states := [ROOT];
      var past: seq<int> := [];
      var i := 0;
      while i < |lines|
        invariant 0 <= i <= |lines| == |s|
        invariant states == Stack(s, i)
        invariant forall k: nat {:trigger AtLeast(s, k, -1)} :: k <= i ==> AtLeast(s, k, -1)
        invariant forall k: nat {:trigger AtLeast(s, k, 0)} :: k < i && s[k].Planning? ==> AtLeast(s, k, 0)
        invariant lines[i..] == s[i..]
        invariant forall k :: 0 <= k < i ==> lines[k] == PlanLine(s, k)
      {
        var line := lines[i];
        assert line == lines[i..][0] == s[i];
        StackHeight(s, i);
        if line.Planning? {
          if states == [] {
            assert !AtLeast(s, i, 0);
            return IndexError;
          }
          lines := lines[i := Planned(line.name, states[|states| - 1])];
        } else if line.EnterSubgraph? {
          states := states + [i];
        } else if line.ExitSubgraph? {
          if states == [] {
            assert !AtLeast(s, i + 1, -1);
            return IndexError;
          }
          past := past + [states[|states| - 1]];
          states := states[..|states| - 1];
        }
        assert lines[i + 1..] == s[i..][1..] == s[i + 1..];
        assert AtLeast(s, i + 1, -1);
        i := i + 1;
      }
      StackHeight(s, i);
      if states == [] {
        return IndexError;
      }
      past := past + [states[|states| - 1]];
      states := states[..|states| - 1];
      if |states| != 0 {
        return AssertionError;
      }
      return Done;
    }
  }
}
