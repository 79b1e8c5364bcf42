/**
 What a batch reports, read off the kernel's answers to its process: a store ends with
 the error of the first call that failed and a load with that of its open or read, and
 a batch none of whose calls fail succeeds.
 */
module BlockStoreOutcome {
  import opened Arithmetic
  import opened Bytes
  import opened BlockStore

  // ------------------------------------------------------------------- answers

  /** What `pid` learns from one action. */
  ghost function Answered(pid: Pid, act: Action): seq<Answer> {
    if act.Call? && act.pid == pid then [act.answer] else []
  }

  /** What the kernel answered to `pid`, call by call. */
  ghost function Answers(pid: Pid, acts: seq<Action>): seq<Answer> {
    if acts == [] then [] else Answered(pid, acts[0]) + Answers(pid, acts[1..])
  }

  lemma {:induction false} AnswersJoin(pid: Pid, acts: seq<Action>, more: seq<Action>)
    ensures Answers(pid, acts + more) == Answers(pid, acts) + Answers(pid, more)
  {
    if acts == [] {
      assert acts + more == more;
    } else {
      var rest := acts[1..];
      assert (acts + more)[1..] == rest + more;
      AnswersJoin(pid, rest, more);
      Regroup(Answered(pid, acts[0]), Answers(pid, rest), Answers(pid, more));
    }
  }

  lemma Regroup(a: seq<Answer>, b: seq<Answer>, c: seq<Answer>)
    ensures a + (b + c) == (a + b) + c
  {
  }

  lemma {:induction false} OthersAreNotAnswered(pid: Pid, acts: seq<Action>)
    requires Others(pid, acts)
    ensures Answers(pid, acts) == []
  {
    if acts != [] {
      OthersAreNotAnswered(pid, acts[1..]);
    }
  }

  // ------------------------------------------------------- the error of a store

  /** The error in an answer, or 0: a write of fewer than `size` bytes is EIO. */
  function ErrorIn(a: Answer, size: nat): int {
    match a
    case Fails(e) => e
    case Spoils(e, _) => e
    case Transferred(n) => if n < size then EIO else 0
    case _ => 0
  }

  /** The error in the first answer that has one. */
  function FirstError(ans: seq<Answer>, size: nat): int {
    if ans == [] then 0 else if ErrorIn(ans[0], size) != 0 then ErrorIn(ans[0], size) else FirstError(ans[1..], size)
  }

  lemma {:induction false} FirstErrorNext(ans: seq<Answer>, a: Answer, size: nat)
    ensures FirstError(ans + [a], size) == if FirstError(ans, size) != 0 then FirstError(ans, size) else ErrorIn(a, size)
  {
    if ans == [] {
      assert ans + [a] == [a] && [a][1..] == [];
    } else {
      assert (ans + [a])[1..] == ans[1..] + [a];
      FirstErrorNext(ans[1..], a, size);
    }
  }

  /** The answers to a store after its access(2), as far as the rename. */
  function Working(ans: seq<Answer>): seq<Answer>
    requires ans != []
  { ans[1..Min(6, |ans|)] }

  /** A block was stored: it was there already, or all of its six calls but the first access succeeded. */
  ghost predicate Stored(ans: seq<Answer>, size: nat) {
    ans == [Ok] || (|ans| == 6 && Failure(ans[0]) && FirstError(ans[1..], size) == 0)
  }

  /** A store failed with `e`, the error of the first call that failed after its access(2). */
  ghost predicate NotStored(ans: seq<Answer>, size: nat, e: int) {
    |ans| >= 2 && Failure(ans[0]) && FirstError(Working(ans), size) == e && e != 0
  }

  /** The first `n` blocks were stored, one after the other. */
  ghost predicate StoredAll(ans: seq<Answer>, sizes: seq<nat>, n: nat)
    requires n <= |sizes|
    decreases n
  {
    if n == 0 then ans == []
    else
      ans != [] &&
      var k := if ans[0].Ok? then 1 else 6;
      k <= |ans| && Stored(ans[..k], sizes[0]) && StoredAll(ans[k..], sizes[1..], n - 1)
  }

  /** The error of a batch: that of the first failing call, where an access(2) that fails is none. */
  ghost function BatchError(ans: seq<Answer>, sizes: seq<nat>): int
    decreases |sizes|
  {
    if ans == [] || sizes == [] then 0
    else if ans[0].Ok? then BatchError(ans[1..], sizes[1..])
    else
      var e := FirstError(Working(ans), sizes[0]);
      if e != 0 then e else if |ans| < 6 then 0 else BatchError(ans[6..], sizes[1..])
  }

  lemma {:induction false} StoredOneMore(ans: seq<Answer>, sizes: seq<nat>, n: nat, b: seq<Answer>)
    requires n < |sizes| && StoredAll(ans, sizes, n) && Stored(b, sizes[n])
    ensures StoredAll(ans + b, sizes, n + 1)
    decreases n
  {
    if n == 0 {
      assert ans + b == b && b[..|b|] == b && b[|b|..] == [];
    } else {
      var k := if ans[0].Ok? then 1 else 6;
      assert (ans + b)[..k] == ans[..k] && (ans + b)[k..] == ans[k..] + b;
      StoredOneMore(ans[k..], sizes[1..], n - 1, b);
    }
  }

  lemma {:induction false} StoredBlocksHaveNoError(ans: seq<Answer>, sizes: seq<nat>, n: nat, more: seq<Answer>)
    requires n <= |sizes| && StoredAll(ans, sizes, n)
    ensures BatchError(ans + more, sizes) == BatchError(more, sizes[n..])
    decreases n
  {
    if n == 0 {
      assert ans + more == more && sizes[0..] == sizes;
    } else {
      var all, k := ans + more, if ans[0].Ok? then 1 else 6;
      assert all[k..] == ans[k..] + more && sizes[1..][n - 1..] == sizes[n..];
      assert k == 6 ==> Working(all) == ans[..k][1..];
      StoredBlocksHaveNoError(ans[k..], sizes[1..], n - 1, more);
    }
  }

  // ------------------------------------------------------- a store in progress

  function Sizes(items: seq<StoreItem>, base: nat): (r: seq<nat>)
    requires base <= |items|
    ensures |r| == |items| - base
  { seq(|items| - base, j requires 0 <= j < |items| - base => |items[base + j].src|) }

  /** The block was not there, and `n` calls were answered without an error since. */
  ghost predicate GoingWell(ans: seq<Answer>, size: nat, n: nat) {
    |ans| == n + 1 && Failure(ans[0]) && FirstError(ans[1..], size) == 0
  }

  /** The answers to the block being worked on, at each system call. */
  ghost predicate UpTo(p: Proc, ans: seq<Answer>)
    requires p.Storer? && p.next < |p.items|
  {
    var size := |p.items[p.next].src|;
    match p.spc
    case Access => ans == []
    case MakeDirs => GoingWell(ans, size, 0)
    case OpenTmp => GoingWell(ans, size, 1)
    case Write(_) => GoingWell(ans, size, 2)
    case CloseTmp => GoingWell(ans, size, 3)
    case Rename => GoingWell(ans, size, 4)
    case CloseAfterError(e) => |ans| == 4 && NotStored(ans, size, e)
    case UnlinkTmp(e) => |ans| <= 6 && NotStored(ans, size, e)
    case StoreEnd(e) => NotStored(ans, size, e)
  }

  /** Since it began with block `base`, the process has stored blocks by the first `k` answers and is at work by the rest. */
  ghost predicate Explained(p: Proc, base: nat, ans: seq<Answer>, k: nat) {
    && p.Storer? && base <= p.next <= |p.items| && k <= |ans|
    && StoredAll(ans[..k], Sizes(p.items, base), p.next - base)
    && (if p.next == |p.items| then k == |ans| && p.spc == StoreEnd(0) else UpTo(p, ans[k..]))
  }

  /** One answer to the block being worked on: it goes on, fails or is stored. */
  lemma OneAnswer(fs: Fs, p: Proc, ans: seq<Answer>, a: Answer)
    requires p.Storer? && StoreAnswer(fs, p, a) && UpTo(p, ans)
    ensures var p' := StoreNext(p, a);
      && p'.items == p.items
      && (p'.next == p.next ==> UpTo(p', ans + [a]))
      && (p'.next != p.next ==> p' == StoreReturns(p, 0) && Stored(ans + [a], |p.items[p.next].src|))
  {
    var size, all := |p.items[p.next].src|, ans + [a];
    if ans != [] {
      assert all[1..] == ans[1..] + [a];
      FirstErrorNext(ans[1..], a, size);
      if |ans| < 6 {
        assert Working(all) == all[1..] && Working(ans) == ans[1..];
      } else {
        assert Working(all) == Working(ans);
      }
    } else {
      assert all == [a] && all[1..] == [];
    }
  }

  lemma StepExplained(fs: Fs, p: Proc, base: nat, ans: seq<Answer>, k: nat, a: Answer) returns (k': nat)
    requires Explained(p, base, ans, k) && StoreAnswer(fs, p, a)
    ensures Explained(StoreNext(p, a), base, ans + [a], k')
  {
    var p', all, work := StoreNext(p, a), ans + [a], ans[k..];
    OneAnswer(fs, p, work, a);
    if p'.next == p.next {
      k' := k;
      assert all[..k] == ans[..k] && all[k..] == work + [a];
    } else {
      k' := |all|;
      StoredOneMore(ans[..k], Sizes(p.items, base), p.next - base, work + [a]);
      assert all[..k'] == ans[..k] + (work + [a]) && all[k'..] == [];
    }
  }

  lemma {:induction false} DeadStaysDead(cfg: Config, w: World, acts: seq<Action>, pid: Pid)
    requires Run(cfg, w, acts) && pid in w.procs && w.procs[pid].Dead?
    ensures pid in After(cfg, w, acts).procs && After(cfg, w, acts).procs[pid].Dead?
    decreases |acts|
  {
    if acts != [] {
      DeadStaysDead(cfg, Apply(cfg, w, acts[0]), acts[1..], pid);
    }
  }

  /** A store that lives to the end of a run is explained by the answers it has had. */
  lemma {:induction false} RunExplained(cfg: Config, w: World, acts: seq<Action>, pid: Pid, base: nat, past: seq<Answer>, k: nat)
    returns (k': nat)
    requires Run(cfg, w, acts) && pid in w.procs && Explained(w.procs[pid], base, past, k)
    ensures pid in After(cfg, w, acts).procs
    ensures var p := After(cfg, w, acts).procs[pid]; p.Dead? || Explained(p, base, past + Answers(pid, acts), k')
    decreases |acts|
  {
    if acts == [] {
      k' := k;
      assert past + [] == past;
    } else {
      var w1, rest := Apply(cfg, w, acts[0]), Answers(pid, acts[1..]);
      if acts[0] == Die(pid) {
        DeadStaysDead(cfg, w1, acts[1..], pid);
        k' := 0;
      } else if acts[0].pid == pid {
        var a := acts[0].answer;
        var k1 := StepExplained(w.fs, w.procs[pid], base, past, k, a);
        k' := RunExplained(cfg, w1, acts[1..], pid, base, past + [a], k1);
        Regroup(past, [a], rest);
      } else {
        k' := RunExplained(cfg, w1, acts[1..], pid, base, past, k);
        assert Answers(pid, acts) == rest;
      }
    }
  }

  lemma StartExplained(items: seq<StoreItem>)
    ensures Explained(StartStore(items), 0, [], 0)
  {
  }

  lemma ExplainedError(p: Proc, base: nat, ans: seq<Answer>, k: nat)
    requires Explained(p, base, ans, k) && p.spc.StoreEnd?
    ensures base <= |p.items| && p.spc.result == BatchError(ans, Sizes(p.items, base))
  {
    var sizes, n := Sizes(p.items, base), p.next - base;
    assert ans == ans[..k] + ans[k..];
    StoredBlocksHaveNoError(ans[..k], sizes, n, ans[k..]);
    if p.next < |p.items| {
      assert sizes[n..][0] == |p.items[p.next].src|;
    }
  }

  /** In every run, a store batch that has ended ends with the error of the first of its calls that failed, or 0. */
  lemma {:induction false} StoreEndsWithFirstError(cfg: Config, w: World, acts: seq<Action>, pid: Pid)
    requires Run(cfg, w, acts) && pid !in w.procs
    requires var w' := After(cfg, w, acts); pid in w'.procs && w'.procs[pid].Storer? && w'.procs[pid].spc.StoreEnd?
    ensures var p := After(cfg, w, acts).procs[pid]; p.spc.result == BatchError(Answers(pid, acts), Sizes(p.items, 0))
    decreases |acts|
  {
    var w1 := Apply(cfg, w, acts[0]);
    assert Answers(pid, acts) == Answers(pid, acts[1..]);
    if pid in w1.procs {
      var p := w1.procs[pid];
      if p.Storer? {
        StartExplained(p.items);
        var k := RunExplained(cfg, w1, acts[1..], pid, 0, [], 0);
        assert [] + Answers(pid, acts) == Answers(pid, acts);
        ExplainedError(After(cfg, w, acts).procs[pid], 0, Answers(pid, acts), k);
      } else {
        KindStays(cfg, w1, acts[1..], pid);
      }
    } else {
      StoreEndsWithFirstError(cfg, w1, acts[1..], pid);
    }
  }

  /** A process never takes up another kind of batch. */
  lemma {:induction false} KindStays(cfg: Config, w: World, acts: seq<Action>, pid: Pid)
    requires Run(cfg, w, acts) && pid in w.procs
    ensures pid in After(cfg, w, acts).procs
    ensures var p, p' := w.procs[pid], After(cfg, w, acts).procs[pid];
      (p'.Storer? ==> p.Storer?) && (p'.Loader? ==> p.Loader?)
    decreases |acts|
  {
    if acts != [] {
      KindStays(cfg, Apply(cfg, w, acts[0]), acts[1..], pid);
    }
  }

  /** What a store returns, by the answers it had. */
  ghost predicate StoreVerdict(ans: seq<Answer>, size: nat, err: int) {
    if err == 0 then Stored(ans, size) else NotStored(ans, size, err)
  }

  /** A process that began with a block and has just returned from it. */
  lemma BlockOutcome(cfg: Config, w: World, acts: seq<Action>, pid: Pid, err: int)
    requires Run(cfg, w, acts) && pid in w.procs
    requires var p := w.procs[pid]; p.Storer? && p.next < |p.items| && p.spc == StorePc.Access
    requires var w' := After(cfg, w, acts); pid in w'.procs && w'.procs[pid] == StoreReturns(w.procs[pid], err)
    ensures StoreVerdict(Answers(pid, acts), |w.procs[pid].items[w.procs[pid].next].src|, err)
  {
    var p, ans := w.procs[pid], Answers(pid, acts);
    var k := RunExplained(cfg, w, acts, pid, p.next, [], 0);
    assert [] + ans == ans;
    StoreReturned(p, ans, k, err);
  }

  lemma StoreReturned(p: Proc, ans: seq<Answer>, k: nat, err: int)
    requires p.Storer? && p.next < |p.items| && Explained(StoreReturns(p, err), p.next, ans, k)
    ensures StoreVerdict(ans, |p.items[p.next].src|, err)
  {
    if err == 0 {
      assert ans[..k] == ans;
      assert StoredAll(ans, Sizes(p.items, p.next), 1);
      var n := if ans[0].Ok? then 1 else 6;
      assert ans[n..] == [] && ans[..n] == ans;
    } else {
      assert ans[..k] == [] && ans[k..] == ans;
    }
  }

  /** A batch that has ended since its start. */
  lemma EndOfStore(cfg: Config, w: World, acts: seq<Action>, pid: Pid, items: seq<StoreItem>)
    requires Run(cfg, w, acts) && pid in w.procs && w.procs[pid] == StartStore(items)
    requires var w' := After(cfg, w, acts);
      pid in w'.procs && w'.procs[pid].Storer? && w'.procs[pid].items == items && w'.procs[pid].spc.StoreEnd?
    ensures After(cfg, w, acts).procs[pid].spc.result == BatchError(Answers(pid, acts), Sizes(items, 0))
  {
    StartExplained(items);
    var k := RunExplained(cfg, w, acts, pid, 0, [], 0);
    assert [] + Answers(pid, acts) == Answers(pid, acts);
    ExplainedError(After(cfg, w, acts).procs[pid], 0, Answers(pid, acts), k);
  }

  // -------------------------------------------------------- the error of a load

  /** The error of a load: that of its open or read, or EIO if the buffer is larger than the block. */
  function LoadError(ans: seq<Answer>, fits: bool): int {
    if |ans| >= 1 && ans[0].Fails? then ans[0].errno
    else if |ans| >= 2 && ans[1].Spoils? then ans[1].errno
    else if fits then 0 else EIO
  }

  /** A block was loaded: open and read succeeded and the buffer was no larger than the block. */
  ghost predicate WasLoaded(ans: seq<Answer>, fits: bool) {
    |ans| == 3 && ans[0].Ok? && ans[1].Ok? && fits
  }

  /** A load failed with `e`. */
  ghost predicate NotLoaded(ans: seq<Answer>, fits: bool, e: int) {
    && ans != [] && (ans[0].Fails? || (|ans| >= 2 && ans[0].Ok? && (ans[1].Ok? || ans[1].Spoils?)))
    && LoadError(ans, fits) == e && e != 0
  }

  ghost predicate LoadedAll(ans: seq<Answer>, fits: seq<bool>, n: nat)
    requires n <= |fits|
    decreases n
  {
    if n == 0 then ans == []
    else 3 <= |ans| && WasLoaded(ans[..3], fits[0]) && LoadedAll(ans[3..], fits[1..], n - 1)
  }

  ghost function LoadBatchError(ans: seq<Answer>, fits: seq<bool>): int
    decreases |fits|
  {
    if ans == [] || fits == [] then 0
    else if LoadError(ans, fits[0]) != 0 then LoadError(ans, fits[0])
    else if |ans| < 3 then 0 else LoadBatchError(ans[3..], fits[1..])
  }

  lemma {:induction false} LoadedOneMore(ans: seq<Answer>, fits: seq<bool>, n: nat, b: seq<Answer>)
    requires n < |fits| && LoadedAll(ans, fits, n) && WasLoaded(b, fits[n])
    ensures LoadedAll(ans + b, fits, n + 1)
    decreases n
  {
    if n == 0 {
      assert ans + b == b && b[..3] == b && b[3..] == [];
    } else {
      assert (ans + b)[..3] == ans[..3] && (ans + b)[3..] == ans[3..] + b;
      LoadedOneMore(ans[3..], fits[1..], n - 1, b);
    }
  }

  lemma {:induction false} LoadedBlocksHaveNoError(ans: seq<Answer>, fits: seq<bool>, n: nat, more: seq<Answer>)
    requires n <= |fits| && LoadedAll(ans, fits, n)
    ensures LoadBatchError(ans + more, fits) == LoadBatchError(more, fits[n..])
    decreases n
  {
    if n == 0 {
      assert ans + more == more && fits[0..] == fits;
    } else {
      assert (ans + more)[3..] == ans[3..] + more && fits[1..][n - 1..] == fits[n..];
      assert ans[..3][0] == (ans + more)[0] && ans[..3][1] == (ans + more)[1];
      LoadedBlocksHaveNoError(ans[3..], fits[1..], n - 1, more);
    }
  }

  // -------------------------------------------------------- a load in progress

  predicate FitsAt(cfg: Config, paths: seq<Path>, entry: seq<Buffer>, j: nat)
    requires j < |paths| == |entry|
  { paths[j] in cfg.blocks && |entry[j]| <= |cfg.blocks[paths[j]]| }

  /** Which of the buffers are no larger than their block, from `base` on. */
  function FitsFrom(cfg: Config, paths: seq<Path>, entry: seq<Buffer>, base: nat): (r: seq<bool>)
    requires base <= |paths| == |entry|
    ensures |r| == |paths| - base
  { seq(|paths| - base, j requires 0 <= j < |paths| - base => FitsAt(cfg, paths, entry, base + j)) }

  /** The answers to the block being loaded, at each system call. */
  ghost predicate LoadedUpTo(p: Proc, ans: seq<Answer>, fits: bool)
    requires p.Loader?
  {
    match p.lpc
    case OpenSource => ans == []
    case Read(_) => ans == [Ok]
    case CloseAfterReadError(e) => |ans| == 2 && NotLoaded(ans, fits, e) && ans[1].Spoils?
    case CloseAfterShortRead => ans == [Ok, Ok] && !fits
    case UnlinkShort => |ans| == 3 && ans[..2] == [Ok, Ok] && !fits
    case CloseLoaded => ans == [Ok, Ok] && fits
    case LoadEnd(e) => NotLoaded(ans, fits, e)
  }

  ghost predicate LoadExplained(cfg: Config, p: Proc, base: nat, ans: seq<Answer>, k: nat) {
    && p.Loader? && |p.entry| == |p.paths| && base <= p.next <= |p.paths| && k <= |ans|
    && LoadedAll(ans[..k], FitsFrom(cfg, p.paths, p.entry, base), p.next - base)
    && (if p.next == |p.paths| then k == |ans| && p.lpc == LoadEnd(0)
        else LoadedUpTo(p, ans[k..], FitsAt(cfg, p.paths, p.entry, p.next)))
  }

  lemma OneLoadAnswer(cfg: Config, fs: Fs, p: Proc, ans: seq<Answer>, a: Answer)
    requires p.Loader? && LoaderOk(cfg, fs, p) && LoadAnswer(fs, p, a) && LoadedUpTo(p, ans, FitsAt(cfg, p.paths, p.entry, p.next))
    ensures var p', fits := LoadNext(fs, p, a), FitsAt(cfg, p.paths, p.entry, p.next);
      && p'.paths == p.paths && p'.entry == p.entry
      && (p'.next == p.next ==> LoadedUpTo(p', ans + [a], fits))
      && (p'.next != p.next ==> p'.next == p.next + 1 && WasLoaded(ans + [a], fits))
      && (p'.next != p.next ==> p'.lpc == if p'.next == |p.paths| then LoadEnd(0) else OpenSource)
  {
    var all := ans + [a];
    assert ans == [] ==> all == [a];
    assert ans == [Ok] ==> all == [Ok, a];
    assert |ans| >= 2 ==> all[..2] == ans[..2] && all[0] == ans[0] && all[1] == ans[1];
  }

  lemma LoadStepExplained(cfg: Config, fs: Fs, p: Proc, base: nat, ans: seq<Answer>, k: nat, a: Answer) returns (k': nat)
    requires LoadExplained(cfg, p, base, ans, k) && LoaderOk(cfg, fs, p) && LoadAnswer(fs, p, a)
    ensures LoadExplained(cfg, LoadNext(fs, p, a), base, ans + [a], k')
  {
    var p', all, work := LoadNext(fs, p, a), ans + [a], ans[k..];
    OneLoadAnswer(cfg, fs, p, work, a);
    if p'.next == p.next {
      k' := k;
      assert all[..k] == ans[..k] && all[k..] == work + [a];
    } else {
      k' := |all|;
      LoadedOneMore(ans[..k], FitsFrom(cfg, p.paths, p.entry, base), p.next - base, work + [a]);
      assert all[..k'] == ans[..k] + (work + [a]) && all[k'..] == [];
    }
  }

  /** A load that lives to the end of a run is explained by the answers it has had. */
  lemma {:induction false} LoadRunExplained(cfg: Config, w: World, acts: seq<Action>, pid: Pid, base: nat, past: seq<Answer>, k: nat)
    returns (k': nat)
    requires Inv(cfg, w) && Run(cfg, w, acts) && pid in w.procs && LoadExplained(cfg, w.procs[pid], base, past, k)
    ensures pid in After(cfg, w, acts).procs
    ensures var p := After(cfg, w, acts).procs[pid]; p.Dead? || LoadExplained(cfg, p, base, past + Answers(pid, acts), k')
    decreases |acts|
  {
    if acts == [] {
      k' := k;
      assert past + [] == past;
    } else {
      var w1, rest := Apply(cfg, w, acts[0]), Answers(pid, acts[1..]);
      StepKeepsInv(cfg, w, acts[0]);
      if acts[0] == Die(pid) {
        DeadStaysDead(cfg, w1, acts[1..], pid);
        k' := 0;
      } else if acts[0].pid == pid {
        var a := acts[0].answer;
        assert ProcOk(cfg, w.fs, w.procs[pid]);
        var k1 := LoadStepExplained(cfg, w.fs, w.procs[pid], base, past, k, a);
        k' := LoadRunExplained(cfg, w1, acts[1..], pid, base, past + [a], k1);
        Regroup(past, [a], rest);
      } else {
        k' := LoadRunExplained(cfg, w1, acts[1..], pid, base, past, k);
        assert Answers(pid, acts) == rest;
      }
    }
  }

  lemma LoadExplainedError(cfg: Config, p: Proc, base: nat, ans: seq<Answer>, k: nat)
    requires LoadExplained(cfg, p, base, ans, k) && p.lpc.LoadEnd?
    ensures p.lpc.result == LoadBatchError(ans, FitsFrom(cfg, p.paths, p.entry, base))
  {
    var fits, n := FitsFrom(cfg, p.paths, p.entry, base), p.next - base;
    assert ans == ans[..k] + ans[k..];
    LoadedBlocksHaveNoError(ans[..k], fits, n, ans[k..]);
    if p.next < |p.paths| {
      assert fits[n..][0] == FitsAt(cfg, p.paths, p.entry, p.next);
    }
  }

  /**
   In every run, a load batch that has ended ends with the error of the first open or read that failed, with EIO at the
   first buffer that is larger than its block, or with 0.
   */
  lemma {:induction false} LoadEndsWithFirstError(cfg: Config, w: World, acts: seq<Action>, pid: Pid)
    requires Inv(cfg, w) && Run(cfg, w, acts) && pid !in w.procs
    requires var w' := After(cfg, w, acts); pid in w'.procs && w'.procs[pid].Loader? && w'.procs[pid].lpc.LoadEnd?
    ensures var p := After(cfg, w, acts).procs[pid];
      |p.entry| == |p.paths| && p.lpc.result == LoadBatchError(Answers(pid, acts), FitsFrom(cfg, p.paths, p.entry, 0))
    decreases |acts|
  {
    var w1 := Apply(cfg, w, acts[0]);
    StepKeepsInv(cfg, w, acts[0]);
    assert Answers(pid, acts) == Answers(pid, acts[1..]);
    if pid in w1.procs {
      var p := w1.procs[pid];
      if p.Loader? {
        assert LoadExplained(cfg, p, 0, [], 0);
        var k := LoadRunExplained(cfg, w1, acts[1..], pid, 0, [], 0);
        assert [] + Answers(pid, acts[1..]) == Answers(pid, acts[1..]);
        LoadExplainedError(cfg, After(cfg, w, acts).procs[pid], 0, Answers(pid, acts), k);
      } else {
        KindStays(cfg, w1, acts[1..], pid);
      }
    } else {
      LoadEndsWithFirstError(cfg, w1, acts[1..], pid);
    }
  }

  /** What a load returns, by the answers it had. */
  ghost predicate LoadVerdict(ans: seq<Answer>, fits: bool, err: int) {
    if err == 0 then WasLoaded(ans, fits) else NotLoaded(ans, fits, err)
  }

  lemma LoadOutcome(cfg: Config, w: World, acts: seq<Action>, pid: Pid, bufs: seq<Buffer>, err: int)
    requires Inv(cfg, w) && Run(cfg, w, acts) && pid in w.procs
    requires var p := w.procs[pid]; p.Loader? && |p.entry| == |p.paths| && p.next < |p.paths| && p.lpc == OpenSource
    requires var w' := After(cfg, w, acts); pid in w'.procs && w'.procs[pid] == LoadReturns(w.procs[pid].(bufs := bufs), err)
    ensures var p := w.procs[pid]; LoadVerdict(Answers(pid, acts), FitsAt(cfg, p.paths, p.entry, p.next), err)
  {
    var p, ans := w.procs[pid], Answers(pid, acts);
    var k := LoadRunExplained(cfg, w, acts, pid, p.next, [], 0);
    assert [] + ans == ans;
    LoadReturned(cfg, p.(bufs := bufs), ans, k, err);
  }

  lemma LoadReturned(cfg: Config, p: Proc, ans: seq<Answer>, k: nat, err: int)
    requires p.Loader? && |p.entry| == |p.paths| && p.next < |p.paths|
    requires LoadExplained(cfg, LoadReturns(p, err), p.next, ans, k)
    ensures LoadVerdict(ans, FitsAt(cfg, p.paths, p.entry, p.next), err)
  {
    if err == 0 {
      assert ans[..k] == ans;
      assert LoadedAll(ans, FitsFrom(cfg, p.paths, p.entry, p.next), 1);
      assert ans[3..] == [] && ans[..3] == ans;
    } else {
      assert ans[..k] == [] && ans[k..] == ans;
    }
  }

  lemma EndOfLoad(cfg: Config, w: World, acts: seq<Action>, pid: Pid, paths: seq<Path>, entry: seq<Buffer>)
    requires Inv(cfg, w) && Run(cfg, w, acts) && pid in w.procs && w.procs[pid] == StartLoad(paths, entry) && |entry| == |paths|
    requires var w' := After(cfg, w, acts); pid in w'.procs && w'.procs[pid].Loader? && w'.procs[pid].lpc.LoadEnd?
    requires var p := After(cfg, w, acts).procs[pid]; p.paths == paths && p.entry == entry
    ensures After(cfg, w, acts).procs[pid].lpc.result == LoadBatchError(Answers(pid, acts), FitsFrom(cfg, paths, entry, 0))
  {
    var k := LoadRunExplained(cfg, w, acts, pid, 0, [], 0);
    assert [] + Answers(pid, acts) == Answers(pid, acts);
    LoadExplainedError(cfg, After(cfg, w, acts).procs[pid], 0, Answers(pid, acts), k);
  }

  // ---------------------------------------------------------- runs that succeed

  lemma OneMore(cfg: Config, w: World, acts: seq<Action>, act: Action)
    requires Run(cfg, w, acts) && Allowed(cfg, After(cfg, w, acts), act)
    ensures Run(cfg, w, acts + [act]) && After(cfg, w, acts + [act]) == Apply(cfg, After(cfg, w, acts), act)
  {
    var mid := After(cfg, w, acts);
    assert [act][1..] == [] && Run(cfg, Apply(cfg, mid, act), []);
    assert Run(cfg, mid, [act]) && After(cfg, mid, [act]) == Apply(cfg, mid, act);
    RunJoins(cfg, w, acts, [act]);
  }

  /** A store of one block in which every call after the access(2) succeeds. */
  function GoodStore(pid: Pid, it: StoreItem, ino: Inode): seq<Action> {
    [Spawn(pid, StartStore([it])), Call(pid, Fails(ENOENT)), Call(pid, Ok), Call(pid, Created(ino)),
     Call(pid, Transferred(|it.src|)), Call(pid, Ok), Call(pid, Ok)]
  }

  /** Such a store is possible whenever the block is absent and the temp name free, and it publishes the block. */
  lemma GoodStoreSucceeds(cfg: Config, w: World, pid: Pid, it: StoreItem, ino: Inode)
    requires Inv(cfg, w) && pid !in w.procs && it.dest in cfg.blocks && it.src == cfg.blocks[it.dest] && it.tmp !in cfg.blocks
    requires it.dest !in w.fs.dir && it.tmp !in w.fs.dir && ino !in w.fs.data
    ensures Run(cfg, w, GoodStore(pid, it, ino))
    ensures var w' := After(cfg, w, GoodStore(pid, it, ino));
      && it.dest in w'.fs.dir && w'.fs.dir[it.dest] in w'.fs.data && w'.fs.data[w'.fs.dir[it.dest]] == cfg.blocks[it.dest]
      && it.tmp !in w'.fs.dir && (forall d :: d in w.fs.dir ==> d in w'.fs.dir && w'.fs.dir[d] == w.fs.dir[d])
      && pid in w'.procs && w'.procs[pid] == Storer([it], 1, StoreEnd(0))
  {
    var all := GoodStore(pid, it, ino);
    var w1 := GoodStoreCloses(cfg, w, pid, it, ino);
    assert all == all[..6] + [all[6]];
    OneMore(cfg, w, all[..6], all[6]);
  }

  lemma GoodStoreCloses(cfg: Config, w: World, pid: Pid, it: StoreItem, ino: Inode) returns (w': World)
    requires pid !in w.procs && it.dest in cfg.blocks && it.src == cfg.blocks[it.dest] && it.tmp !in cfg.blocks
    requires it.dest !in w.fs.dir && it.tmp !in w.fs.dir && ino !in w.fs.data
    ensures var acts := GoodStore(pid, it, ino)[..6]; Run(cfg, w, acts) && w' == After(cfg, w, acts)
    ensures w'.fs == WriteFile(CreateFile(w.fs, it.tmp, ino), ino, it.src) && w'.procs == w.procs[pid := Storer([it], 0, Rename)]
  {
    var all := GoodStore(pid, it, ino);
    var w1 := GoodStoreOpens(cfg, w, pid, it, ino);
    var a4, a5, a6 := all[..4], all[..5], all[..6];
    assert a5 == a4 + [all[4]] && a6 == a5 + [all[5]];
    OneMore(cfg, w, a4, all[4]);
    assert it.src[..|it.src|] == it.src;
    OneMore(cfg, w, a5, all[5]);
    w' := After(cfg, w, a6);
  }

  lemma GoodStoreOpens(cfg: Config, w: World, pid: Pid, it: StoreItem, ino: Inode) returns (w': World)
    requires pid !in w.procs && it.dest in cfg.blocks && it.src == cfg.blocks[it.dest] && it.tmp !in cfg.blocks
    requires it.dest !in w.fs.dir && it.tmp !in w.fs.dir && ino !in w.fs.data
    ensures var acts := GoodStore(pid, it, ino)[..4]; Run(cfg, w, acts) && w' == After(cfg, w, acts)
    ensures w'.fs == CreateFile(w.fs, it.tmp, ino) && w'.procs == w.procs[pid := Storer([it], 0, Write(ino))]
  {
    var all := GoodStore(pid, it, ino);
    var a0, a1, a2, a3, a4 := all[..0], all[..1], all[..2], all[..3], all[..4];
    assert a1 == a0 + [all[0]] && a2 == a1 + [all[1]] && a3 == a2 + [all[2]] && a4 == a3 + [all[3]];
    OneMore(cfg, w, a0, all[0]);
    OneMore(cfg, w, a1, all[1]);
    OneMore(cfg, w, a2, all[2]);
    OneMore(cfg, w, a3, all[3]);
    w' := After(cfg, w, a4);
  }

  /** A load of one block in which every call succeeds. */
  function GoodLoad(pid: Pid, d: Path, entry: Buffer): seq<Action> {
    [Spawn(pid, StartLoad([d], [entry])), Call(pid, Ok), Call(pid, Ok), Call(pid, Ok)]
  }

  /** Such a load is possible whenever the block is present, and with a fitting buffer it ends with the block in it. */
  lemma GoodLoadSucceeds(cfg: Config, w: World, pid: Pid, d: Path, entry: Buffer)
    requires Inv(cfg, w) && pid !in w.procs && d in cfg.blocks && d in w.fs.dir && |entry| <= |cfg.blocks[d]|
    ensures Run(cfg, w, GoodLoad(pid, d, entry))
    ensures var w' := After(cfg, w, GoodLoad(pid, d, entry));
      && w'.fs == w.fs && pid in w'.procs
      && w'.procs[pid] == Loader([d], [entry], [cfg.blocks[d][..|entry|]], 1, LoadEnd(0))
  {
    var all := GoodLoad(pid, d, entry);
    var a0, a1, a2, a3, a4 := all[..0], all[..1], all[..2], all[..3], all[..4];
    assert a1 == a0 + [all[0]] && a2 == a1 + [all[1]] && a3 == a2 + [all[2]] && a4 == a3 + [all[3]] && a4 == all;
    OneMore(cfg, w, a0, all[0]);
    OneMore(cfg, w, a1, all[1]);
    OneMore(cfg, w, a2, all[2]);
    assert Filled(entry, cfg.blocks[d]) == cfg.blocks[d][..|entry|];
    OneMore(cfg, w, a3, all[3]);
  }
}
