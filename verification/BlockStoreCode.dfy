/**
 The code of the block store, as it is written: `StoreBlock`, `LoadBlock` and the
 three batch loops, run by one process of the machine of module BlockStore.

 Every system call takes one step of that machine and then lets the other
 processes run.  Each method returns, as a ghost, the actions that were taken from
 its start to its end, so that its contract can say which run of the machine the
 code has followed.
 */
module BlockStoreCode {
  import opened Arithmetic
  import opened Bytes
  import opened BlockStore
  import opened BlockStoreOutcome

  /** The answer behind a return code. */
  function Outcome(rc: int): Answer { if rc == 0 then Ok else Fails(rc) }

  /** From `w` on, with buffers that fit, no path ever present is answered with file-not-found. */
  ghost predicate NoFalseMiss(cfg: Config, w: World, pid: Pid, paths: seq<Path>, ev: seq<Action>) {
    NothingLost(cfg, w) && AllFit(cfg, ev) ==>
      forall j :: 0 <= j < |paths| && j < |Answers(pid, ev)| && paths[j] in w.fs.seen ==> Answers(pid, ev)[j] != Fails(ENOENT)
  }

  lemma OneMoreLookup(cfg: Config, w: World, pid: Pid, paths: seq<Path>, ev: seq<Action>, e: seq<Action>, a: Answer)
    requires Inv(cfg, w) && Run(cfg, w, ev) && NoFalseMiss(cfg, w, pid, paths, ev)
    requires |Answers(pid, ev)| < |paths| && Answers(pid, e) == [a]
    requires paths[|Answers(pid, ev)|] in cfg.blocks
    requires a == Fails(ENOENT) ==> paths[|Answers(pid, ev)|] !in After(cfg, w, ev).fs.dir
    ensures NoFalseMiss(cfg, w, pid, paths, ev + e)
    ensures Answers(pid, ev + e) == Answers(pid, ev) + [a]
  {
    AnswersJoin(pid, ev, e);
    if NothingLost(cfg, w) && AllFit(cfg, ev + e) {
      assert AllFit(cfg, ev) by {
        assert (ev + e)[..|ev|] == ev;
      }
      RunLosesNothing(cfg, w, ev);
    }
  }

  class Kernel {
    const cfg: Config
    const pid: Pid
    var world: World

    ghost predicate Valid()
      reads this
    {
      Inv(cfg, world) && pid in world.procs
    }

    /** Where this process stands in the machine. */
    ghost function Me(): Proc
      requires pid in world.procs
      reads this
    {
      world.procs[pid]
    }

    ghost predicate AtStore(pc: StorePc)
      reads this
    {
      Valid() && Me().Storer? && Me().next < |Me().items| && Me().spc == pc
    }

    ghost predicate AtLoad(pc: LoadPc)
      reads this
    {
      Valid() && Me().Loader? && Me().next < |Me().paths| && Me().lpc == pc
    }

    ghost predicate AtLookup()
      reads this
    {
      Valid() && Me().Looker? && |Me().flags| < |Me().paths|
    }

    /** From `w` the machine took the actions `ev`, which led to the present world; history only grew. */
    ghost predicate Ran(w: World, ev: seq<Action>)
      reads this
    {
      && Valid() && Run(cfg, w, ev) && world == After(cfg, w, ev)
      && w.fs.seen <= world.fs.seen && w.renamed <= world.renamed
    }

    /** Other processes make any number of calls. */
    method Interfere() returns (ghost ev: seq<Action>)
      requires Valid()
      modifies this`world
      ensures Ran(old(world), ev) && Others(pid, ev)
      ensures Me() == old(Me())
    {
      var acts: seq<Action> := *;
      ev := [];
      if Run(cfg, world, acts) && Others(pid, acts) {
        OthersKeep(cfg, world, acts, pid);
        world := After(cfg, world, acts);
        ev := acts;
      }
    }

    /** This process's next system call is answered `a`; then other processes run. */
    method SystemCall(a: Answer) returns (ghost ev: seq<Action>)
      requires Valid() && Allowed(cfg, world, Call(pid, a))
      modifies this`world
      ensures Ran(old(world), ev) && Answers(pid, ev) == [a]
      ensures Me() == Apply(cfg, old(world), Call(pid, a)).procs[pid]
      ensures Apply(cfg, old(world), Call(pid, a)).renamed <= world.renamed
    {
      ghost var w := world;
      StepKeepsInv(cfg, w, Call(pid, a));
      world := Apply(cfg, world, Call(pid, a));
      ghost var mid := world;
      ghost var more := Interfere();
      ev := [Call(pid, a)] + more;
      assert ev[1..] == more;
      OthersAreNotAnswered(pid, more);
    }

    method AnyErrno() returns (e: int)
      ensures e != 0 && e != ENOENT
    {
      e := *;
      if e == 0 || e == ENOENT {
        e := EIO;
      }
    }

    /** access(2), for a store or for a lookup: file-not-found is said only of an absent path. */
    method Access(path: Path) returns (rc: int, ghost ev: seq<Action>)
      requires AtStore(StorePc.Access) || AtLookup()
      requires path == if Me().Storer? then Me().items[Me().next].dest else Me().paths[|Me().flags|]
      modifies this`world
      ensures Ran(old(world), ev) && Answers(pid, ev) == [Outcome(rc)]
      ensures old(Me()).Storer? ==> Me() == if rc == 0 then StoreReturns(old(Me()), 0) else old(Me()).(spc := MakeDirs)
      ensures old(Me()).Looker? ==> Me() == LookNext(old(Me()), Outcome(rc))
      ensures rc == ENOENT ==> path !in old(world.fs.dir)
    {
      var lucky: bool := *;
      rc := AnyErrno();
      if path !in world.fs.dir {
        rc := if lucky then ENOENT else rc;
      } else if lucky {
        rc := 0;
      }
      ev := SystemCall(Outcome(rc));
    }

    method EnsureParentDirs(path: Path) returns (rc: int, ghost ev: seq<Action>)
      requires AtStore(MakeDirs) && path == Me().items[Me().next].dest
      modifies this`world
      ensures Ran(old(world), ev)
      ensures Me() == if rc != 0 then StoreReturns(old(Me()), rc) else old(Me()).(spc := OpenTmp)
    {
      rc := *;
      ev := SystemCall(Outcome(rc));
    }

    /** open(O_CREAT | O_EXCL | O_WRONLY): a negative descriptor means failure with `errno`. */
    method OpenExclusive(path: Path) returns (fd: int, errno: int, ghost ev: seq<Action>)
      requires AtStore(OpenTmp) && path == Me().items[Me().next].tmp
      modifies this`world
      ensures Ran(old(world), ev)
      ensures fd < 0 ==> errno != 0 && Me() == StoreReturns(old(Me()), errno)
      ensures fd >= 0 ==> Me() == old(Me()).(spc := Write(fd))
    {
      fd, errno := *, EEXIST;
      if fd < 0 || path in world.fs.dir || fd in world.fs.data {
        fd := -1;
        errno := if path in world.fs.dir then EEXIST else EIO;
        ev := SystemCall(Fails(errno));
      } else {
        ev := SystemCall(Created(fd));
      }
    }

    /** write(2): a negative count means failure with `errno`; the file may hold anything then. */
    method WriteFd(fd: nat, src: Buffer) returns (written: int, errno: int, ghost ev: seq<Action>)
      requires AtStore(Write(fd)) && src == Me().items[Me().next].src
      modifies this`world
      ensures Ran(old(world), ev)
      ensures written < 0 ==> errno != 0 && Me() == old(Me()).(spc := CloseAfterError(errno))
      ensures 0 <= written < |src| ==> Me() == old(Me()).(spc := CloseAfterError(EIO))
      ensures written >= |src| ==> written == |src| && Me() == old(Me()).(spc := CloseTmp)
    {
      written := *;
      errno := AnyErrno();
      if 0 <= written <= |src| {
        ev := SystemCall(Transferred(written));
      } else {
        written := -1;
        var g: Buffer := *;
        ev := SystemCall(Spoils(errno, g));
      }
    }

    /** close(2) of the temp file. */
    method CloseWritten() returns (rc: int, ghost ev: seq<Action>)
      requires AtStore(CloseTmp) || (Valid() && Me().Storer? && Me().spc.CloseAfterError? && AtStore(Me().spc))
      modifies this`world
      ensures Ran(old(world), ev)
      ensures Me() == old(Me()).(spc := if old(Me()).spc.CloseAfterError? then UnlinkTmp(old(Me()).spc.err)
                                        else if rc != 0 then UnlinkTmp(rc) else Rename)
    {
      rc := *;
      ev := SystemCall(Outcome(rc));
    }

    /** unlink(2) of the temp file; its result is ignored by the code. */
    method UnlinkTemp(path: Path, ghost err: int) returns (ghost ev: seq<Action>)
      requires AtStore(UnlinkTmp(err)) && path == Me().items[Me().next].tmp
      modifies this`world
      ensures Ran(old(world), ev)
      ensures Me() == StoreReturns(old(Me()), err)
    {
      var lucky: bool := *;
      assert ProcOk(cfg, world.fs, Me());
      ev := SystemCall(if lucky then Ok else Fails(EIO));
    }

    method RenameTemp(tmp: Path, dest: Path) returns (rc: int, ghost ev: seq<Action>)
      requires AtStore(Rename) && tmp == Me().items[Me().next].tmp && dest == Me().items[Me().next].dest
      modifies this`world
      ensures Ran(old(world), ev)
      ensures Me() == if rc != 0 then old(Me()).(spc := UnlinkTmp(rc)) else StoreReturns(old(Me()), 0)
      ensures rc == 0 ==> (pid, dest) in world.renamed
    {
      rc := *;
      assert ProcOk(cfg, world.fs, Me());
      ev := SystemCall(Outcome(rc));
    }

    /** After the write: the error paths of `_store_block`, which keep the first error, and the publication. */
    method WriteAndPublish(tmp: Path, dest: Path, src: Buffer, fd: nat) returns (err: int, ghost ev: seq<Action>)
      requires AtStore(Write(fd)) && Me().items[Me().next] == StoreItem(tmp, dest, src)
      modifies this`world
      ensures Ran(old(world), ev)
      ensures Me() == StoreReturns(old(Me()), err)
      ensures err == 0 ==> (pid, dest) in world.renamed
    {
      ghost var w := world;
      var written, writeErrno;
      written, writeErrno, ev := WriteFd(fd, src);
      // Every path closes the descriptor here.
      var rc, e := CloseWritten();
      RunJoins(cfg, w, ev, e);
      ev := ev + e;
      if written < 0 || written != |src| {
        err := if written < 0 then writeErrno else EIO;
        e := UnlinkTemp(tmp, err);
        RunJoins(cfg, w, ev, e);
        return err, ev + e;
      }
      if rc != 0 {
        e := UnlinkTemp(tmp, rc);
        RunJoins(cfg, w, ev, e);
        return rc, ev + e;
      }
      rc, e := RenameTemp(tmp, dest);
      RunJoins(cfg, w, ev, e);
      ev := ev + e;
      if rc != 0 {
        e := UnlinkTemp(tmp, rc);
        RunJoins(cfg, w, ev, e);
        return rc, ev + e;
      }
      return 0, ev;
    }

    /** The calls of `_store_block`. */
    method StoreSteps(tmp: Path, dest: Path, src: Buffer) returns (err: int, ghost ev: seq<Action>)
      requires AtStore(StorePc.Access) && Me().items[Me().next] == StoreItem(tmp, dest, src)
      modifies this`world
      ensures Ran(old(world), ev)
      ensures Me() == StoreReturns(old(Me()), err)
      ensures err == 0 ==> Answers(pid, ev) == [Ok] || (pid, dest) in world.renamed
    {
      ghost var w := world;
      var rc;
      rc, ev := Access(dest);
      if rc == 0 {
        return 0, ev;
      }
      ghost var e: seq<Action>;
      rc, e := EnsureParentDirs(dest);
      RunJoins(cfg, w, ev, e);
      ev := ev + e;
      if rc != 0 {
        return rc, ev;
      }
      var fd, openErrno;
      fd, openErrno, e := OpenExclusive(tmp);
      RunJoins(cfg, w, ev, e);
      ev := ev + e;
      if fd < 0 {
        return openErrno, ev;
      }
      err, e := WriteAndPublish(tmp, dest, src, fd);
      RunJoins(cfg, w, ev, e);
      ev := ev + e;
    }

    /**
     `_store_block`: whatever others do in between, the code follows a run of the machine and returns what it returns.
     It fails with the error of the first call that failed after access(2), and returns 0 if none did: then the block was
     there already or has been published.
     */
    method StoreBlock(tmp: Path, dest: Path, src: Buffer) returns (err: int, ghost ev: seq<Action>)
      requires AtStore(StorePc.Access) && Me().items[Me().next] == StoreItem(tmp, dest, src)
      modifies this`world
      ensures Ran(old(world), ev)
      ensures Me() == StoreReturns(old(Me()), err)
      ensures StoreVerdict(Answers(pid, ev), |src|, err)
      ensures err == 0 ==> Answers(pid, ev) == [Ok] || (pid, dest) in world.renamed
    {
      ghost var w := world;
      err, ev := StoreSteps(tmp, dest, src);
      BlockOutcome(cfg, w, ev, pid, err);
    }

    /** open(O_RDONLY). */
    method OpenRead(path: Path) returns (fd: int, errno: int, ghost ev: seq<Action>)
      requires AtLoad(OpenSource) && path == Me().paths[Me().next]
      modifies this`world
      ensures Ran(old(world), ev)
      ensures fd < 0 ==> errno != 0 && Me() == LoadReturns(old(Me()), errno)
      ensures fd >= 0 ==> Me() == old(Me()).(lpc := Read(fd))
    {
      var lucky: bool := *;
      assert ProcOk(cfg, world.fs, Me());
      fd, errno := -1, ENOENT;
      if path in world.fs.dir {
        errno := AnyErrno();
        if lucky {
          fd := world.fs.dir[path];
          ev := SystemCall(Ok);
          return;
        }
      }
      ev := SystemCall(Fails(errno));
    }

    /** read(2) into a buffer: an error, or as many bytes as the file and the buffer allow. */
    method ReadFd(fd: nat, buf: Buffer) returns (got: int, errno: int, filled: Buffer, ghost ev: seq<Action>)
      requires AtLoad(Read(fd)) && Me().next < |Me().bufs| && buf == Me().bufs[Me().next]
      modifies this`world
      ensures Ran(old(world), ev)
      ensures |filled| == |buf|
      ensures got < 0 ==> errno != 0
      ensures got < 0 ==>
        Me() == old(Me()).(bufs := old(Me()).bufs[old(Me()).next := filled], lpc := CloseAfterReadError(errno))
      ensures got >= 0 ==>
        Me() == old(Me()).(bufs := old(Me()).bufs[old(Me()).next := filled],
                           lpc := if got < |buf| then CloseAfterShortRead else CloseLoaded)
    {
      var lucky: bool := *;
      assert ProcOk(cfg, world.fs, Me());
      errno := AnyErrno();
      if lucky {
        got := Min(|buf|, |world.fs.data[fd]|);
        filled := Filled(buf, world.fs.data[fd]);
        ev := SystemCall(Ok);
      } else {
        got := -1;
        filled := *;
        filled := if |filled| == |buf| then filled else buf;
        ev := SystemCall(Spoils(errno, filled));
      }
    }

    /** close(2) after reading; its result is ignored by the code. */
    method CloseRead() returns (ghost ev: seq<Action>)
      requires Valid() && Me().Loader? && AtLoad(Me().lpc)
      requires Me().lpc.CloseAfterReadError? || Me().lpc.CloseAfterShortRead? || Me().lpc.CloseLoaded?
      modifies this`world
      ensures Ran(old(world), ev)
      ensures old(Me()).lpc.CloseAfterReadError? ==> Me() == LoadReturns(old(Me()), old(Me()).lpc.err)
      ensures old(Me()).lpc.CloseAfterShortRead? ==> Me() == old(Me()).(lpc := UnlinkShort)
      ensures old(Me()).lpc.CloseLoaded? ==> Me() == LoadReturns(old(Me()), 0)
    {
      var lucky: bool := *;
      assert ProcOk(cfg, world.fs, Me());
      ev := SystemCall(if lucky then Ok else Fails(EIO));
    }

    /** unlink(2) of a file found too short; its result is ignored by the code. */
    method UnlinkSource(path: Path) returns (ghost ev: seq<Action>)
      requires AtLoad(UnlinkShort) && path == Me().paths[Me().next]
      modifies this`world
      ensures Ran(old(world), ev)
      ensures Me() == LoadReturns(old(Me()), EIO)
    {
      var lucky: bool := *;
      assert ProcOk(cfg, world.fs, Me());
      ev := SystemCall(if lucky && path in world.fs.dir then Ok else Fails(ENOENT));
    }

    /** The calls of `_load_block`. */
    method LoadSteps(path: Path, bufs: array<Buffer>, i: nat) returns (err: int, ghost ev: seq<Action>)
      requires AtLoad(OpenSource) && Me().next == i && path == Me().paths[i]
      requires bufs[..] == Me().bufs && i < |Me().bufs|
      modifies this`world, bufs
      ensures Ran(old(world), ev)
      ensures Me().Loader? && bufs[..] == Me().bufs
      ensures |bufs[..]| == |old(Me()).bufs| && |bufs[i]| == |old(Me()).bufs[i]|
      ensures Me() == LoadReturns(old(Me()).(bufs := old(Me()).bufs[i := bufs[i]]), err)
    {
      ghost var w, p0 := world, Me();
      var fd, openErrno;
      fd, openErrno, ev := OpenRead(path);
      if fd < 0 {
        assert p0.bufs[i := p0.bufs[i]] == p0.bufs;
        return openErrno, ev;
      }
      var got, readErrno, filled, e := ReadFd(fd, bufs[i]);
      RunJoins(cfg, w, ev, e);
      ev := ev + e;
      var size := |bufs[i]|;
      bufs[i] := filled;
      assert bufs[..] == p0.bufs[i := filled];
      // Every path closes the descriptor here.
      e := CloseRead();
      RunJoins(cfg, w, ev, e);
      ev := ev + e;
      if got < 0 {
        return readErrno, ev;
      }
      if got < size {
        e := UnlinkSource(path);
        RunJoins(cfg, w, ev, e);
        return EIO, ev + e;
      }
      return 0, ev;
    }

    /**
     `_load_block` into `bufs[i]`: the code follows a run of the machine, and no other buffer changes.  It fails with the
     error of its open or read, or with EIO if the buffer is larger than the block, and returns 0 otherwise.
     */
    method LoadBlock(path: Path, bufs: array<Buffer>, i: nat) returns (err: int, ghost ev: seq<Action>)
      requires AtLoad(OpenSource) && Me().next == i && path == Me().paths[i]
      requires bufs[..] == Me().bufs && i < |Me().bufs|
      modifies this`world, bufs
      ensures Ran(old(world), ev)
      ensures Me().Loader? && bufs[..] == Me().bufs
      ensures |bufs[..]| == |old(Me()).bufs| && |bufs[i]| == |old(Me()).bufs[i]|
      ensures Me() == LoadReturns(old(Me()).(bufs := old(Me()).bufs[i := bufs[i]]), err)
      ensures path in cfg.blocks && LoadVerdict(Answers(pid, ev), old(|bufs[i]|) <= |cfg.blocks[path]|, err)
    {
      ghost var w := world;
      assert ProcOk(cfg, world.fs, Me()) && bufs[..][i] == bufs[i];
      err, ev := LoadSteps(path, bufs, i);
      LoadOutcome(cfg, w, ev, pid, Me().bufs, err);
    }

    /** The loop of `batch_store_block`: a failure at `failedIndex` leaves exactly the blocks before it stored. */
    method BatchStore(items: seq<StoreItem>) returns (failedIndex: int, failureErrno: int, ghost ev: seq<Action>)
      requires Valid() && Me() == StartStore(items)
      modifies this`world
      ensures Ran(old(world), ev) && Me().Storer? && Me().items == items
      ensures -1 <= failedIndex < |items| && (failedIndex < 0 <==> failureErrno == 0)
      ensures Me().next == (if failedIndex < 0 then |items| else failedIndex) && Me().spc == StoreEnd(failureErrno)
      ensures forall j :: 0 <= j < Me().next ==> items[j].dest in world.fs.seen
      ensures failureErrno == BatchError(Answers(pid, ev), Sizes(items, 0))
    {
      failedIndex, failureErrno, ev := -1, 0, [];
      ghost var w := world;
      var i := 0;
      while i < |items|
        invariant 0 <= i <= |items| && failedIndex == -1 && failureErrno == 0
        invariant Ran(w, ev) && Me() == Storer(items, i, if i == |items| then StoreEnd(0) else StorePc.Access)
      {
        var err, e := StoreBlock(items[i].tmp, items[i].dest, items[i].src);
        RunJoins(cfg, w, ev, e);
        ev := ev + e;
        if err != 0 {
          failedIndex, failureErrno := i, err;
          break;
        }
        i := i + 1;
      }
      assert ProcOk(cfg, world.fs, Me());
      EndOfStore(cfg, w, ev, pid, items);
    }

    /** The loop of `batch_load_block`: blocks before the failed index are loaded, buffers after it are untouched. */
    method BatchLoad(paths: seq<Path>, bufs: array<Buffer>)
      returns (failedIndex: int, failureErrno: int, numSucceeded: nat, ghost ev: seq<Action>)
      requires Valid() && bufs.Length == |paths| && Me() == StartLoad(paths, bufs[..])
      modifies this`world, bufs
      ensures Ran(old(world), ev)
      ensures -1 <= failedIndex < |paths| && (failedIndex < 0 <==> failureErrno == 0)
      ensures numSucceeded == if failedIndex < 0 then |paths| else failedIndex
      ensures forall j :: 0 <= j < numSucceeded ==> paths[j] in cfg.blocks && Loaded(cfg.blocks[paths[j]], old(bufs[j]), bufs[j])
      ensures forall j :: numSucceeded < j < |paths| ==> bufs[j] == old(bufs[j])
      ensures failureErrno == LoadBatchError(Answers(pid, ev), FitsFrom(cfg, paths, old(bufs[..]), 0))
    {
      failedIndex, failureErrno, ev := -1, 0, [];
      ghost var w, entry := world, bufs[..];
      var i := 0;
      while i < |paths|
        invariant 0 <= i <= |paths| && failedIndex == -1 && failureErrno == 0
        invariant Ran(w, ev) && Me() == Loader(paths, entry, bufs[..], i, if i == |paths| then LoadEnd(0) else OpenSource)
      {
        var err, e := LoadBlock(paths[i], bufs, i);
        RunJoins(cfg, w, ev, e);
        ev := ev + e;
        if err != 0 {
          failedIndex, failureErrno := i, err;
          break;
        }
        i := i + 1;
      }
      numSucceeded := if failedIndex >= 0 then failedIndex else |paths|;
      assert ProcOk(cfg, world.fs, Me());
      assert Me().bufs == bufs[..] && Me().entry == entry && Me().next == numSucceeded;
      EndOfLoad(cfg, w, ev, pid, paths, entry);
      forall j | 0 <= j < |paths|
        ensures bufs[..][j] == bufs[j] && entry[j] == old(bufs[j])
      {
      }
    }

    /**
     `_batch_lookup`: a path is reported present exactly when its access succeeded, and then it has been present.  Where
     no buffer is larger than its block, a block that was ever present is reported absent only after an error other than
     file-not-found.
     */
    method BatchLookup(paths: seq<Path>) returns (exists_: seq<bool>, ghost ev: seq<Action>)
      requires Valid() && Me() == StartLookup(paths)
      modifies this`world
      ensures Ran(old(world), ev) && |exists_| == |paths| == |Answers(pid, ev)|
      ensures forall j :: 0 <= j < |paths| ==> exists_[j] == Answers(pid, ev)[j].Ok?
      ensures forall j :: 0 <= j < |paths| && exists_[j] ==> paths[j] in world.fs.seen
      ensures NoFalseMiss(cfg, old(world), pid, paths, ev)
    {
      exists_, ev := [], [];
      ghost var w := world;
      var i := 0;
      while i < |paths|
        invariant 0 <= i <= |paths|
        invariant Ran(w, ev) && Me() == Looker(paths, exists_) && |exists_| == i == |Answers(pid, ev)|
        invariant forall j :: 0 <= j < i ==> exists_[j] == Answers(pid, ev)[j].Ok?
        invariant NoFalseMiss(cfg, w, pid, paths, ev)
      {
        assert ProcOk(cfg, world.fs, Me());
        var rc, e := Access(paths[i]);
        RunJoins(cfg, w, ev, e);
        OneMoreLookup(cfg, w, pid, paths, ev, e, Outcome(rc));
        ev := ev + e;
        exists_ := exists_ + [rc == 0];
        i := i + 1;
      }
      assert ProcOk(cfg, world.fs, Me());
    }
  }
}
