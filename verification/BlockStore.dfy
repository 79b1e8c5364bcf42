/**
 The KV-offload block store as a state machine: one transition per system call,
 any number of processes, and death of any process between two calls.

 A process runs one batch (of stores, loads or lookups) and its program counter
 names the system call it makes next.  Every system call may fail.
 */
module BlockStore {
  import opened Arithmetic
  import opened Bytes

  /** A file name; the store only compares names. */
  type Path(==, !new)
  type Inode = nat
  type Pid = nat

  const ENOENT := 2
  const EIO := 5
  const EEXIST := 17

  // ---------------------------------------------------------------- processes

  datatype StoreItem = StoreItem(tmp: Path, dest: Path, src: Buffer)

  /** The next system call of a store; `err` is the error that cleanup must not overwrite. */
  datatype StorePc =
    | Access
    | MakeDirs
    | OpenTmp
    | Write(ino: Inode)
    | CloseAfterError(err: int)
    | UnlinkTmp(err: int)
    | CloseTmp
    | Rename
    | StoreEnd(result: int)

  /** The next system call of a load. */
  datatype LoadPc =
    | OpenSource
    | Read(ino: Inode)
    | CloseAfterReadError(err: int)
    | CloseAfterShortRead
    | UnlinkShort
    | CloseLoaded
    | LoadEnd(result: int)

  /** `next` is the block being worked on; on failure it is the failed index. */
  datatype Proc =
    | Storer(items: seq<StoreItem>, next: nat, spc: StorePc)
    | Loader(paths: seq<Path>, entry: seq<Buffer>, bufs: seq<Buffer>, next: nat, lpc: LoadPc)
    | Looker(paths: seq<Path>, flags: seq<bool>)
    | Dead

  function StartStore(items: seq<StoreItem>): Proc {
    Storer(items, 0, if items == [] then StoreEnd(0) else Access)
  }

  /** Buffer `bufs[j]` started as `entry[j]`; a load writes only its own buffer. */
  function StartLoad(paths: seq<Path>, entry: seq<Buffer>): Proc {
    Loader(paths, entry, entry, 0, if paths == [] then LoadEnd(0) else OpenSource)
  }

  function StartLookup(paths: seq<Path>): Proc {
    Looker(paths, [])
  }

  /** One store returned `err`: go on to the next block, or end the batch. */
  function StoreReturns(p: Proc, err: int): Proc
    requires p.Storer?
  {
    if err != 0 then p.(spc := StoreEnd(err))
    else if p.next + 1 >= |p.items| then p.(next := p.next + 1, spc := StoreEnd(0))
    else p.(next := p.next + 1, spc := Access)
  }

  function LoadReturns(p: Proc, err: int): Proc
    requires p.Loader?
  {
    if err != 0 then p.(lpc := LoadEnd(err))
    else if p.next + 1 >= |p.paths| then p.(next := p.next + 1, lpc := LoadEnd(0))
    else p.(next := p.next + 1, lpc := OpenSource)
  }

  // -------------------------------------------------------------- file system

  /** Directory entries and inode contents.  `seen` is history: every path that was ever present. */
  datatype Fs = Fs(dir: map<Path, Inode>, data: map<Inode, Buffer>, seen: set<Path>)

  /** open(O_CREAT | O_EXCL): an empty file under a fresh inode. */
  function CreateFile(fs: Fs, path: Path, ino: Inode): Fs {
    Fs(fs.dir[path := ino], fs.data[ino := []], fs.seen + {path})
  }

  function WriteFile(fs: Fs, ino: Inode, content: Buffer): Fs {
    fs.(data := fs.data[ino := content])
  }

  function UnlinkFile(fs: Fs, path: Path): Fs {
    fs.(dir := fs.dir - {path})
  }

  /** rename: the new name replaces whatever it named before, and the old name goes away. */
  function RenameFile(fs: Fs, old_: Path, new_: Path): Fs
    requires old_ in fs.dir
  {
    fs.(dir := (fs.dir - {old_})[new_ := fs.dir[old_]], seen := fs.seen + {new_})
  }

  /** `renamed` is history: every publication, with its author. */
  datatype World = World(fs: Fs, procs: map<Pid, Proc>, renamed: set<(Pid, Path)>)

  /** What the kernel answers to a system call. */
  datatype Answer =
    | Ok
    | Fails(errno: int)
    | Created(ino: Inode)                    // open(O_CREAT | O_EXCL) made this inode
    | Transferred(n: nat)                    // write accepted n bytes
    | Spoils(errno: int, garbage: Buffer)     // read or write failed, leaving this behind

  datatype Action =
    | Spawn(pid: Pid, proc: Proc)
    | Die(pid: Pid)
    | Call(pid: Pid, answer: Answer)

  /** The fixed content of every destination; no other path is a destination. */
  datatype Config = Config(blocks: map<Path, Buffer>)

  /** What a complete read of `n` bytes leaves in a buffer. */
  function Filled(buf: Buffer, file: Buffer): Buffer {
    var n := Min(|buf|, |file|);
    file[..n] + buf[n..]
  }

  predicate Admissible(cfg: Config, p: Proc) {
    match p
    case Storer(items, _, _) =>
      p == StartStore(items) &&
      forall j :: 0 <= j < |items| ==>
        items[j].dest in cfg.blocks && items[j].src == cfg.blocks[items[j].dest] && items[j].tmp !in cfg.blocks
    case Loader(paths, entry, _, _, _) =>
      p == StartLoad(paths, entry) && |entry| == |paths| &&
      forall j :: 0 <= j < |paths| ==> paths[j] in cfg.blocks
    case Looker(paths, _) =>
      p == StartLookup(paths) && forall j :: 0 <= j < |paths| ==> paths[j] in cfg.blocks
    case Dead => false
  }

  predicate Failure(a: Answer) { a.Fails? && a.errno != 0 }

  /** access(2) may fail for any reason, but says ENOENT only of an absent name. */
  predicate AccessAnswer(fs: Fs, path: Path, a: Answer) {
    if path in fs.dir then a.Ok? || (Failure(a) && a.errno != ENOENT) else Failure(a)
  }

  /** Which answers the kernel can give to the call a storer is about to make. */
  predicate StoreAnswer(fs: Fs, p: Proc, a: Answer)
    requires p.Storer?
  {
    p.next < |p.items| &&
    var it := p.items[p.next];
    match p.spc
    case Access => AccessAnswer(fs, it.dest, a)
    case MakeDirs => Failure(a) || a.Ok?
    case OpenTmp => Failure(a) || (a.Created? && it.tmp !in fs.dir && a.ino !in fs.data)
    case Write(_) => (a.Spoils? && a.errno != 0) || (a.Transferred? && a.n <= |it.src|)
    case CloseAfterError(_) => Failure(a) || a.Ok?
    case UnlinkTmp(_) => Failure(a) || (a.Ok? && it.tmp in fs.dir)
    case CloseTmp => Failure(a) || a.Ok?
    case Rename => Failure(a) || (a.Ok? && it.tmp in fs.dir)
    case StoreEnd(_) => false
  }

  /** Which answers the kernel can give to a loader: open says ENOENT exactly when the name is absent. */
  predicate LoadAnswer(fs: Fs, p: Proc, a: Answer)
    requires p.Loader?
  {
    p.next < |p.paths| && p.next < |p.bufs| &&
    var path := p.paths[p.next];
    match p.lpc
    case OpenSource => if path in fs.dir then a.Ok? || (Failure(a) && a.errno != ENOENT) else a == Fails(ENOENT)
    case Read(ino) =>
      ino in fs.data &&
      (a.Ok? || (a.Spoils? && a.errno != 0 && a.errno != ENOENT && |a.garbage| == |p.bufs[p.next]|))
    case CloseAfterReadError(_) => Failure(a) || a.Ok?
    case CloseAfterShortRead => Failure(a) || a.Ok?
    case UnlinkShort => Failure(a) || (a.Ok? && path in fs.dir)
    case CloseLoaded => Failure(a) || a.Ok?
    case LoadEnd(_) => false
  }

  predicate LookAnswer(fs: Fs, p: Proc, a: Answer)
    requires p.Looker?
  {
    |p.flags| < |p.paths| && AccessAnswer(fs, p.paths[|p.flags|], a)
  }

  /** `_store_block`, one system call at a time: the file system afterwards. */
  function StoreFs(fs: Fs, p: Proc, a: Answer): Fs
    requires p.Storer? && StoreAnswer(fs, p, a)
  {
    var it := p.items[p.next];
    match p.spc
    case OpenTmp => if a.Created? then CreateFile(fs, it.tmp, a.ino) else fs
    case Write(ino) => WriteFile(fs, ino, if a.Transferred? then it.src[..a.n] else a.garbage)
    case UnlinkTmp(_) => if a.Ok? then UnlinkFile(fs, it.tmp) else fs
    case Rename => if a.Ok? then RenameFile(fs, it.tmp, it.dest) else fs
    case _ => fs
  }

  /** `_store_block`, one system call at a time: where the storer goes next. */
  function StoreNext(p: Proc, a: Answer): Proc
    requires p.Storer? && p.next < |p.items|
  {
    match p.spc
    case Access => if a.Ok? then StoreReturns(p, 0) else p.(spc := MakeDirs)
    case MakeDirs => if a.Fails? then StoreReturns(p, a.errno) else p.(spc := OpenTmp)
    case OpenTmp =>
      if a.Created? then p.(spc := Write(a.ino)) else if a.Fails? then StoreReturns(p, a.errno) else p
    case Write(_) =>
      if a.Spoils? then p.(spc := CloseAfterError(a.errno))
      else if a.Transferred? && a.n == |p.items[p.next].src| then p.(spc := CloseTmp)
      else p.(spc := CloseAfterError(EIO))
    case CloseAfterError(err) => p.(spc := UnlinkTmp(err))
    case UnlinkTmp(err) => StoreReturns(p, err)
    case CloseTmp => p.(spc := if a.Fails? then UnlinkTmp(a.errno) else Rename)
    case Rename => if a.Fails? then p.(spc := UnlinkTmp(a.errno)) else StoreReturns(p, 0)
    case StoreEnd(_) => p
  }

  /** `_load_block`, one system call at a time: only a short read deletes. */
  function LoadFs(fs: Fs, p: Proc, a: Answer): Fs
    requires p.Loader? && p.next < |p.paths|
  {
    if p.lpc.UnlinkShort? && a.Ok? then UnlinkFile(fs, p.paths[p.next]) else fs
  }

  function LoadNext(fs: Fs, p: Proc, a: Answer): Proc
    requires p.Loader? && LoadAnswer(fs, p, a)
  {
    var buf := p.bufs[p.next];
    match p.lpc
    case OpenSource => if a.Ok? then p.(lpc := Read(fs.dir[p.paths[p.next]])) else LoadReturns(p, a.errno)
    case Read(ino) =>
      if a.Spoils? then p.(bufs := p.bufs[p.next := a.garbage], lpc := CloseAfterReadError(a.errno))
      else p.(bufs := p.bufs[p.next := Filled(buf, fs.data[ino])],
              lpc := if |fs.data[ino]| < |buf| then CloseAfterShortRead else CloseLoaded)
    case CloseAfterReadError(err) => LoadReturns(p, err)
    case CloseAfterShortRead => p.(lpc := UnlinkShort)
    case UnlinkShort => LoadReturns(p, EIO)
    case CloseLoaded => LoadReturns(p, 0)
  }

  /** `_batch_lookup`, one path at a time. */
  function LookNext(p: Proc, a: Answer): Proc
    requires p.Looker?
  {
    p.(flags := p.flags + [a.Ok?])
  }

  predicate Allowed(cfg: Config, w: World, act: Action) {
    match act
    case Spawn(pid, proc) => pid !in w.procs && Admissible(cfg, proc)
    case Die(pid) => pid in w.procs
    case Call(pid, a) =>
      pid in w.procs &&
      match w.procs[pid]
      case Storer(_, _, _) => StoreAnswer(w.fs, w.procs[pid], a)
      case Loader(_, _, _, _, _) => LoadAnswer(w.fs, w.procs[pid], a)
      case Looker(_, _) => LookAnswer(w.fs, w.procs[pid], a)
      case Dead => false
  }

  function Apply(cfg: Config, w: World, act: Action): World
    requires Allowed(cfg, w, act)
  {
    match act
    case Spawn(pid, proc) => w.(procs := w.procs[pid := proc])
    case Die(pid) => w.(procs := w.procs[pid := Dead])
    case Call(pid, a) =>
      var p := w.procs[pid];
      match p
      case Storer(_, _, _) =>
        World(StoreFs(w.fs, p, a), w.procs[pid := StoreNext(p, a)],
              if p.spc.Rename? && a.Ok? then w.renamed + {(pid, p.items[p.next].dest)} else w.renamed)
      case Loader(_, _, _, _, _) =>
        w.(fs := LoadFs(w.fs, p, a), procs := w.procs[pid := LoadNext(w.fs, p, a)])
      case Looker(_, _) =>
        w.(procs := w.procs[pid := LookNext(p, a)])
  }

  // --------------------------------------------------------------------- runs

  predicate Run(cfg: Config, w: World, acts: seq<Action>)
    decreases |acts|
  {
    acts == [] || (Allowed(cfg, w, acts[0]) && Run(cfg, Apply(cfg, w, acts[0]), acts[1..]))
  }

  function After(cfg: Config, w: World, acts: seq<Action>): World
    requires Run(cfg, w, acts)
    decreases |acts|
  {
    if acts == [] then w else After(cfg, Apply(cfg, w, acts[0]), acts[1..])
  }

  /** A directory left by earlier processes: complete blocks, stray temp files, nobody running. */
  ghost predicate Start(cfg: Config, w: World) {
    DirOk(cfg, w.fs) && w.fs.seen == w.fs.dir.Keys && w.procs == map[] && w.renamed == {}
  }

  // --------------------------------------------------------------- invariants

  /** A destination names a complete block, and no inode has two names. */
  ghost predicate DirOk(cfg: Config, fs: Fs) {
    && (forall d :: d in fs.dir ==> fs.dir[d] in fs.data && d in fs.seen)
    && (forall d :: d in fs.dir && d in cfg.blocks ==> fs.data[fs.dir[d]] == cfg.blocks[d])
    && (forall a, b :: a in fs.dir && b in fs.dir && a != b ==> fs.dir[a] != fs.dir[b])
  }

  /** The storer is between its exclusive create and its rename or unlink. */
  predicate OwnsTmp(p: Proc) {
    p.Storer? && p.next < |p.items| &&
    (p.spc.Write? || p.spc.CloseAfterError? || p.spc.UnlinkTmp? || p.spc.CloseTmp? || p.spc.Rename?)
  }

  function Tmp(p: Proc): Path
    requires OwnsTmp(p)
  { p.items[p.next].tmp }

  /** An owned temp file is in place, is the one the descriptor writes, and is complete once written. */
  ghost predicate TmpOk(fs: Fs, p: Proc)
    requires OwnsTmp(p)
  {
    && Tmp(p) in fs.dir
    && (p.spc.Write? ==> fs.dir[Tmp(p)] == p.spc.ino)
    && (p.spc.CloseTmp? || p.spc.Rename? ==>
          fs.dir[Tmp(p)] in fs.data && fs.data[fs.dir[Tmp(p)]] == p.items[p.next].src)
  }

  ghost predicate ItemsOk(cfg: Config, items: seq<StoreItem>) {
    forall j :: 0 <= j < |items| ==>
      items[j].dest in cfg.blocks && items[j].src == cfg.blocks[items[j].dest] && items[j].tmp !in cfg.blocks
  }

  ghost predicate StorerOk(cfg: Config, fs: Fs, p: Proc)
    requires p.Storer?
  {
    && ItemsOk(cfg, p.items)
    && p.next <= |p.items|
    && (p.spc == StoreEnd(0) <==> p.next == |p.items|)
    && (p.spc.CloseAfterError? || p.spc.UnlinkTmp? ==> p.spc.err != 0)
    && (forall j :: 0 <= j < p.next ==> p.items[j].dest in fs.seen)
    && (OwnsTmp(p) ==> TmpOk(fs, p))
  }

  /** An inode open for reading holds the block and is out of reach of every writer. */
  ghost predicate OpenForReading(cfg: Config, fs: Fs, path: Path, ino: Inode) {
    && path in cfg.blocks
    && ino in fs.data && fs.data[ino] == cfg.blocks[path]
    && (forall t :: t in fs.dir && t !in cfg.blocks ==> fs.dir[t] != ino)
  }

  /** `buf` has kept its length and now holds the block, as far as it reaches. */
  predicate Loaded(block: Buffer, entry: Buffer, buf: Buffer) {
    |buf| == |entry| && |buf| <= |block| && buf == block[..|buf|]
  }

  ghost predicate LoaderOk(cfg: Config, fs: Fs, p: Proc)
    requires p.Loader?
  {
    && |p.entry| == |p.paths| == |p.bufs|
    && (forall j :: 0 <= j < |p.paths| ==> p.paths[j] in cfg.blocks && |p.bufs[j]| == |p.entry[j]|)
    && p.next <= |p.paths|
    && (p.lpc == LoadEnd(0) <==> p.next == |p.paths|)
    && (p.lpc.CloseAfterReadError? ==> p.lpc.err != 0 && p.lpc.err != ENOENT)
    && (forall j :: 0 <= j < p.next ==> Loaded(cfg.blocks[p.paths[j]], p.entry[j], p.bufs[j]))
    && (forall j :: p.next < j < |p.paths| ==> p.bufs[j] == p.entry[j])
    && (p.lpc.Read? ==> OpenForReading(cfg, fs, p.paths[p.next], p.lpc.ino))
    && (p.lpc.CloseLoaded? ==> Loaded(cfg.blocks[p.paths[p.next]], p.entry[p.next], p.bufs[p.next]))
    && (p.lpc.CloseAfterShortRead? || p.lpc.UnlinkShort? ==> |cfg.blocks[p.paths[p.next]]| < |p.entry[p.next]|)
  }

  ghost predicate LookerOk(cfg: Config, fs: Fs, p: Proc)
    requires p.Looker?
  {
    && |p.flags| <= |p.paths|
    && (forall j :: 0 <= j < |p.paths| ==> p.paths[j] in cfg.blocks)
    && (forall j :: 0 <= j < |p.flags| && p.flags[j] ==> p.paths[j] in fs.seen)
  }

  ghost predicate ProcOk(cfg: Config, fs: Fs, p: Proc) {
    match p
    case Storer(_, _, _) => StorerOk(cfg, fs, p)
    case Loader(_, _, _, _, _) => LoaderOk(cfg, fs, p)
    case Looker(_, _) => LookerOk(cfg, fs, p)
    case Dead => true
  }

  predicate Apart(p: Proc, q: Proc) {
    OwnsTmp(p) && OwnsTmp(q) ==> Tmp(p) != Tmp(q)
  }

  /** `path` is the destination of a block the batch has finished. */
  ghost predicate Finished(p: Proc, path: Path) {
    p.Dead? ||
    (p.Storer? && p.next <= |p.items| && exists j :: 0 <= j < p.next && p.items[j].dest == path)
  }

  ghost predicate Inv(cfg: Config, w: World) {
    && DirOk(cfg, w.fs)
    && (forall p, q :: p in w.procs && q in w.procs && p != q ==> Apart(w.procs[p], w.procs[q]))
    && (forall e :: e in w.renamed ==> e.0 in w.procs && Finished(w.procs[e.0], e.1))
    && (forall pid :: pid in w.procs ==> ProcOk(cfg, w.fs, w.procs[pid]))
  }

  // ---------------------------------------- what each system call leaves alone

  lemma CreateKeeps(cfg: Config, fs: Fs, tmp: Path, ino: Inode, q: Proc)
    requires DirOk(cfg, fs) && ProcOk(cfg, fs, q)
    requires tmp !in fs.dir && tmp !in cfg.blocks && ino !in fs.data
    ensures DirOk(cfg, CreateFile(fs, tmp, ino)) && ProcOk(cfg, CreateFile(fs, tmp, ino), q)
    ensures OwnsTmp(q) ==> Tmp(q) != tmp
  {
  }

  lemma WriteKeeps(cfg: Config, fs: Fs, tmp: Path, content: Buffer, q: Proc)
    requires DirOk(cfg, fs) && ProcOk(cfg, fs, q)
    requires tmp in fs.dir && tmp !in cfg.blocks
    requires OwnsTmp(q) ==> Tmp(q) != tmp
    ensures DirOk(cfg, WriteFile(fs, fs.dir[tmp], content)) && ProcOk(cfg, WriteFile(fs, fs.dir[tmp], content), q)
  {
  }

  lemma UnlinkKeeps(cfg: Config, fs: Fs, path: Path, q: Proc)
    requires DirOk(cfg, fs) && ProcOk(cfg, fs, q)
    requires OwnsTmp(q) ==> Tmp(q) != path
    ensures DirOk(cfg, UnlinkFile(fs, path)) && ProcOk(cfg, UnlinkFile(fs, path), q)
  {
  }

  lemma RenameKeeps(cfg: Config, fs: Fs, tmp: Path, dest: Path, q: Proc)
    requires DirOk(cfg, fs) && ProcOk(cfg, fs, q)
    requires tmp in fs.dir && tmp !in cfg.blocks && dest in cfg.blocks
    requires fs.data[fs.dir[tmp]] == cfg.blocks[dest]
    requires OwnsTmp(q) ==> Tmp(q) != tmp
    ensures DirOk(cfg, RenameFile(fs, tmp, dest)) && ProcOk(cfg, RenameFile(fs, tmp, dest), q)
  {
  }

  // ------------------------------------------------- each step keeps the invariant

  /** A storer's call keeps the directory sound and every other process's assumptions. */
  lemma StoreFsKeeps(cfg: Config, fs: Fs, p: Proc, a: Answer, q: Proc)
    requires DirOk(cfg, fs) && p.Storer? && ProcOk(cfg, fs, p) && StoreAnswer(fs, p, a)
    requires ProcOk(cfg, fs, q) && Apart(p, q)
    ensures DirOk(cfg, StoreFs(fs, p, a)) && ProcOk(cfg, StoreFs(fs, p, a), q)
    ensures Apart(StoreNext(p, a), q)
  {
    var it := p.items[p.next];
    match p.spc
    case OpenTmp => if a.Created? { CreateKeeps(cfg, fs, it.tmp, a.ino, q); }
    case Write(ino) => WriteKeeps(cfg, fs, it.tmp, if a.Transferred? then it.src[..a.n] else a.garbage, q);
    case UnlinkTmp(_) => if a.Ok? { UnlinkKeeps(cfg, fs, it.tmp, q); }
    case Rename => if a.Ok? { RenameKeeps(cfg, fs, it.tmp, it.dest, q); }
    case _ =>
  }

  /** A storer's call leaves the storer itself in a sound state. */
  lemma StoreNextOk(cfg: Config, fs: Fs, p: Proc, a: Answer)
    requires DirOk(cfg, fs) && p.Storer? && ProcOk(cfg, fs, p) && StoreAnswer(fs, p, a)
    ensures ProcOk(cfg, StoreFs(fs, p, a), StoreNext(p, a))
  {
    var it := p.items[p.next];
    var fs' := StoreFs(fs, p, a);
    if p.spc.Write? && a.Transferred? && a.n == |it.src| {
      assert it.src[..a.n] == it.src;
    }
  }

  lemma LoadNextOk(cfg: Config, fs: Fs, p: Proc, a: Answer)
    requires DirOk(cfg, fs) && p.Loader? && ProcOk(cfg, fs, p) && LoadAnswer(fs, p, a)
    ensures ProcOk(cfg, LoadFs(fs, p, a), LoadNext(fs, p, a))
  {
    var p' := LoadNext(fs, p, a);
    match p.lpc
    case Read(ino) =>
      if a.Ok? && |p.bufs[p.next]| <= |fs.data[ino]| {
        assert Filled(p.bufs[p.next], fs.data[ino]) == fs.data[ino][..|p.bufs[p.next]|];
      }
    case _ =>
  }

  /** A loader's call keeps every other process's assumptions. */
  lemma LoadFsKeeps(cfg: Config, fs: Fs, p: Proc, a: Answer, q: Proc)
    requires DirOk(cfg, fs) && p.Loader? && ProcOk(cfg, fs, p) && LoadAnswer(fs, p, a)
    requires ProcOk(cfg, fs, q)
    ensures DirOk(cfg, LoadFs(fs, p, a)) && ProcOk(cfg, LoadFs(fs, p, a), q)
  {
    if p.lpc.UnlinkShort? && a.Ok? {
      UnlinkKeeps(cfg, fs, p.paths[p.next], q);
    }
  }

  lemma StoreNextFinishes(p: Proc, a: Answer, path: Path)
    requires p.Storer? && p.next < |p.items|
    ensures Finished(p, path) ==> Finished(StoreNext(p, a), path)
    ensures p.spc.Rename? && a.Ok? ==> Finished(StoreNext(p, a), p.items[p.next].dest)
  {
    var p' := StoreNext(p, a);
    assert p'.items == p.items && p.next <= p'.next <= |p.items|;
    if p.spc.Rename? && a.Ok? {
      assert p'.next == p.next + 1;
      assert p'.items[p.next].dest == p.items[p.next].dest;
    }
  }

  lemma StorerCallKeepsInv(cfg: Config, w: World, pid: Pid, a: Answer)
    requires Inv(cfg, w) && pid in w.procs && w.procs[pid].Storer? && Allowed(cfg, w, Call(pid, a))
    ensures Inv(cfg, Apply(cfg, w, Call(pid, a)))
  {
    var p := w.procs[pid];
    var w' := Apply(cfg, w, Call(pid, a));
    StoreFsKeeps(cfg, w.fs, p, a, Dead);
    StoreNextOk(cfg, w.fs, p, a);
    forall q | q in w.procs && q != pid
      ensures ProcOk(cfg, w'.fs, w.procs[q]) && Apart(StoreNext(p, a), w.procs[q])
    {
      StoreFsKeeps(cfg, w.fs, p, a, w.procs[q]);
    }
    forall e | e in w'.renamed
      ensures e.0 in w'.procs && Finished(w'.procs[e.0], e.1)
    {
      StoreNextFinishes(p, a, e.1);
    }
  }

  lemma LoaderCallKeepsInv(cfg: Config, w: World, pid: Pid, a: Answer)
    requires Inv(cfg, w) && pid in w.procs && w.procs[pid].Loader? && Allowed(cfg, w, Call(pid, a))
    ensures Inv(cfg, Apply(cfg, w, Call(pid, a)))
  {
    var p := w.procs[pid];
    var w' := Apply(cfg, w, Call(pid, a));
    LoadFsKeeps(cfg, w.fs, p, a, Dead);
    LoadNextOk(cfg, w.fs, p, a);
    forall q | q in w.procs && q != pid
      ensures ProcOk(cfg, w'.fs, w.procs[q])
    {
      LoadFsKeeps(cfg, w.fs, p, a, w.procs[q]);
    }
  }

  lemma StepKeepsInv(cfg: Config, w: World, act: Action)
    requires Inv(cfg, w) && Allowed(cfg, w, act)
    ensures Inv(cfg, Apply(cfg, w, act))
  {
    if act.Call? {
      if w.procs[act.pid].Storer? {
        StorerCallKeepsInv(cfg, w, act.pid, act.answer);
      } else if w.procs[act.pid].Loader? {
        LoaderCallKeepsInv(cfg, w, act.pid, act.answer);
      }
    }
  }

  lemma {:induction false} RunKeepsInv(cfg: Config, w: World, acts: seq<Action>)
    requires Inv(cfg, w) && Run(cfg, w, acts)
    ensures Inv(cfg, After(cfg, w, acts))
    decreases |acts|
  {
    if acts != [] {
      StepKeepsInv(cfg, w, acts[0]);
      RunKeepsInv(cfg, Apply(cfg, w, acts[0]), acts[1..]);
    }
  }

  /** One run after another is a run. */
  lemma {:induction false} RunJoins(cfg: Config, w: World, acts: seq<Action>, more: seq<Action>)
    requires Run(cfg, w, acts) && Run(cfg, After(cfg, w, acts), more)
    ensures Run(cfg, w, acts + more) && After(cfg, w, acts + more) == After(cfg, After(cfg, w, acts), more)
    decreases |acts|
  {
    if acts == [] {
      assert acts + more == more;
    } else {
      RunJoins(cfg, Apply(cfg, w, acts[0]), acts[1..], more);
      assert (acts + more)[1..] == acts[1..] + more;
    }
  }

  /** None of the actions is taken by `pid`. */
  predicate Others(pid: Pid, acts: seq<Action>) {
    forall i :: 0 <= i < |acts| ==> acts[i].pid != pid
  }

  /** Whatever other processes do, what `pid` relies on still holds, it stands where it stood, and history only grows. */
  lemma {:induction false} OthersKeep(cfg: Config, w: World, acts: seq<Action>, pid: Pid)
    requires Inv(cfg, w) && pid in w.procs && Run(cfg, w, acts) && Others(pid, acts)
    ensures var w' := After(cfg, w, acts);
      && Inv(cfg, w') && pid in w'.procs && w'.procs[pid] == w.procs[pid]
      && w.fs.seen <= w'.fs.seen && w.renamed <= w'.renamed
    decreases |acts|
  {
    if acts != [] {
      StepKeepsInv(cfg, w, acts[0]);
      OthersKeep(cfg, Apply(cfg, w, acts[0]), acts[1..], pid);
    }
  }

  // ------------------------------------------------------------- main results

  /**
   Safety over every run: a destination names nothing or a complete block, and
   every block a load batch has passed is in its buffer, byte for byte.
   */
  lemma EveryRunIsSafe(cfg: Config, w: World, acts: seq<Action>)
    requires Start(cfg, w) && Run(cfg, w, acts)
    ensures var w' := After(cfg, w, acts);
      && (forall d :: d in cfg.blocks && d in w'.fs.dir ==>
            w'.fs.dir[d] in w'.fs.data && w'.fs.data[w'.fs.dir[d]] == cfg.blocks[d])
      && (forall pid, j :: pid in w'.procs && w'.procs[pid].Loader? && 0 <= j < w'.procs[pid].next ==>
            var p := w'.procs[pid];
            j < |p.paths| && j < |p.bufs| && j < |p.entry| && p.paths[j] in cfg.blocks &&
            |p.bufs[j]| == |p.entry[j]| &&
            (|p.entry[j]| == |cfg.blocks[p.paths[j]]| ==> p.bufs[j] == cfg.blocks[p.paths[j]]))
  {
    RunKeepsInv(cfg, w, acts);
    var w' := After(cfg, w, acts);
    forall pid, j | pid in w'.procs && w'.procs[pid].Loader? && 0 <= j < w'.procs[pid].next
      ensures var p := w'.procs[pid];
        j < |p.paths| && j < |p.bufs| && j < |p.entry| && p.paths[j] in cfg.blocks &&
        |p.bufs[j]| == |p.entry[j]| &&
        (|p.entry[j]| == |cfg.blocks[p.paths[j]]| ==> p.bufs[j] == cfg.blocks[p.paths[j]])
    {
      assert ProcOk(cfg, w'.fs, w'.procs[pid]);
      assert Loaded(cfg.blocks[w'.procs[pid].paths[j]], w'.procs[pid].entry[j], w'.procs[pid].bufs[j]);
    }
  }

  /** A batch load acts on an exact prefix, whether it is still running, has ended or has failed. */
  lemma LoadBatchIsAPrefix(cfg: Config, w: World, acts: seq<Action>, pid: Pid)
    requires Start(cfg, w) && Run(cfg, w, acts)
    requires pid in After(cfg, w, acts).procs && After(cfg, w, acts).procs[pid].Loader?
    ensures var p := After(cfg, w, acts).procs[pid];
      && |p.bufs| == |p.entry| == |p.paths| && p.next <= |p.paths|
      && (forall j :: 0 <= j < p.next ==> p.paths[j] in cfg.blocks && Loaded(cfg.blocks[p.paths[j]], p.entry[j], p.bufs[j]))
      && (forall j :: p.next < j < |p.paths| ==> p.bufs[j] == p.entry[j])
      && (p.lpc.LoadEnd? ==> (p.lpc.result == 0 <==> p.next == |p.paths|))
  {
    RunKeepsInv(cfg, w, acts);
    var w' := After(cfg, w, acts);
    assert ProcOk(cfg, w'.fs, w'.procs[pid]);
  }

  /** A batch store acts on an exact prefix: what it published lies before `next`, and all of that has been present. */
  lemma StoreBatchIsAPrefix(cfg: Config, w: World, acts: seq<Action>, pid: Pid)
    requires Start(cfg, w) && Run(cfg, w, acts)
    requires pid in After(cfg, w, acts).procs && After(cfg, w, acts).procs[pid].Storer?
    ensures var w' := After(cfg, w, acts); var p := w'.procs[pid];
      && p.next <= |p.items|
      && (forall j :: 0 <= j < p.next ==> p.items[j].dest in w'.fs.seen)
      && (forall path :: (pid, path) in w'.renamed ==> exists j :: 0 <= j < p.next && p.items[j].dest == path)
      && (p.spc.StoreEnd? ==> (p.spc.result == 0 <==> p.next == |p.items|))
  {
    RunKeepsInv(cfg, w, acts);
    var w' := After(cfg, w, acts);
    assert ProcOk(cfg, w'.fs, w'.procs[pid]);
    forall path | (pid, path) in w'.renamed
      ensures exists j :: 0 <= j < w'.procs[pid].next && w'.procs[pid].items[j].dest == path
    {
      var e := (pid, path);
      assert e in w'.renamed && Finished(w'.procs[e.0], e.1);
    }
  }

  // ------------------------------------------------- presence is permanent

  /** No buffer is larger than the block it is loaded from. */
  ghost predicate Fits(cfg: Config, p: Proc) {
    p.Loader? ==>
      |p.entry| == |p.paths| &&
      forall j :: 0 <= j < |p.paths| ==> p.paths[j] in cfg.blocks && |p.entry[j]| <= |cfg.blocks[p.paths[j]]|
  }

  ghost predicate AllFit(cfg: Config, acts: seq<Action>) {
    forall i :: 0 <= i < |acts| && acts[i].Spawn? ==> Fits(cfg, acts[i].proc)
  }

  /** Every process fits and every destination ever present still is. */
  ghost predicate NothingLost(cfg: Config, w: World) {
    && (forall pid :: pid in w.procs ==> Fits(cfg, w.procs[pid]))
    && (forall d :: d in cfg.blocks && d in w.fs.seen ==> d in w.fs.dir)
  }

  /** With fitting buffers no load ever reaches its delete. */
  lemma DeleteIsUnreachable(cfg: Config, w: World, pid: Pid)
    requires Inv(cfg, w) && pid in w.procs && w.procs[pid].Loader? && Fits(cfg, w.procs[pid])
    ensures !w.procs[pid].lpc.CloseAfterShortRead? && !w.procs[pid].lpc.UnlinkShort?
  {
    assert ProcOk(cfg, w.fs, w.procs[pid]);
  }

  lemma StepLosesNothing(cfg: Config, w: World, act: Action)
    requires Inv(cfg, w) && NothingLost(cfg, w) && Allowed(cfg, w, act)
    requires act.Spawn? ==> Fits(cfg, act.proc)
    ensures NothingLost(cfg, Apply(cfg, w, act))
    ensures forall d :: d in cfg.blocks && d in w.fs.dir ==> d in Apply(cfg, w, act).fs.dir
    ensures w.fs.seen <= Apply(cfg, w, act).fs.seen
  {
    if act.Call? {
      assert ProcOk(cfg, w.fs, w.procs[act.pid]);
      if w.procs[act.pid].Loader? {
        DeleteIsUnreachable(cfg, w, act.pid);
      }
    }
  }

  lemma {:induction false} RunLosesNothing(cfg: Config, w: World, acts: seq<Action>)
    requires Inv(cfg, w) && NothingLost(cfg, w) && Run(cfg, w, acts) && AllFit(cfg, acts)
    ensures NothingLost(cfg, After(cfg, w, acts)) && Inv(cfg, After(cfg, w, acts))
    ensures w.fs.seen <= After(cfg, w, acts).fs.seen
    decreases |acts|
  {
    if acts != [] {
      StepKeepsInv(cfg, w, acts[0]);
      StepLosesNothing(cfg, w, acts[0]);
      assert AllFit(cfg, acts[1..]);
      RunLosesNothing(cfg, Apply(cfg, w, acts[0]), acts[1..]);
    }
  }

  /** Once a destination is present it stays present, through any continuation of the run. */
  lemma PresenceIsPermanent(cfg: Config, w: World, acts: seq<Action>, more: seq<Action>, d: Path)
    requires Start(cfg, w) && Run(cfg, w, acts) && AllFit(cfg, acts) && AllFit(cfg, more)
    requires Run(cfg, After(cfg, w, acts), more)
    requires d in cfg.blocks && d in After(cfg, w, acts).fs.seen
    ensures d in After(cfg, w, acts).fs.dir
    ensures d in After(cfg, After(cfg, w, acts), more).fs.dir
  {
    RunLosesNothing(cfg, w, acts);
    RunLosesNothing(cfg, After(cfg, w, acts), more);
  }

  /**
   A store that returned 0, even if its process has since died, is never followed
   by a load of the same block that fails with file-not-found.
   */
  lemma StoredBlockIsAlwaysFound(cfg: Config, w: World, acts: seq<Action>, more: seq<Action>,
                                 storer: Pid, j: nat, loader: Pid, a: Answer)
    requires Start(cfg, w) && Run(cfg, w, acts) && AllFit(cfg, acts) && AllFit(cfg, more)
    requires var w1 := After(cfg, w, acts);
      && storer in w1.procs && w1.procs[storer].Storer? && j < w1.procs[storer].next && j < |w1.procs[storer].items|
      && Run(cfg, w1, more)
    requires var w1 := After(cfg, w, acts); var w2 := After(cfg, w1, more);
      && loader in w2.procs && w2.procs[loader].Loader?
      && LoadAnswer(w2.fs, w2.procs[loader], a)
      && w2.procs[loader].paths[w2.procs[loader].next] == w1.procs[storer].items[j].dest
    ensures var w1 := After(cfg, w, acts); var w2 := After(cfg, w1, more);
      LoadNext(w2.fs, w2.procs[loader], a).lpc != LoadEnd(ENOENT)
  {
    var w1 := After(cfg, w, acts);
    RunKeepsInv(cfg, w, acts);
    assert ProcOk(cfg, w1.fs, w1.procs[storer]);
    PresenceIsPermanent(cfg, w, acts, more, w1.procs[storer].items[j].dest);
    RunLosesNothing(cfg, w, acts);
    RunLosesNothing(cfg, w1, more);
    var w2 := After(cfg, w1, more);
    assert ProcOk(cfg, w2.fs, w2.procs[loader]);
  }

  /** Nor is it followed by a lookup that the kernel answers with file-not-found. */
  lemma StoredBlockIsNeverMissing(cfg: Config, w: World, acts: seq<Action>, more: seq<Action>,
                                  storer: Pid, j: nat, looker: Pid, a: Answer)
    requires Start(cfg, w) && Run(cfg, w, acts) && AllFit(cfg, acts) && AllFit(cfg, more)
    requires var w1 := After(cfg, w, acts);
      && storer in w1.procs && w1.procs[storer].Storer? && j < w1.procs[storer].next && j < |w1.procs[storer].items|
      && Run(cfg, w1, more)
    requires var w1 := After(cfg, w, acts); var w2 := After(cfg, w1, more);
      && looker in w2.procs && w2.procs[looker].Looker?
      && LookAnswer(w2.fs, w2.procs[looker], a)
      && w2.procs[looker].paths[|w2.procs[looker].flags|] == w1.procs[storer].items[j].dest
    ensures a != Fails(ENOENT)
  {
    var w1 := After(cfg, w, acts);
    RunKeepsInv(cfg, w, acts);
    assert ProcOk(cfg, w1.fs, w1.procs[storer]);
    PresenceIsPermanent(cfg, w, acts, more, w1.procs[storer].items[j].dest);
  }

  /** A path that a lookup reported as present is never lost afterwards. */
  lemma LookupStaysTrue(cfg: Config, w: World, acts: seq<Action>, more: seq<Action>, pid: Pid, j: nat)
    requires Start(cfg, w) && Run(cfg, w, acts) && AllFit(cfg, acts) && AllFit(cfg, more)
    requires Run(cfg, After(cfg, w, acts), more)
    requires var w1 := After(cfg, w, acts);
      pid in w1.procs && w1.procs[pid].Looker? && j < |w1.procs[pid].flags| && j < |w1.procs[pid].paths| && w1.procs[pid].flags[j]
    ensures var w1 := After(cfg, w, acts);
      w1.procs[pid].paths[j] in After(cfg, w1, more).fs.dir
  {
    var w1 := After(cfg, w, acts);
    RunKeepsInv(cfg, w, acts);
    assert ProcOk(cfg, w1.fs, w1.procs[pid]);
    PresenceIsPermanent(cfg, w, acts, more, w1.procs[pid].paths[j]);
  }

  /** A completed read goes on to delete the file exactly when the buffer is larger than the block. */
  lemma DeleteIffOversized(cfg: Config, w: World, acts: seq<Action>, pid: Pid)
    requires Start(cfg, w) && Run(cfg, w, acts)
    requires var w' := After(cfg, w, acts);
      pid in w'.procs && w'.procs[pid].Loader? && w'.procs[pid].lpc.Read? && LoadAnswer(w'.fs, w'.procs[pid], Ok)
    ensures var w' := After(cfg, w, acts); var p := w'.procs[pid];
      p.paths[p.next] in cfg.blocks && |p.entry| == |p.paths| &&
      (LoadNext(w'.fs, p, Ok).lpc.CloseAfterShortRead? <==> |cfg.blocks[p.paths[p.next]]| < |p.entry[p.next]|)
  {
    RunKeepsInv(cfg, w, acts);
    var w' := After(cfg, w, acts);
    assert ProcOk(cfg, w'.fs, w'.procs[pid]);
  }

  function OversizedRun(pid: Pid, d: Path, entry: Buffer): seq<Action> {
    [Spawn(pid, StartLoad([d], [entry])), Call(pid, Ok), Call(pid, Ok), Call(pid, Ok), Call(pid, Ok)]
  }

  /** The condition is needed: one load with an oversized buffer deletes a complete block. */
  lemma OversizedLoadDeletesBlock(cfg: Config, w: World, pid: Pid, d: Path, entry: Buffer)
    requires Inv(cfg, w) && pid !in w.procs && d in cfg.blocks && d in w.fs.dir
    requires |cfg.blocks[d]| < |entry|
    ensures Run(cfg, w, OversizedRun(pid, d, entry))
    ensures d !in After(cfg, w, OversizedRun(pid, d, entry)).fs.dir
  {
    var acts := OversizedRun(pid, d, entry);
    var w1 := Apply(cfg, w, acts[0]);
    var w2 := Apply(cfg, w1, acts[1]);
    var w3 := Apply(cfg, w2, acts[2]);
    var w4 := Apply(cfg, w3, acts[3]);
    var w5 := Apply(cfg, w4, acts[4]);
    var t1, t2, t3, t4 := acts[1..], acts[2..], acts[3..], acts[4..];
    assert t1[1..] == t2 && t2[1..] == t3 && t3[1..] == t4 && t4[1..] == [];
    assert Run(cfg, w5, []) && After(cfg, w5, []) == w5;
    assert Run(cfg, w4, t4) && After(cfg, w4, t4) == w5;
    assert Run(cfg, w3, t3) && After(cfg, w3, t3) == w5;
    assert Run(cfg, w2, t2) && After(cfg, w2, t2) == w5;
    assert Run(cfg, w1, t1) && After(cfg, w1, t1) == w5;
  }

  // ------------------------------------------------------ no temp file is left

  /** `t` is the temp file that process `pid` is working on. */
  ghost predicate Owns(w: World, pid: Pid, t: Path) {
    pid in w.procs && OwnsTmp(w.procs[pid]) && Tmp(w.procs[pid]) == t
  }

  /** Every name that is not a destination is a temp file somebody is still working on. */
  ghost predicate NoStrays(cfg: Config, w: World) {
    forall t :: t in w.fs.dir && t !in cfg.blocks ==> exists pid :: Owns(w, pid, t)
  }

  /** The process does not die, and its cleanup succeeds. */
  ghost predicate Careful(w: World, act: Action) {
    match act
    case Spawn(_, _) => true
    case Die(_) => false
    case Call(pid, a) => pid in w.procs && w.procs[pid].Storer? && w.procs[pid].spc.UnlinkTmp? ==> a.Ok?
  }

  ghost predicate CarefulRun(cfg: Config, w: World, acts: seq<Action>)
    requires Run(cfg, w, acts)
    decreases |acts|
  {
    acts == [] || (Careful(w, acts[0]) && CarefulRun(cfg, Apply(cfg, w, acts[0]), acts[1..]))
  }

  /** A name that is not a destination stays only while the storer goes on working on it, and appears only as its temp file. */
  lemma StoreTouchesItsTemp(cfg: Config, fs: Fs, p: Proc, a: Answer, t: Path)
    requires p.Storer? && StorerOk(cfg, fs, p) && StoreAnswer(fs, p, a) && (p.spc.UnlinkTmp? ==> a.Ok?)
    requires t !in cfg.blocks && t in StoreFs(fs, p, a).dir
    ensures t !in fs.dir || (OwnsTmp(p) && Tmp(p) == t) ==> OwnsTmp(StoreNext(p, a)) && Tmp(StoreNext(p, a)) == t
  {
  }

  lemma StoreLeavesNoStray(cfg: Config, w: World, pid: Pid, a: Answer, t: Path)
    requires Inv(cfg, w) && NoStrays(cfg, w) && Allowed(cfg, w, Call(pid, a)) && Careful(w, Call(pid, a))
    requires w.procs[pid].Storer? && t !in cfg.blocks && t in Apply(cfg, w, Call(pid, a)).fs.dir
    ensures exists q :: Owns(Apply(cfg, w, Call(pid, a)), q, t)
  {
    var p, w' := w.procs[pid], Apply(cfg, w, Call(pid, a));
    StoreTouchesItsTemp(cfg, w.fs, p, a, t);
    if t in w.fs.dir {
      var q :| Owns(w, q, t);
      assert Owns(w', q, t);
    } else {
      assert Owns(w', pid, t);
    }
  }

  lemma StepLeavesNoStray(cfg: Config, w: World, act: Action)
    requires Inv(cfg, w) && NoStrays(cfg, w) && Allowed(cfg, w, act) && Careful(w, act)
    ensures NoStrays(cfg, Apply(cfg, w, act))
  {
    var w' := Apply(cfg, w, act);
    forall t | t in w'.fs.dir && t !in cfg.blocks ensures exists q :: Owns(w', q, t) {
      if act.Call? && w.procs[act.pid].Storer? {
        StoreLeavesNoStray(cfg, w, act.pid, act.answer, t);
      } else {
        var q :| Owns(w, q, t);
        assert Owns(w', q, t);
      }
    }
  }

  /**
   A failed store removes its temp file: along every run in which nobody dies and every cleanup succeeds, whatever
   else fails, the only temp files are those being worked on; when no store is running there are none.
   */
  lemma {:induction false} NoTempIsLeftBehind(cfg: Config, w: World, acts: seq<Action>)
    requires Inv(cfg, w) && NoStrays(cfg, w) && Run(cfg, w, acts) && CarefulRun(cfg, w, acts)
    ensures NoStrays(cfg, After(cfg, w, acts))
    ensures (forall pid :: pid in After(cfg, w, acts).procs ==> !OwnsTmp(After(cfg, w, acts).procs[pid])) ==>
              After(cfg, w, acts).fs.dir.Keys <= cfg.blocks.Keys
    decreases |acts|
  {
    if acts != [] {
      StepKeepsInv(cfg, w, acts[0]);
      StepLeavesNoStray(cfg, w, acts[0]);
      NoTempIsLeftBehind(cfg, Apply(cfg, w, acts[0]), acts[1..]);
    }
  }
}
