/**
 * Reading a ninja build log, after tools/report_build_time_ninja.py.
 *
 * A log holds one record per output of every command of every build since the log was created. The reader groups
 * the outputs of one command, which share its hash and its times, and forgets what it has read whenever a record
 * shows that a new build has begun: its end time is earlier than that of the record before, or its command was
 * already seen with other times.
 */
module BuildLog {
  /** The text of a log field; the reader only compares it. */
  type Text(==)

  /** A line after splitting on tabs; a line that does not have five fields is Malformed. */
  datatype Line = Malformed | Fields(start: int, end: int, name: Text, hash: Text)

  /** A well-formed line with its times in seconds. */
  datatype Record = Record(start: real, end: real, name: Text, hash: Text)

  /** One entry of the reader's dictionary: a command and the outputs it produced. */
  datatype Command = Command(hash: Text, start: real, end: real, names: seq<Text>)

  datatype Result = UnrecognizedVersion | Read(commands: seq<Command>)

  const VERSION := "# ninja log v5\n"

  function Parse(line: Line): Record
    requires line.Fields?
  { Record(line.start as real / 1000.0, line.end as real / 1000.0, line.name, line.hash) }

  function Records(lines: seq<Line>): seq<Record> {
    if lines == [] then []
    else
      var rest := Records(lines[..|lines| - 1]);
      var last := lines[|lines| - 1];
      if last.Malformed? then rest else rest + [Parse(last)]
  }

  // ---- What it means to group records by command ----

  /** Where `hash` first occurs, or the number of records when it does not. */
  function FirstAt(recs: seq<Record>, hash: Text): (k: nat)
    ensures k <= |recs| && (k < |recs| ==> recs[k].hash == hash)
    ensures forall j :: 0 <= j < k ==> recs[j].hash != hash
  {
    if recs == [] then 0
    else
      var k := FirstAt(recs[..|recs| - 1], hash);
      if k < |recs| - 1 || recs[|recs| - 1].hash == hash then k else |recs|
  }

  /** The outputs recorded under `hash`, in the order of the log. */
  function NamesOf(recs: seq<Record>, hash: Text): seq<Text> {
    if recs == [] then []
    else
      var last := recs[|recs| - 1];
      NamesOf(recs[..|recs| - 1], hash) + (if last.hash == hash then [last.name] else [])
  }

  /** A command has all its outputs, in order, and the times of its first record. */
  ghost predicate Describes(c: Command, recs: seq<Record>) {
    var k := FirstAt(recs, c.hash);
    k < |recs| && c.start == recs[k].start && c.end == recs[k].end && c.names == NamesOf(recs, c.hash)
  }

  ghost predicate InOrder(commands: seq<Command>, recs: seq<Record>, i: nat, j: nat)
    requires i < |commands| && j < |commands|
  { FirstAt(recs, commands[i].hash) < FirstAt(recs, commands[j].hash) }

  /** `commands` lists every command of `recs` once, in the order in which they first appear. */
  ghost predicate Groups(commands: seq<Command>, recs: seq<Record>) {
    && (forall i: nat :: i < |commands| ==> Describes(commands[i], recs))
    && (forall i: nat, j: nat {:trigger InOrder(commands, recs, i, j)} :: i < j < |commands| ==> InOrder(commands, recs, i, j))
    && forall k: nat :: k < |recs| ==> Find(commands, recs[k].hash) < |commands|
  }

  /** Dictionary lookup: the position of `hash`, or the number of entries. */
  function Find(commands: seq<Command>, hash: Text): (i: nat)
    ensures i <= |commands| && (i < |commands| ==> commands[i].hash == hash)
    ensures forall j: nat :: j < i ==> commands[j].hash != hash
  {
    if commands == [] then 0
    else
      var i := Find(commands[..|commands| - 1], hash);
      if i < |commands| - 1 || commands[|commands| - 1].hash == hash then i else |commands|
  }

  /** The grouping of a sequence of records is unique. */
  lemma GroupingIsUnique(a: seq<Command>, b: seq<Command>, recs: seq<Record>)
    requires Groups(a, recs) && Groups(b, recs)
    ensures a == b
  {
    GroupsIsPrefix(a, b, recs, |a|);
    GroupsIsPrefix(b, a, recs, |b|);
  }

  lemma IsPresent(commands: seq<Command>, recs: seq<Record>, hash: Text)
    requires Groups(commands, recs) && FirstAt(recs, hash) < |recs|
    ensures Find(commands, hash) < |commands|
  {
    assert recs[FirstAt(recs, hash)].hash == hash;
  }

  /** After equal beginnings of two groupings, the next command of one is not among those of the other. */
  lemma NotEarlier(a: seq<Command>, b: seq<Command>, recs: seq<Record>, m: nat)
    requires Groups(a, recs) && Groups(b, recs) && m < |a| && m <= |b| && a[..m] == b[..m]
    ensures m <= Find(b, a[m].hash) < |b|
  {
    assert Describes(a[m], recs);
    IsPresent(b, recs, a[m].hash);
    forall j: nat | j < m ensures b[j].hash != a[m].hash {
      assert b[j] == b[..m][j] == a[j];
      assert InOrder(a, recs, j, m);
    }
  }

  lemma SameNext(a: seq<Command>, b: seq<Command>, recs: seq<Record>, m: nat)
    requires Groups(a, recs) && Groups(b, recs) && m < |a| && m <= |b| && a[..m] == b[..m]
    ensures m < |b| && a[m] == b[m]
  {
    NotEarlier(a, b, recs, m);
    NotEarlier(b, a, recs, m);
    var g, q := Find(b, a[m].hash), Find(a, b[m].hash);
    assert g > m ==> InOrder(b, recs, m, g);
    assert q > m ==> InOrder(a, recs, m, q);
    assert Describes(a[m], recs) && Describes(b[m], recs);
  }

  lemma {:induction false} GroupsIsPrefix(a: seq<Command>, b: seq<Command>, recs: seq<Record>, n: nat)
    requires Groups(a, recs) && Groups(b, recs) && n <= |a|
    ensures n <= |b| && a[..n] == b[..n]
  {
    if n > 0 {
      var m := n - 1;
      GroupsIsPrefix(a, b, recs, m);
      SameNext(a, b, recs, m);
      assert a[..n] == a[..m] + [a[m]] && b[..n] == b[..m] + [b[m]];
    }
  }

  // ---- One record ----

  lemma Appended(recs: seq<Record>, r: Record, hash: Text)
    ensures FirstAt(recs + [r], hash) ==
            if FirstAt(recs, hash) < |recs| || r.hash == hash then FirstAt(recs, hash) else |recs| + 1
    ensures NamesOf(recs + [r], hash) == NamesOf(recs, hash) + (if r.hash == hash then [r.name] else [])
  {
    assert (recs + [r])[..|recs|] == recs;
  }

  lemma NoNames(recs: seq<Record>, hash: Text)
    ensures NamesOf(recs, hash) == [] <==> FirstAt(recs, hash) == |recs|
  {
    if recs != [] {
      NoNames(recs[..|recs| - 1], hash);
    }
  }

  /** The entry for `hash` after one more record with that hash. */
  function Join(commands: seq<Command>, r: Record): (next: seq<Command>)
    requires Find(commands, r.hash) < |commands|
    ensures |next| == |commands| && forall i: nat :: i < |next| ==> next[i].hash == commands[i].hash
  {
    var g := Find(commands, r.hash);
    commands[g := commands[g].(names := commands[g].names + [r.name])]
  }

  function Begin(commands: seq<Command>, r: Record): seq<Command> {
    commands + [Command(r.hash, r.start, r.end, [r.name])]
  }

  lemma JoinDescribes(commands: seq<Command>, recs: seq<Record>, r: Record, i: nat)
    requires Groups(commands, recs) && Find(commands, r.hash) < |commands| && i < |commands|
    ensures Describes(Join(commands, r)[i], recs + [r])
  {
    var g := Find(commands, r.hash);
    assert Describes(commands[i], recs);
    Appended(recs, r, commands[i].hash);
    assert i < g ==> InOrder(commands, recs, i, g);
    assert g < i ==> InOrder(commands, recs, g, i);
  }

  lemma StaysInOrder(commands: seq<Command>, next: seq<Command>, recs: seq<Record>, r: Record, i: nat, j: nat)
    requires Groups(commands, recs) && i < j < |commands| <= |next|
    requires next[i].hash == commands[i].hash && next[j].hash == commands[j].hash
    ensures InOrder(next, recs + [r], i, j)
  {
    assert InOrder(commands, recs, i, j);
    assert Describes(commands[i], recs) && Describes(commands[j], recs);
    Appended(recs, r, next[i].hash);
    Appended(recs, r, next[j].hash);
  }

  lemma StaysPresent(commands: seq<Command>, next: seq<Command>, hash: Text)
    requires Find(commands, hash) < |commands| <= |next|
    requires forall i: nat :: i < |commands| ==> next[i].hash == commands[i].hash
    ensures Find(next, hash) < |next|
  {
    assert next[Find(commands, hash)].hash == hash;
  }

  /** Appending an output to a known command keeps the grouping. */
  lemma JoinKeepsGroups(commands: seq<Command>, recs: seq<Record>, r: Record)
    requires Groups(commands, recs) && Find(commands, r.hash) < |commands|
    ensures Groups(Join(commands, r), recs + [r])
  {
    var next := Join(commands, r);
    forall i: nat | i < |next| ensures Describes(next[i], recs + [r]) { JoinDescribes(commands, recs, r, i); }
    forall i: nat, j: nat | i < j < |next| ensures InOrder(next, recs + [r], i, j) {
      StaysInOrder(commands, next, recs, r, i, j);
    }
    forall k: nat | k < |recs + [r]| ensures Find(next, (recs + [r])[k].hash) < |next| {
      if k < |recs| { assert Find(commands, recs[k].hash) < |commands|; }
      StaysPresent(commands, next, (recs + [r])[k].hash);
    }
  }

  lemma IsNew(commands: seq<Command>, recs: seq<Record>, hash: Text)
    requires Groups(commands, recs) && Find(commands, hash) == |commands|
    ensures FirstAt(recs, hash) == |recs| && NamesOf(recs, hash) == []
  {
    NoNames(recs, hash);
    forall k: nat | k < |recs| ensures recs[k].hash != hash {
      assert Find(commands, recs[k].hash) < |commands|;
    }
  }

  lemma BeginDescribes(commands: seq<Command>, recs: seq<Record>, r: Record, i: nat)
    requires Groups(commands, recs) && Find(commands, r.hash) == |commands| && i <= |commands|
    ensures Describes(Begin(commands, r)[i], recs + [r])
  {
    IsNew(commands, recs, r.hash);
    Appended(recs, r, Begin(commands, r)[i].hash);
    assert i < |commands| ==> Describes(commands[i], recs);
  }

  lemma BeginIsLast(commands: seq<Command>, recs: seq<Record>, r: Record, i: nat)
    requires Groups(commands, recs) && Find(commands, r.hash) == |commands| && i < |commands|
    ensures InOrder(Begin(commands, r), recs + [r], i, |commands|)
  {
    IsNew(commands, recs, r.hash);
    assert Describes(commands[i], recs);
    Appended(recs, r, commands[i].hash);
    Appended(recs, r, r.hash);
  }

  /** Beginning an entry for an unknown command keeps the grouping. */
  lemma BeginKeepsGroups(commands: seq<Command>, recs: seq<Record>, r: Record)
    requires Groups(commands, recs) && Find(commands, r.hash) == |commands|
    ensures Groups(Begin(commands, r), recs + [r])
  {
    var next := Begin(commands, r);
    forall i: nat | i < |next| ensures Describes(next[i], recs + [r]) { BeginDescribes(commands, recs, r, i); }
    forall i: nat, j: nat | i < j < |next| ensures InOrder(next, recs + [r], i, j) {
      if j < |commands| {
        StaysInOrder(commands, next, recs, r, i, j);
      } else {
        BeginIsLast(commands, recs, r, i);
      }
    }
    forall k: nat | k < |recs + [r]| ensures Find(next, (recs + [r])[k].hash) < |next| {
      if k < |recs| {
        assert Find(commands, recs[k].hash) < |commands|;
        StaysPresent(commands, next, recs[k].hash);
      } else {
        assert next[|commands|].hash == r.hash;
      }
    }
  }

  // ---- Every record is listed exactly once ----

  /** Outputs listed under all commands together. */
  function Listed(commands: seq<Command>): nat {
    if commands == [] then 0 else Listed(commands[..|commands| - 1]) + |commands[|commands| - 1].names|
  }

  lemma {:induction false} ListedAfterUpdate(commands: seq<Command>, g: nat, c: Command)
    requires g < |commands|
    ensures Listed(commands[g := c]) + |commands[g].names| == Listed(commands) + |c.names|
  {
    var n := |commands| - 1;
    if g < n {
      assert commands[g := c][..n] == commands[..n][g := c];
      ListedAfterUpdate(commands[..n], g, c);
    } else {
      assert commands[g := c][..n] == commands[..n];
    }
  }

  lemma {:induction false} Regroup(recs: seq<Record>) returns (commands: seq<Command>)
    ensures Groups(commands, recs) && Listed(commands) == |recs|
  {
    if recs == [] {
      commands := [];
    } else {
      var front, r := recs[..|recs| - 1], recs[|recs| - 1];
      assert recs == front + [r];
      var before := Regroup(front);
      var g := Find(before, r.hash);
      if g < |before| {
        JoinKeepsGroups(before, front, r);
        ListedAfterUpdate(before, g, before[g].(names := before[g].names + [r.name]));
        commands := Join(before, r);
      } else {
        BeginKeepsGroups(before, front, r);
        assert Begin(before, r)[..|before|] == before;
        commands := Begin(before, r);
      }
    }
  }

  lemma {:induction false} NamesAt(recs: seq<Record>, k: nat)
    requires k < |recs|
    ensures
      var names, j := NamesOf(recs, recs[k].hash), |NamesOf(recs[..k], recs[k].hash)|;
      j < |names| && names[j] == recs[k].name
  {
    var front := recs[..|recs| - 1];
    if k < |recs| - 1 {
      assert front[..k] == recs[..k];
      NamesAt(front, k);
    }
  }

  /** Every record's output is listed under its command, after those of earlier records, and nothing else is listed. */
  lemma RecordIsListedOnce(commands: seq<Command>, recs: seq<Record>, k: nat) returns (i: nat)
    requires Groups(commands, recs) && k < |recs|
    ensures i < |commands| && commands[i].hash == recs[k].hash
    ensures
      var j := |NamesOf(recs[..k], recs[k].hash)|;
      j < |commands[i].names| && commands[i].names[j] == recs[k].name
    ensures Listed(commands) == |recs|
  {
    i := Find(commands, recs[k].hash);
    assert Describes(commands[i], recs);
    NamesAt(recs, k);
    var again := Regroup(recs);
    GroupingIsUnique(commands, again, recs);
  }

  // ---- Which records belong to the build that is shown ----

  /** A command that occurs twice has the same times. */
  ghost predicate Agree(a: Record, b: Record) {
    a.hash == b.hash ==> a.start == b.start && a.end == b.end
  }

  ghost predicate AllAgree(recs: seq<Record>, r: Record) {
    forall i: nat :: i < |recs| ==> Agree(recs[i], r)
  }

  /** Record `i` does not end before the record in front of it. */
  ghost predicate Onward(recs: seq<Record>, i: nat)
    requires 0 < i < |recs|
  { recs[i - 1].end <= recs[i].end }

  /** The records from `lo` up to `hi` can be one build. */
  ghost predicate Consistent(recs: seq<Record>, lo: nat, hi: nat)
    requires lo <= hi <= |recs|
  {
    && (forall i: nat, j: nat {:trigger Agree(recs[i], recs[j])} :: lo <= i < j < hi ==> Agree(recs[i], recs[j]))
    && forall i: nat {:trigger Onward(recs, i)} :: lo < i < hi ==> Onward(recs, i)
  }

  /** Record `n` can belong to the build that began at `lo`. */
  ghost predicate Fits(recs: seq<Record>, lo: nat, n: nat)
    requires lo <= n < |recs|
  {
    && (lo < n ==> Onward(recs, n))
    && AllAgree(recs[lo..n], recs[n])
  }

  lemma FitsIff(recs: seq<Record>, lo: nat, n: nat)
    requires lo <= n < |recs| && Consistent(recs, lo, n)
    ensures Consistent(recs, lo, n + 1) <==> Fits(recs, lo, n)
  {
    var r, build := recs[n], recs[lo..n];
    if Consistent(recs, lo, n + 1) {
      forall i: nat | i < |build| ensures Agree(build[i], r) { assert Agree(recs[lo + i], recs[n]); }
      assert lo < n ==> Onward(recs, n);
    }
    if Fits(recs, lo, n) {
      forall i: nat | lo <= i < n ensures Agree(recs[i], recs[n]) { assert Agree(build[i - lo], r); }
    }
  }

  /** Where the build shown after `n` records begins: a record that does not fit the build so far begins a new one. */
  ghost function LastCut(recs: seq<Record>, n: nat): (c: nat)
    requires n <= |recs|
    ensures c <= n && (n > 0 ==> c < n)
    ensures Consistent(recs, c, n)
  {
    if n == 0 then 0
    else
      var c := LastCut(recs, n - 1);
      if Consistent(recs, c, n) then c else n - 1
  }

  /** The dictionary's entry for a record's command, if it has one, has the times of the record. */
  ghost predicate Recognized(commands: seq<Command>, r: Record) {
    var g := Find(commands, r.hash);
    g < |commands| ==> commands[g].start == r.start && commands[g].end == r.end
  }

  /** What the dictionary knows of a record's command is what the build says of it. */
  lemma DictionaryKnows(commands: seq<Command>, build: seq<Record>, r: Record)
    requires Groups(commands, build) && Consistent(build, 0, |build|)
    ensures AllAgree(build, r) <==> Recognized(commands, r)
  {
    var g := Find(commands, r.hash);
    if g == |commands| {
      IsNew(commands, build, r.hash);
    } else {
      assert Describes(commands[g], build);
      var k := FirstAt(build, r.hash);
      forall i: nat | i < |build| && Agree(build[k], r) ensures Agree(build[i], r) {
        assert k < i ==> Agree(build[k], build[i]);
      }
    }
  }

  lemma SliceIsConsistent(recs: seq<Record>, lo: nat, n: nat)
    requires lo <= n <= |recs| && Consistent(recs, lo, n)
    ensures Consistent(recs[lo..n], 0, n - lo)
  {
    var build := recs[lo..n];
    forall i: nat, j: nat | i < j < n - lo ensures Agree(build[i], build[j]) { assert Agree(recs[lo + i], recs[lo + j]); }
    forall i: nat | 0 < i < n - lo ensures Onward(build, i) { assert Onward(recs, lo + i); }
  }

  /** Where the reader's dictionary begins after `n` records. */
  ghost function Begun(recs: seq<Record>, n: nat, showAll: bool): (c: nat)
    requires n <= |recs|
    ensures c <= n
  { if showAll then 0 else LastCut(recs, n) }

  /** The dictionary groups the records it should hold after `n` records of the log. */
  ghost predicate Holds(commands: seq<Command>, recs: seq<Record>, n: nat, showAll: bool)
    requires n <= |recs|
  { Groups(commands, recs[Begun(recs, n, showAll)..n]) }

  /** Whether the dictionary is thrown away before record `n`, as the reader decides it. */
  lemma ResetIff(commands: seq<Command>, recs: seq<Record>, n: nat)
    requires n < |recs| && Holds(commands, recs, n, false)
    ensures
      var back := n > 0 && recs[n].end < recs[n - 1].end;
      LastCut(recs, n + 1) == if back || !Recognized(commands, recs[n]) then n else LastCut(recs, n)
  {
    var c := LastCut(recs, n);
    SliceIsConsistent(recs, c, n);
    DictionaryKnows(commands, recs[c..n], recs[n]);
    FitsIff(recs, c, n);
  }

  /** Adds one record to the dictionary. */
  method AddRecord(commands: seq<Command>, r: Record, ghost recs: seq<Record>, ghost c: nat, ghost n: nat)
    returns (next: seq<Command>)
    requires c <= n < |recs| && r == recs[n] && Groups(commands, recs[c..n])
    ensures Groups(next, recs[c..n + 1])
  {
    ghost var build := recs[c..n];
    assert recs[c..n + 1] == build + [r];
    if Find(commands, r.hash) == |commands| {
      BeginKeepsGroups(commands, build, r);
      next := Begin(commands, r);
    } else {
      JoinKeepsGroups(commands, build, r);
      next := Join(commands, r);
    }
  }

  /** Throws the dictionary away when record `n` shows that a new build has begun. */
  method Reset(commands: seq<Command>, lastEnd: real, r: Record, showAll: bool, ghost recs: seq<Record>, ghost n: nat)
    returns (next: seq<Command>)
    requires n < |recs| && r == recs[n] && (n > 0 ==> lastEnd == recs[n - 1].end)
    requires Holds(commands, recs, n, showAll)
    ensures Groups(next, recs[Begun(recs, n + 1, showAll)..n])
  {
    next := commands;
    if !showAll {
      ResetIff(commands, recs, n);
    }
    assert recs[n..n] == [];
    if !showAll && r.end < lastEnd {
      next := [];
    }
    var g := Find(next, r.hash);
    if g < |next| && !showAll && (next[g].start != r.start || next[g].end != r.end) {
      next := [];
    }
  }

  method ReadRecord(commands: seq<Command>, lastEnd: real, r: Record, showAll: bool, ghost recs: seq<Record>, ghost n: nat)
    returns (next: seq<Command>)
    requires n < |recs| && r == recs[n] && (n > 0 ==> lastEnd == recs[n - 1].end)
    requires Holds(commands, recs, n, showAll)
    ensures Holds(next, recs, n + 1, showAll)
  {
    ghost var c := Begun(recs, n + 1, showAll);
    next := Reset(commands, lastEnd, r, showAll, recs, n);
    next := AddRecord(next, r, recs, c, n);
  }

  /** Reading one more line reads at most one more record of the log. */
  lemma NextRecord(lines: seq<Line>, i: nat, n: nat)
    requires i < |lines| && n <= |Records(lines)| && Records(lines[..i]) == Records(lines)[..n]
    ensures lines[i].Malformed? ==> Records(lines[..i + 1]) == Records(lines)[..n]
    ensures lines[i].Fields? ==>
              n < |Records(lines)| && Records(lines)[n] == Parse(lines[i]) && Records(lines[..i + 1]) == Records(lines)[..n + 1]
  {
    RecordsOfPrefix(lines, i + 1);
    assert lines[..i + 1][..i] == lines[..i];
  }

  lemma {:induction false} RecordsOfPrefix(lines: seq<Line>, i: nat)
    requires i <= |lines|
    ensures Records(lines[..i]) <= Records(lines)
    decreases |lines| - i
  {
    if i == |lines| {
      assert lines[..i] == lines;
    } else {
      RecordsOfPrefix(lines, i + 1);
      assert lines[..i + 1][..i] == lines[..i];
    }
  }

  /** The record of a line: its milliseconds as seconds, and its texts. */
  ghost predicate IsRecordOf(line: Line, r: Record) {
    line.Fields? && 1000.0 * r.start == line.start as real && 1000.0 * r.end == line.end as real && r.name == line.name && r.hash == line.hash
  }

  /** Every line with five fields is a record, after as many records as there are such lines before it. */
  lemma LineIsRecord(lines: seq<Line>, i: nat)
    requires i < |lines| && lines[i].Fields?
    ensures var n := |Records(lines[..i])|; n < |Records(lines)| && IsRecordOf(lines[i], Records(lines)[n])
  {
    var n := |Records(lines[..i])|;
    RecordsOfPrefix(lines, i);
    NextRecord(lines, i, n);
  }

  /** And every record is that of such a line. */
  lemma {:induction false} RecordIsLine(lines: seq<Line>, n: nat) returns (i: nat)
    requires n < |Records(lines)|
    ensures i < |lines| && |Records(lines[..i])| == n && IsRecordOf(lines[i], Records(lines)[n])
  {
    var last := |lines| - 1;
    if n < |Records(lines[..last])| {
      i := RecordIsLine(lines[..last], n);
      assert lines[..last][..i] == lines[..i];
    } else {
      i := last;
    }
  }

  /** Reads a log: with `showAll` every command ever recorded, otherwise those of the build that is shown. */
  method ReadTargets(header: string, lines: seq<Line>, showAll: bool) returns (r: Result)
    ensures r == UnrecognizedVersion <==> header != VERSION
    ensures r.Read? ==>
              var recs := Records(lines);
              Holds(r.commands, recs, |recs|, showAll)
  {
    if header != VERSION {
      return UnrecognizedVersion;
    }
    var commands: seq<Command> := [];
    var lastEnd := 0.0;
    ghost var recs := Records(lines);
    ghost var n := 0;
    for i := 0 to |lines|
      invariant n <= |recs| && Records(lines[..i]) == recs[..n]
      invariant n > 0 ==> lastEnd == recs[n - 1].end
      invariant Holds(commands, recs, n, showAll)
    {
      NextRecord(lines, i, n);
      if lines[i].Fields? {
        var rec := Parse(lines[i]);
        commands := ReadRecord(commands, lastEnd, rec, showAll, recs, n);
        lastEnd := rec.end;
        n := n + 1;
      }
    }
    assert lines[..|lines|] == lines;
    r := Read(commands);
  }

  // ---- What the cut means ----

  /** The build from cut `k` is consistent up to the next cut, and the record there does not fit it. */
  ghost predicate Closes(recs: seq<Record>, cuts: seq<nat>, k: nat)
    requires k + 1 < |cuts|
  {
    && cuts[k] < cuts[k + 1] < |recs|
    && Consistent(recs, cuts[k], cuts[k + 1])
    && !Consistent(recs, cuts[k], cuts[k + 1] + 1)
  }

  /** The log is divided into builds, each of which goes on for as long as it can. */
  ghost predicate Divides(recs: seq<Record>, cuts: seq<nat>) {
    && cuts != [] && cuts[0] == 0 && cuts[|cuts| - 1] < |recs|
    && (forall k: nat {:trigger Closes(recs, cuts, k)} :: k + 1 < |cuts| ==> Closes(recs, cuts, k))
    && Consistent(recs, cuts[|cuts| - 1], |recs|)
  }

  lemma {:induction false} CutStays(recs: seq<Record>, c: nat, m: nat)
    requires c < m <= |recs| && LastCut(recs, c + 1) == c && Consistent(recs, c, m)
    ensures LastCut(recs, m) == c
  {
    if m > c + 1 {
      CutStays(recs, c, m - 1);
    }
  }

  lemma {:induction false} CutAt(recs: seq<Record>, cuts: seq<nat>, k: nat)
    requires Divides(recs, cuts) && k < |cuts|
    ensures cuts[k] < |recs| && LastCut(recs, cuts[k] + 1) == cuts[k]
  {
    if k > 0 {
      CutAt(recs, cuts, k - 1);
      assert Closes(recs, cuts, k - 1);
      CutStays(recs, cuts[k - 1], cuts[k]);
    }
  }

  /** However the log is divided into builds that each go on for as long as they can, the last one is shown. */
  lemma LastBuildIsShown(recs: seq<Record>, cuts: seq<nat>)
    requires Divides(recs, cuts)
    ensures LastCut(recs, |recs|) == cuts[|cuts| - 1]
  {
    CutAt(recs, cuts, |cuts| - 1);
    CutStays(recs, cuts[|cuts| - 1], |recs|);
  }

  lemma {:induction false} CutSkips(recs: seq<Record>, b: nat, m: nat)
    requires 0 < b < m <= |recs| && LastCut(recs, b + 1) < b
    ensures LastCut(recs, m) == LastCut(recs, b + 1) || LastCut(recs, m) > b
  {
    if m > b + 1 {
      CutSkips(recs, b, m - 1);
    }
  }

  /**
   * A build that began at record `b` and runs to the end of the log is shown whole and alone exactly when its first
   * record does not fit the build shown before it.
   */
  lemma BuildIsShownIff(recs: seq<Record>, b: nat)
    requires 0 < b < |recs| && Consistent(recs, b, |recs|)
    ensures LastCut(recs, |recs|) == b <==> !Fits(recs, LastCut(recs, b), b)
  {
    FitsIff(recs, LastCut(recs, b), b);
    if Fits(recs, LastCut(recs, b), b) {
      CutSkips(recs, b, |recs|);
    } else {
      CutStays(recs, b, |recs|);
    }
  }

  /**
   * A build can lose its own first steps: it begins late enough not to look new, and a later step repeats a command of
   * the build before.
   */
  lemma BuildCanBeCutShort(f: Text, g: Text)
    requires f != g
    ensures
      var recs := [Record(0.0, 1.0, f, f), Record(0.0, 2.0, g, g), Record(1.0, 3.0, f, f)];
      Consistent(recs, 1, 3) && LastCut(recs, 3) == 2
  {
    var recs := [Record(0.0, 1.0, f, f), Record(0.0, 2.0, g, g), Record(1.0, 3.0, f, f)];
    assert LastCut(recs, 1) == 0;
    assert Consistent(recs, 0, 2);
    assert LastCut(recs, 2) == 0;
    assert !Agree(recs[0], recs[2]);
  }
}
