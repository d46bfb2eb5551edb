/** monitor_cmd: the loop that rebuilds command lines from chunks of standard input, keeps the
    watch table, and drops directories the kernel reports as moved or deleted.

    The kernel's answers to inotify.add_watch() are an input, consumed one per attempt. */
module FileMonitor {
  import opened Paths
  import opened Seqs
  import opened Framing
  import opened Strings
  import opened WatchTable

  /** add_watch() raises OSError; or returns a descriptor, after which the initial listing
      either works or raises because the directory is gone. */
  datatype Answer = NoWatch | Watching(wd: nat) | Vanished(wd: nat)

  datatype Status = Running | Finished | Rejected | Crashed

  datatype Monitor = Monitor(status: Status, stdin: string, table: Table, answers: seq<Answer>)

  function Fresh(answers: seq<Answer>): Monitor {
    Monitor(Running, "", EMPTY, answers)
  }

  ghost function RemoveBelow(m: Monitor, fname: string): Monitor {
    if Comparable(m.table, fname) then m.(table := Removed(m.table, fname))
    else m.(status := Crashed)
  }

  function AddWatch(m: Monitor, fname: string): Monitor {
    if m.answers == [] then m
    else
      var m' := m.(answers := m.answers[1..]);
      match m.answers[0]
      case NoWatch => m'
      case Watching(wd) => m'.(table := Added(m.table, fname, wd))
      case Vanished(wd) => m'.(table := Added(m.table, fname, wd), status := Crashed)
  }

  ghost function OnLine(m: Monitor, line: string): Monitor {
    if m.status != Running then m else
    match Parse(line)
    case Blank => m
    case Watch(Add(f)) => AddWatch(m, f)
    case Watch(Remove(f)) => RemoveBelow(m, f)
    case Quit => m.(status := Finished)
    case Invalid => m.(status := Rejected)
  }

  ghost function OnLines(m: Monitor, lines: seq<string>): Monitor {
    if lines == [] then m
    else OnLine(OnLines(m, lines[..|lines| - 1]), lines[|lines| - 1])
  }

  /** One read from standard input. */
  ghost function OnChunk(m: Monitor, chunk: string): Monitor {
    if m.status != Running then m
    else
      var data := m.stdin + chunk;
      OnLines(m.(stdin := Tail(data)), Lines(data))
  }

  /** One inotify event; selfGone tells a moved or deleted watched directory. */
  ghost function OnEvent(m: Monitor, wd: nat, selfGone: bool): Monitor {
    if m.status == Running && wd in m.table.names && selfGone
    then RemoveBelow(m, m.table.names[wd]) else m
  }

  ghost function OnChunks(m: Monitor, chunks: seq<string>): Monitor {
    if chunks == [] then m
    else OnChunk(OnChunks(m, chunks[..|chunks| - 1]), chunks[|chunks| - 1])
  }

  // ---- chunk independence ----

  lemma {:induction false} OnLinesConcat(m: Monitor, a: seq<string>, b: seq<string>)
    ensures OnLines(m, a + b) == OnLines(OnLines(m, a), b)
  {
    if b == [] {
      assert a + b == a;
    } else {
      var last := |b| - 1;
      OnLinesConcat(m, a, b[..last]);
      assert (a + b)[..|a + b| - 1] == a + b[..last];
    }
  }

  lemma {:induction false} OnLinesFirst(m: Monitor, line: string, rest: seq<string>)
    ensures OnLines(m, [line] + rest) == OnLines(OnLine(m, line), rest)
  {
    OnLinesConcat(m, [line], rest);
    assert OnLines(m, [line]) == OnLine(OnLines(m, []), line) by {
      assert [line][..0] == [];
    }
  }

  /** Commands read and write everything but the buffer. */
  lemma {:induction false} BufferApart(m: Monitor, stdin: string, lines: seq<string>)
    ensures OnLines(m.(stdin := stdin), lines) == OnLines(m, lines).(stdin := stdin)
    ensures OnLines(m, lines).stdin == m.stdin
    ensures m.status != Running ==> OnLines(m, lines) == m
  {
    if lines != [] {
      BufferApart(m, stdin, lines[..|lines| - 1]);
    }
  }

  function Concat(chunks: seq<string>): string {
    if chunks == [] then "" else Concat(chunks[..|chunks| - 1]) + chunks[|chunks| - 1]
  }

  /** However a stream is cut into reads, the program ends up where it would be if it had run on
      the newline-terminated lines of the whole stream; while it still runs, its buffer holds
      the unterminated tail. */
  lemma {:induction false} ChunksDoNotMatter(answers: seq<Answer>, chunks: seq<string>)
    ensures
      var whole := OnLines(Fresh(answers), Lines(Concat(chunks)));
      var m := OnChunks(Fresh(answers), chunks);
      && m == whole.(stdin := m.stdin)
      && (m.status == Running ==> m.stdin == Tail(Concat(chunks)))
  {
    if chunks != [] {
      var init, c := chunks[..|chunks| - 1], chunks[|chunks| - 1];
      ChunksDoNotMatter(answers, init);
      var done := Concat(init);
      LinesOfChunks(done, c);
      var start := Fresh(answers);
      var m := OnChunks(start, init);
      var data := Tail(done) + c;
      OnLinesConcat(start, Lines(done), Lines(data));
      BufferApart(OnLines(start, Lines(done)), m.stdin, Lines(data));
      if m.status == Running {
        BufferApart(m, Tail(data), Lines(data));
      }
    }
  }

  // ---- the watch table over whole runs ----

  datatype Input = Read(chunk: string) | Kernel(wd: nat, selfGone: bool)

  ghost function OnInput(m: Monitor, i: Input): Monitor {
    match i
    case Read(chunk) => OnChunk(m, chunk)
    case Kernel(wd, selfGone) => OnEvent(m, wd, selfGone)
  }

  ghost function Play(m: Monitor, inputs: seq<Input>): Monitor {
    if inputs == [] then m
    else OnInput(Play(m, inputs[..|inputs| - 1]), inputs[|inputs| - 1])
  }

  /** The kernel's answer to the addition on this line, if there is one, respects names. */
  ghost predicate HonestLine(m: Monitor, line: string) {
    m.status == Running && Parse(line).Watch? && Parse(line).cmd.Add? && m.answers != [] && !m.answers[0].NoWatch? ==>
      OneDescriptorPerName(m.table, Parse(line).cmd.path, m.answers[0].wd)
  }

  ghost predicate HonestLines(m: Monitor, lines: seq<string>) {
    forall k :: 0 <= k < |lines| ==> HonestLine(OnLines(m, lines[..k]), lines[k])
  }

  ghost predicate HonestInput(m: Monitor, i: Input) {
    m.status == Running && i.Read? ==>
      HonestLines(m.(stdin := Tail(m.stdin + i.chunk)), Lines(m.stdin + i.chunk))
  }

  lemma LineKeeps(m: Monitor, line: string)
    requires NamesAreKeys(m.table)
    ensures NamesAreKeys(OnLine(m, line).table)
    ensures Inverse(m.table) && HonestLine(m, line) ==> Inverse(OnLine(m, line).table)
  {
    var p := Parse(line);
    if m.status == Running && p.Watch? {
      if p.cmd.Add? && m.answers != [] && !m.answers[0].NoWatch? {
        AddKeeps(m.table, p.cmd.path, m.answers[0].wd);
      } else if p.cmd.Remove? && Comparable(m.table, p.cmd.path) {
        RemoveKeeps(m.table, p.cmd.path);
      }
    }
  }

  lemma {:induction false} LinesKeep(m: Monitor, lines: seq<string>)
    requires NamesAreKeys(m.table)
    ensures NamesAreKeys(OnLines(m, lines).table)
    ensures Inverse(m.table) && HonestLines(m, lines) ==> Inverse(OnLines(m, lines).table)
  {
    if lines != [] {
      var init := lines[..|lines| - 1];
      LinesKeep(m, init);
      LineKeeps(OnLines(m, init), lines[|lines| - 1]);
      assert forall k :: 0 <= k < |init| ==> init[..k] == lines[..k];
    }
  }

  lemma InputKeeps(m: Monitor, i: Input)
    requires NamesAreKeys(m.table)
    ensures NamesAreKeys(OnInput(m, i).table)
    ensures Inverse(m.table) && HonestInput(m, i) ==> Inverse(OnInput(m, i).table)
  {
    match i
    case Read(chunk) =>
      var data := m.stdin + chunk;
      LinesKeep(m.(stdin := Tail(data)), Lines(data));
    case Kernel(wd, _) =>
      if wd in m.table.names && Comparable(m.table, m.table.names[wd]) {
        RemoveKeeps(m.table, m.table.names[wd]);
      }
  }

  /** Whatever the kernel answers and reports, every live descriptor's name is a key of
      wds_by_fname; if it gives each watched name one descriptor, the two maps stay inverse. */
  lemma {:induction false} TableInvariant(answers: seq<Answer>, inputs: seq<Input>)
    ensures NamesAreKeys(Play(Fresh(answers), inputs).table)
    ensures (forall k :: 0 <= k < |inputs| ==> HonestInput(Play(Fresh(answers), inputs[..k]), inputs[k]))
            ==> Inverse(Play(Fresh(answers), inputs).table)
  {
    if inputs != [] {
      var init := inputs[..|inputs| - 1];
      TableInvariant(answers, init);
      InputKeeps(Play(Fresh(answers), init), inputs[|inputs| - 1]);
      assert forall k :: 0 <= k < |init| ==> init[..k] == inputs[..k];
    }
  }

  // ---- what the kernel reports ----

  /** The name lies at or below the directory, or is the directory. */
  predicate Inside(n: string, dir: string) {
    Normal(dir) && Comps(dir) <= Comps(n)
  }

  lemma NamesAreWatched(t: Table, fname: string)
    requires Inverse(t)
    ensures Comparable(t, fname) <==> forall n :: n in t.wds ==> Absolute(n) == Absolute(fname)
  {
    if Comparable(t, fname) {
      forall n | n in t.wds ensures Absolute(n) == Absolute(fname) {
        assert t.wds[n] in t.names && t.names[t.wds[n]] == n;
      }
    }
  }

  /** A watched directory that is moved or deleted leaves the table together with everything below it;
      all other watches keep their descriptors, and the process goes on.  It crashes exactly when
      absolute and relative names are mixed. */
  lemma GoneDirectory(m: Monitor, wd: nat)
    requires m.status == Running && Inverse(m.table) && wd in m.table.names
    ensures
      var p, m' := m.table.names[wd], OnInput(m, Kernel(wd, true));
      && (m'.status == Crashed <==> exists n :: n in m.table.wds && Absolute(n) != Absolute(p))
      && (m'.status != Crashed ==>
            && m'.status == Running && m'.stdin == m.stdin && m'.answers == m.answers && Inverse(m'.table)
            && (forall n :: n in m'.table.wds <==> n in m.table.wds && !Inside(n, p))
            && (forall n :: n in m'.table.wds ==> m'.table.wds[n] == m.table.wds[n]))
  {
    var p := m.table.names[wd];
    NamesAreWatched(m.table, p);
    if Comparable(m.table, p) {
      RemovalIsSubtree(m.table, p);
      RemoveKeeps(m.table, p);
    }
  }

  /** The effect of any kernel event: only the loss of a watched directory has one. */
  ghost predicate AsReported(m: Monitor, m': Monitor, wd: nat, selfGone: bool) {
    && (!selfGone || wd !in m.table.names ==> m' == m)
    && (selfGone && wd in m.table.names ==>
          var p := m.table.names[wd];
          && (m'.status == Running <==> forall n :: n in m.table.wds ==> Absolute(n) == Absolute(p))
          && (m'.status == Running ==> forall n :: n in m'.table.wds <==> n in m.table.wds && !Inside(n, p)))
  }

  lemma EventReported(m: Monitor, wd: nat, selfGone: bool)
    requires m.status == Running && Inverse(m.table)
    ensures AsReported(m, OnInput(m, Kernel(wd, selfGone)), wd, selfGone)
  {
    if selfGone && wd in m.table.names {
      GoneDirectory(m, wd);
    }
  }

  lemma PlayLast(m: Monitor, inputs: seq<Input>, i: Input)
    ensures Play(m, inputs + [i]) == OnInput(Play(m, inputs), i)
  {
    assert (inputs + [i])[..|inputs|] == inputs;
  }

  /** Over whole runs: a kernel event has that effect on every process that is still running, as long as
      the kernel gives each name one descriptor. */
  lemma KernelEvent(answers: seq<Answer>, inputs: seq<Input>, wd: nat, selfGone: bool)
    requires forall k :: 0 <= k < |inputs| ==> HonestInput(Play(Fresh(answers), inputs[..k]), inputs[k])
    requires Play(Fresh(answers), inputs).status == Running
    ensures
      AsReported(Play(Fresh(answers), inputs), Play(Fresh(answers), inputs + [Kernel(wd, selfGone)]), wd, selfGone)
  {
    TableInvariant(answers, inputs);
    PlayLast(Fresh(answers), inputs, Kernel(wd, selfGone));
    EventReported(Play(Fresh(answers), inputs), wd, selfGone);
  }

  // ---- when the process ends ----

  /** The path on a line: what is left of the rest of it without line breaks at its ends. */
  function PathOn(line: string): string
    requires line != ""
  {
    Strip(line[1..], LINE_BREAKS)
  }

  /** A line ends a running process in exactly these cases: "q" quits, any other sign than "+" and "-"
      is refused, a directory that vanishes while it is listed crashes it, and so does the removal of
      a name when another kind of name is watched. */
  lemma LineEnds(m: Monitor, line: string)
    requires m.status == Running
    ensures OnLine(m, line).status == Finished <==> line != "" && line[0] == 'q'
    ensures OnLine(m, line).status == Rejected <==> line != "" && line[0] !in {'+', '-', 'q'}
    ensures
      OnLine(m, line).status == Crashed <==>
      line != "" &&
      ((line[0] == '+' && m.answers != [] && m.answers[0].Vanished?) ||
       (line[0] == '-' && exists wd :: wd in m.table.names && Absolute(m.table.names[wd]) != Absolute(PathOn(line))))
  {
  }

  /** What a line does to a process that goes on: "+" enters the path under the descriptor that the
      kernel answers, "-" takes it out with everything below it, and an empty line does nothing. */
  lemma LineEffect(m: Monitor, line: string)
    requires m.status == Running && OnLine(m, line).status == Running && Inverse(m.table)
    ensures line == "" ==> OnLine(m, line) == m
    ensures
      line != "" && line[0] == '+' && m.answers != [] && m.answers[0].Watching? ==>
        var m' := OnLine(m, line);
        && m'.table.wds == m.table.wds[PathOn(line) := m.answers[0].wd]
        && m'.table.names == m.table.names[m.answers[0].wd := PathOn(line)] && m'.answers == m.answers[1..]
    ensures
      line != "" && line[0] == '+' && m.answers != [] && m.answers[0].NoWatch? ==>
        OnLine(m, line).table == m.table && OnLine(m, line).answers == m.answers[1..]
    ensures
      line != "" && line[0] == '-' ==>
        var m' := OnLine(m, line);
        forall n :: n in m'.table.wds <==> n in m.table.wds && !Inside(n, PathOn(line))
  {
    if line != "" && line[0] == '-' {
      RemovalIsSubtree(m.table, PathOn(line));
    }
  }

  // ---- the program ----

  class FileMonitorProcess {
    var status: Status
    var stdinData: string
    var wdsByFname: map<string, nat>
    var fnamesByWd: map<nat, string>
    var order: seq<nat>  // the keys of fnames_by_wd, in insertion order
    var answers: seq<Answer>

    ghost predicate Valid()
      reads this
    {
      forall wd :: wd in order <==> wd in fnamesByWd
    }

    ghost function View(): Monitor
      reads this
    {
      Monitor(status, stdinData, Table(wdsByFname, fnamesByWd), answers)
    }

    constructor (answers: seq<Answer>)
      ensures Valid() && View() == Fresh(answers)
    {
      status, stdinData, wdsByFname, fnamesByWd, order := Running, "", map[], map[], [];
      this.answers := answers;
    }

    /** fnames_by_wd.pop(wd) and wds_by_fname.pop(wd_fname), either of which may be absent. */
    method Pop(wd: nat, wdFname: string)
      requires Valid()
      modifies `wdsByFname, `fnamesByWd, `order
      ensures Valid()
      ensures wdsByFname == old(wdsByFname) - {wdFname} && fnamesByWd == old(fnamesByWd) - {wd}
    {
      fnamesByWd := fnamesByWd - {wd};
      order := Without(order, wd);
      wdsByFname := wdsByFname - {wdFname};
    }

    /** remove_watch_and_subwatches(): a loop over a copy of the items of fnames_by_wd. */
    method RemoveWatchAndSubwatches(fname: string)
      requires Valid() && status == Running
      modifies `wdsByFname, `fnamesByWd, `order, `status
      ensures Valid()
      ensures if old(Comparable(View().table, fname)) then View() == old(RemoveBelow(View(), fname))
              else status == Crashed
    {
      ghost var t := Table(wdsByFname, fnamesByWd);
      var items, names := order, fnamesByWd;
      for k := 0 to |items|
        invariant Valid() && status == Running
        invariant ComparableUpTo(t, fname, items[..k])
        invariant Table(wdsByFname, fnamesByWd) == RemovedUpTo(t, fname, items[..k])
      {
        var wd := items[k];
        var wdFname := names[wd];
        RemovedNext(t, fname, items, k);
        if Absolute(wdFname) != Absolute(fname) {
          status := Crashed;
          return;
        }
        if CommonPath(fname, wdFname) == fname {
          Pop(wd, wdFname);
        }
      }
      assert items[..|items|] == items;
      RemovedAll(t, fname, items);
    }

    /** One inotify event, as far as it concerns the table. */
    method HandleEvent(wd: nat, selfGone: bool)
      requires Valid() && status == Running
      modifies this
      ensures Valid()
      ensures status == old(OnEvent(View(), wd, selfGone)).status
      ensures status == Running ==> View() == old(OnEvent(View(), wd, selfGone))
    {
      if wd in fnamesByWd {
        if selfGone {
          RemoveWatchAndSubwatches(fnamesByWd[wd]);
        }
      }
    }

    /** One pass of the read branch of the main loop. */
    method ReadStdin(chunk: string)
      requires Valid() && status == Running
      modifies this
      ensures Valid()
      ensures status == old(OnChunk(View(), chunk)).status
      ensures status == Running ==> View() == old(OnChunk(View(), chunk))
    {
      stdinData := stdinData + chunk;
      ghost var tail := Tail(stdinData);
      ghost var target := OnChunk(old(View()), chunk);
      while NL in stdinData && status == Running
        invariant Valid()
        invariant if status == Running then ReadsOn(View(), tail, target) else target.status == status
        decreases |stdinData|, status == Running
      {
        var index := Find(stdinData);
        var line := stdinData[..index];
        ghost var m := View();
        ReadsOnLine(m, tail, target, index);
        stdinData := stdinData[index + 1..];
        Dispatch(line);
      }
      if status == Running {
        NoNewline(stdinData);
      }
    }

    /** The dispatch on one line. */
    method Dispatch(line: string)
      requires Valid() && status == Running
      modifies this
      ensures Valid()
      ensures status == old(OnLine(View(), line)).status
      ensures status == Running ==> View() == old(OnLine(View(), line))
      ensures stdinData == old(stdinData)
    {
      match Parse(line)
      case Blank =>
      case Watch(Add(fname)) =>
        if answers != [] {
          var answer := answers[0];
          answers := answers[1..];
          if !answer.NoWatch? {
            wdsByFname := wdsByFname[fname := answer.wd];
            if answer.wd !in fnamesByWd {
              order := order + [answer.wd];
            }
            fnamesByWd := fnamesByWd[answer.wd := fname];
            if answer.Vanished? {
              status := Crashed;
            }
          }
        }
      case Watch(Remove(fname)) => RemoveWatchAndSubwatches(fname);
      case Quit => status := Finished;
      case Invalid => status := Rejected;
    }
  }

  /** The loop still has the lines of its buffer to run before it reaches the target. */
  ghost predicate ReadsOn(m: Monitor, tail: string, target: Monitor) {
    Tail(m.stdin) == tail && target == OnLines(m.(stdin := tail), Lines(m.stdin))
  }

  lemma OnLineBuffer(m: Monitor, line: string, stdin: string)
    ensures OnLine(m.(stdin := stdin), line) == OnLine(m, line).(stdin := stdin)
  {
  }

  lemma ReadsOnLine(m: Monitor, tail: string, target: Monitor, index: nat)
    requires index < |m.stdin| && m.stdin[index] == NL && NL !in m.stdin[..index]
    requires m.status == Running && ReadsOn(m, tail, target)
    ensures
      var m' := OnLine(m.(stdin := m.stdin[index + 1..]), m.stdin[..index]);
      if m'.status == Running then ReadsOn(m', tail, target) else target.status == m'.status
  {
    var line, rest := m.stdin[..index], m.stdin[index + 1..];
    assert m.stdin == line + [NL] + rest;
    LinesAfterNewline(line, rest);
    SplitSeparatorFree(line, NL);
    OnLinesFirst(m.(stdin := tail), line, Lines(rest));
    OnLineBuffer(m, line, tail);
    OnLineBuffer(m, line, rest);
    var m' := OnLine(m.(stdin := rest), line);
    assert target == OnLines(m'.(stdin := tail), Lines(rest));
    BufferApart(m', tail, Lines(rest));
  }

  method Find(s: string) returns (index: nat)
    requires NL in s
    ensures index < |s| && s[index] == NL && NL !in s[..index]
  {
    index := 0;
    while s[index] != NL
      invariant index < |s| && NL !in s[..index]
      decreases |s| - index
    {
      index := index + 1;
    }
  }

  lemma NoNewline(s: string)
    requires NL !in s
    ensures Lines(s) == [] && Tail(s) == s
  {
    SplitSeparatorFree(s, NL);
  }
}
