/** From the browser to the watch table: a consumer's stream to one appserver, the line protocol
    and the monitor process composed. */
module MonitorConvergence {
  import opened Options
  import opened Paths
  import opened Seqs
  import opened MonitorConsumer
  import opened Framing
  import opened WatchTable
  import opened FileMonitor

  /** What file_monitor_handler makes of a websocket frame: a command, or something it does not
      forward (a heartbeat, binary data, JSON it does not know). */
  datatype Frame = Act(cmd: Command) | Ignored

  /** The commands websock_loop() writes for a sequence of frames, in order. */
  function CommandsOf(fs: seq<Frame>): seq<Command> {
    if fs == [] then []
    else CommandsOf(fs[..|fs| - 1]) + (match fs[|fs| - 1] case Act(c) => [c] case Ignored => [])
  }

  // ---- what commands ask for ----

  /** The commands that lines carry. */
  function CommandsIn(lines: seq<string>): seq<Command> {
    if lines == [] then []
    else CommandsIn(lines[..|lines| - 1]) + CommandIn(lines[|lines| - 1])
  }

  function CommandIn(line: string): seq<Command> {
    match Parse(line)
    case Watch(c) => [c]
    case _ => []
  }

  /** The directories watched after some commands, when the directories that can be watched at all
      are the given ones. */
  ghost function Fold(cs: seq<Command>, dirs: set<string>): set<string> {
    if cs == [] then {} else Apply(Fold(cs[..|cs| - 1], dirs), cs[|cs| - 1], dirs)
  }

  ghost function Apply(w: set<string>, c: Command, dirs: set<string>): set<string> {
    match c
    case Add(p) => if p in dirs then w + {p} else w
    case Remove(p) => set q | q in w && !AtOrBelow(q, p)
  }

  predicate AtOrBelow(q: string, p: string) {
    Normal(p) && Comps(p) <= Comps(q)
  }

  /** What one frame means to the process that reads its line: its command, if the path survives the
      line protocol, and otherwise whatever the broken line carries. */
  function Meaning(f: Frame): seq<Command> {
    match f
    case Ignored => []
    case Act(c) => CommandsIn(Lines(Encode(c)))
  }

  function Meanings(fs: seq<Frame>): seq<Command> {
    if fs == [] then [] else Meanings(fs[..|fs| - 1]) + Meaning(fs[|fs| - 1])
  }

  /** What the browser means. */
  ghost function Watched(fs: seq<Frame>, dirs: set<string>): set<string> {
    Fold(Meanings(fs), dirs)
  }

  // ---- the last effect that matters ----

  /** The position of the last effect, or -1. */
  function LastEffect(es: seq<Option<bool>>): (d: int)
    ensures -1 <= d < |es|
    ensures d >= 0 ==> es[d].Some?
    ensures forall i :: d < i < |es| ==> es[i].None?
  {
    if es == [] then -1
    else if es[|es| - 1].Some? then |es| - 1
    else LastEffect(es[..|es| - 1])
  }

  /** What some effects come to: the last one decides. */
  function Net(es: seq<Option<bool>>): Option<bool> {
    if LastEffect(es) < 0 then None else es[LastEffect(es)]
  }

  lemma NetConcat(a: seq<Option<bool>>, b: seq<Option<bool>>)
    ensures Net(a + b) == if Net(b).Some? then Net(b) else Net(a)
  {
    var d, e := LastEffect(b), LastEffect(a + b);
    assert d >= 0 ==> (a + b)[|a| + d] == b[d];
    assert e >= |a| ==> (a + b)[e] == b[e - |a|];
    assert LastEffect(a) >= 0 ==> (a + b)[LastEffect(a)] == a[LastEffect(a)];
    assert 0 <= e < |a| ==> (a + b)[e] == a[e];
  }

  /** A stream whose last copies come in order has the net effect of what it copies. */
  lemma SameNet(es: seq<Option<bool>>, es': seq<Option<bool>>, t: seq<nat>)
    requires OrderedUpTo(t, |es|) && |es'| == |t|
    requires forall i :: 0 <= i < |t| ==> t[i] < |es| && es'[i] == es[t[i]]
    ensures Net(es') == Net(es)
  {
    var d := LastEffect(es);
    var p := if d < 0 then -1 else LastPos(t, d);
    forall i | p < i < |t| ensures es'[i].None? {
      assert LastPos(t, t[i]) >= i;
    }
  }

  /** What a command does to whether q is watched: sets it, clears it, or leaves it. */
  function CommandEffect(c: Command, q: string): Option<bool> {
    match c
    case Add(p) => if p == q then Some(true) else None
    case Remove(p) => if AtOrBelow(q, p) then Some(false) else None
  }

  function CommandEffects(cs: seq<Command>, q: string): (es: seq<Option<bool>>)
    ensures |es| == |cs|
    ensures forall i :: 0 <= i < |cs| ==> es[i] == CommandEffect(cs[i], q)
  {
    seq(|cs|, i requires 0 <= i < |cs| => CommandEffect(cs[i], q))
  }

  lemma ApplyEffect(w: set<string>, c: Command, dirs: set<string>, q: string)
    requires q in w ==> q in dirs
    ensures
      q in Apply(w, c, dirs) <==>
      match CommandEffect(c, q) case Some(b) => b && q in dirs case None => q in w
  {
  }

  lemma {:induction false} FoldByNet(cs: seq<Command>, dirs: set<string>, q: string)
    ensures q in Fold(cs, dirs) <==> Net(CommandEffects(cs, q)) == Some(true) && q in dirs
  {
    if cs != [] {
      var init, c := cs[..|cs| - 1], cs[|cs| - 1];
      FoldByNet(init, dirs, q);
      ApplyEffect(Fold(init, dirs), c, dirs, q);
      assert CommandEffects(cs, q) == CommandEffects(init, q) + [CommandEffect(c, q)];
      NetConcat(CommandEffects(init, q), [CommandEffect(c, q)]);
    }
  }

  function FrameEffect(f: Frame, q: string): Option<bool> {
    Net(CommandEffects(Meaning(f), q))
  }

  function FrameEffects(fs: seq<Frame>, q: string): (es: seq<Option<bool>>)
    ensures |es| == |fs|
    ensures forall i :: 0 <= i < |fs| ==> es[i] == FrameEffect(fs[i], q)
  {
    if fs == [] then [] else FrameEffects(fs[..|fs| - 1], q) + [FrameEffect(fs[|fs| - 1], q)]
  }

  lemma EffectsOfBoth(a: seq<Command>, b: seq<Command>, q: string)
    ensures CommandEffects(a + b, q) == CommandEffects(a, q) + CommandEffects(b, q)
  {
  }

  lemma NetSnoc(es: seq<Option<bool>>, e: Option<bool>)
    ensures Net(es + [e]) == if e.Some? then e else Net(es)
  {
    NetConcat(es, [e]);
  }

  lemma {:induction false} MeaningsNet(fs: seq<Frame>, q: string)
    ensures Net(CommandEffects(Meanings(fs), q)) == Net(FrameEffects(fs, q))
  {
    if fs != [] {
      var init, f := fs[..|fs| - 1], fs[|fs| - 1];
      MeaningsNet(init, q);
      EffectsOfBoth(Meanings(init), Meaning(f), q);
      NetConcat(CommandEffects(Meanings(init), q), CommandEffects(Meaning(f), q));
      NetSnoc(FrameEffects(init, q), FrameEffect(f, q));
    }
  }

  /** A directory is watched just if the last frame that settles it adds it, and it can be watched. */
  lemma WatchedByLastDecision(fs: seq<Frame>, dirs: set<string>, q: string)
    ensures q in Watched(fs, dirs) <==> Net(FrameEffects(fs, q)) == Some(true) && q in dirs
  {
    FoldByNet(Meanings(fs), dirs, q);
    MeaningsNet(fs, q);
  }

  /** The frames behind a stream of arrival numbers. */
  function Delivered(browser: seq<Frame>, t: seq<nat>): (fs: seq<Frame>)
    ensures |fs| == |t|
    ensures forall i :: 0 <= i < |t| && t[i] < |browser| ==> fs[i] == browser[t[i]]
  {
    seq(|t|, i requires 0 <= i < |t| => if t[i] < |browser| then browser[t[i]] else Ignored)
  }

  lemma DeliveredEffects(browser: seq<Frame>, t: seq<nat>, q: string)
    requires forall k :: k in t ==> k < |browser|
    ensures
      forall i :: 0 <= i < |t| ==>
        t[i] < |browser| && FrameEffects(Delivered(browser, t), q)[i] == FrameEffects(browser, q)[t[i]]
  {
    forall i | 0 <= i < |t|
      ensures t[i] < |browser| && FrameEffects(Delivered(browser, t), q)[i] == FrameEffects(browser, q)[t[i]]
    {
      assert t[i] in t;
      assert Delivered(browser, t)[i] == browser[t[i]];
    }
  }

  lemma SameForEach(browser: seq<Frame>, t: seq<nat>, dirs: set<string>, q: string)
    requires OrderedUpTo(t, |browser|)
    requires forall k :: k in t ==> k < |browser|
    ensures q in Watched(Delivered(browser, t), dirs) <==> q in Watched(browser, dirs)
  {
    DeliveredEffects(browser, t, q);
    SameNet(FrameEffects(browser, q), FrameEffects(Delivered(browser, t), q), t);
    WatchedByLastDecision(browser, dirs, q);
    WatchedByLastDecision(Delivered(browser, t), dirs, q);
  }

  /** Duplicates and overtaking do not show: a stream whose last copies are in order has the
      meaning of the sequence they were taken from. */
  lemma OrderedStreamsAgree(browser: seq<Frame>, t: seq<nat>, dirs: set<string>)
    requires OrderedUpTo(t, |browser|)
    requires forall k :: k in t ==> k < |browser|
    ensures Watched(Delivered(browser, t), dirs) == Watched(browser, dirs)
  {
    var ours, theirs := Watched(Delivered(browser, t), dirs), Watched(browser, dirs);
    forall q ensures q in ours <==> q in theirs {
      SameForEach(browser, t, dirs, q);
    }
  }

  // ---- one appserver's monitor process ----

  /** The directories are the given ones, and the kernel gives each watched one one descriptor. */
  ghost predicate Cooperates(m: Monitor, line: string, dirs: set<string>) {
    m.status == Running && Parse(line).Watch? && Parse(line).cmd.Add? ==>
      var f := Parse(line).cmd.path;
      m.answers != [] &&
      if f in dirs then m.answers[0].Watching? && OneDescriptorPerName(m.table, f, m.answers[0].wd)
      else m.answers[0].NoWatch?
  }

  ghost predicate CooperatesOn(m: Monitor, lines: seq<string>, dirs: set<string>) {
    forall k :: 0 <= k < |lines| ==> Cooperates(OnLines(m, lines[..k]), lines[k], dirs)
  }

  lemma CooperatesBefore(m: Monitor, lines: seq<string>, dirs: set<string>)
    requires CooperatesOn(m, lines, dirs) && lines != []
    ensures CooperatesOn(m, lines[..|lines| - 1], dirs)
    ensures Cooperates(OnLines(m, lines[..|lines| - 1]), lines[|lines| - 1], dirs)
  {
    var init := lines[..|lines| - 1];
    assert forall k :: 0 <= k < |init| ==> init[..k] == lines[..k] && init[k] == lines[k];
  }

  ghost predicate Mirrors(m: Monitor, w: set<string>) {
    Inverse(m.table) && m.table.wds.Keys == w
  }

  ghost function ApplyLine(w: set<string>, line: string, dirs: set<string>): set<string> {
    match Parse(line)
    case Watch(c) => Apply(w, c, dirs)
    case _ => w
  }

  lemma MirrorsLine(m: Monitor, w: set<string>, line: string, dirs: set<string>)
    requires Mirrors(m, w) && m.status == Running && Cooperates(m, line, dirs) && OnLine(m, line).status == Running
    ensures Mirrors(OnLine(m, line), ApplyLine(w, line, dirs))
  {
    match Parse(line)
    case Watch(Add(p)) =>
      if p in dirs {
        AddKeeps(m.table, p, m.answers[0].wd);
      }
    case Watch(Remove(p)) =>
      RemovalIsSubtree(m.table, p);
      RemoveKeeps(m.table, p);
    case _ =>
  }

  lemma FoldOne(lines: seq<string>, dirs: set<string>)
    requires lines != []
    ensures
      Fold(CommandsIn(lines), dirs) ==
      ApplyLine(Fold(CommandsIn(lines[..|lines| - 1]), dirs), lines[|lines| - 1], dirs)
  {
    var cs := CommandsIn(lines[..|lines| - 1]);
    match Parse(lines[|lines| - 1])
    case Watch(c) => assert (cs + [c])[..|cs|] == cs;
    case _ => assert cs + [] == cs;
  }

  /** A process that is still running watches what the lines it has read ask for. */
  lemma {:induction false} TableFollows(answers: seq<Answer>, lines: seq<string>, dirs: set<string>)
    requires CooperatesOn(Fresh(answers), lines, dirs)
    ensures
      var m := OnLines(Fresh(answers), lines);
      m.status == Running ==> Mirrors(m, Fold(CommandsIn(lines), dirs))
  {
    if lines != [] {
      var init, line := lines[..|lines| - 1], lines[|lines| - 1];
      CooperatesBefore(Fresh(answers), lines, dirs);
      TableFollows(answers, init, dirs);
      FoldOne(lines, dirs);
      var before := OnLines(Fresh(answers), init);
      if OnLine(before, line).status == Running {
        MirrorsLine(before, Fold(CommandsIn(init), dirs), line, dirs);
      }
    }
  }

  // ---- from frames to lines ----

  lemma {:induction false} CommandsInBoth(a: seq<string>, b: seq<string>, both: seq<string>)
    requires both == a + b
    ensures CommandsIn(both) == CommandsIn(a) + CommandsIn(b)
    decreases b
  {
    if b == [] {
      ConcatNone(a, b);
      ConcatNone(CommandsIn(a), CommandsIn(b));
    } else {
      var init, last := b[..|b| - 1], CommandIn(b[|b| - 1]);
      ConcatInit(a, b, both);
      CommandsInBoth(a, init, both[..|both| - 1]);
      assert CommandsIn(both) == CommandsIn(a) + CommandsIn(init) + last;
      ConcatAssoc(CommandsIn(a), CommandsIn(init), last);
    }
  }

  /** One more frame adds its encoding. */
  lemma EncodingGrows(fs: seq<Frame>)
    requires fs != []
    ensures
      EncodeAll(CommandsOf(fs)) ==
      EncodeAll(CommandsOf(fs[..|fs| - 1])) +
      (match fs[|fs| - 1] case Act(c) => Encode(c) case Ignored => "")
  {
    var cs := CommandsOf(fs[..|fs| - 1]);
    match fs[|fs| - 1]
    case Act(c) =>
      EncodeConcat(cs, [c], cs + [c]);
      assert EncodeAll([c]) == Encode(c) + EncodeAll([c][1..]);
    case Ignored => assert cs + [] == cs;
  }

  /** The lines that the commands of some frames are written as carry the frames' meanings. */
  lemma {:induction false} LinesCarryMeanings(fs: seq<Frame>)
    ensures CommandsIn(Lines(EncodeAll(CommandsOf(fs)))) == Meanings(fs)
  {
    RoundTrip(CommandsOf(fs));
    if fs != [] {
      var init := fs[..|fs| - 1];
      LinesCarryMeanings(init);
      EncodingGrows(fs);
      RoundTrip(CommandsOf(init));
      var before := EncodeAll(CommandsOf(init));
      match fs[|fs| - 1]
      case Act(c) =>
        LinesOfChunks(before, Encode(c));
        assert "" + Encode(c) == Encode(c);
        CommandsInBoth(Lines(before), Lines(Encode(c)), Lines(before) + Lines(Encode(c)));
      case Ignored => assert before + "" == before;
    }
  }

  /** In every interleaving of the consumer's tasks, once an appserver's websocket is quiet and
      its monitor process has read the commands it was sent, in whatever chunks, and lives, that
      process is watching exactly the directories the browser's own sequence of frames asks for. */
  lemma MonitorConverges(
      events: seq<Event<Frame>>, ws: nat, dirs: set<string>, answers: seq<Answer>, chunks: seq<string>)
    requires Quiet(After(events), ws)
    requires Concat(chunks) == EncodeAll(CommandsOf(Delivered(After(events).browser, After(events).received[ws])))
    requires CooperatesOn(Fresh(answers), Lines(Concat(chunks)), dirs)
    ensures
      var m := OnChunks(Fresh(answers), chunks);
      m.status == Running ==>
        m.stdin == "" && Inverse(m.table) && m.table.wds.Keys == Watched(After(events).browser, dirs)
  {
    var s := After(events);
    DeliveryOrder(events, ws);
    var fs := Delivered(s.browser, s.received[ws]);
    OrderedStreamsAgree(s.browser, s.received[ws], dirs);
    LinesCarryMeanings(fs);
    RoundTrip(CommandsOf(fs));
    ChunksDoNotMatter(answers, chunks);
    TableFollows(answers, Lines(Concat(chunks)), dirs);
  }

  // ---- when the process lives ----

  /** The browser's paths survive the line protocol and are all relative, or all absolute. */
  predicate Orderly(fs: seq<Frame>, absolute: bool) {
    forall i :: 0 <= i < |fs| && fs[i].Act? ==> Clean(fs[i].cmd.path) && Absolute(fs[i].cmd.path) == absolute
  }

  /** Lines that carry commands on such paths and nothing else. */
  predicate OrderlyLines(lines: seq<string>, absolute: bool) {
    forall i :: 0 <= i < |lines| ==> OrderlyLine(lines[i], absolute)
  }

  predicate OrderlyLine(line: string, absolute: bool) {
    Parse(line).Watch? && Absolute(Parse(line).cmd.path) == absolute
  }

  ghost predicate NamesAre(t: Table, absolute: bool) {
    forall wd :: wd in t.names ==> Absolute(t.names[wd]) == absolute
  }

  lemma {:induction false} LivesOn(answers: seq<Answer>, lines: seq<string>, dirs: set<string>, absolute: bool)
    requires CooperatesOn(Fresh(answers), lines, dirs) && OrderlyLines(lines, absolute)
    ensures OnLines(Fresh(answers), lines).status == Running && NamesAre(OnLines(Fresh(answers), lines).table, absolute)
  {
    if lines != [] {
      CooperatesBefore(Fresh(answers), lines, dirs);
      LivesOn(answers, lines[..|lines| - 1], dirs, absolute);
      assert OrderlyLine(lines[|lines| - 1], absolute);
    }
  }

  lemma {:induction false} LinesOfBoth(a: seq<Command>, b: seq<Command>, both: seq<Command>)
    requires both == a + b
    ensures LinesOf(both) == LinesOf(a) + LinesOf(b)
    decreases a
  {
    if a == [] {
      ConcatNothing(a, b, both);
    } else {
      ConcatTail(a, b, both);
      LinesOfBoth(a[1..], b, both[1..]);
      ConcatAssoc([Line(a[0])], LinesOf(a[1..]), LinesOf(b));
    }
  }

  ghost predicate EncodesOrderly(cs: seq<Command>, absolute: bool) {
    AllClean(cs) && OrderlyLines(LinesOf(cs), absolute) && CommandsIn(LinesOf(cs)) == cs
  }

  lemma OrderlyOneMore(cs: seq<Command>, c: Command, absolute: bool, more: seq<Command>)
    requires EncodesOrderly(cs, absolute) && Clean(c.path) && Absolute(c.path) == absolute && more == cs + [c]
    ensures EncodesOrderly(more, absolute)
  {
    LinesOfBoth(cs, [c], more);
    LineOrderly(c, absolute);
    OrderlySnoc(LinesOf(cs), Line(c), LinesOf(more), absolute);
  }

  lemma LineOrderly(c: Command, absolute: bool)
    requires Clean(c.path) && Absolute(c.path) == absolute
    ensures LinesOf([c]) == [Line(c)] && OrderlyLine(Line(c), absolute) && CommandIn(Line(c)) == [c]
  {
    ParseFirst(c);
  }

  lemma OrderlySnoc(lines: seq<string>, line: string, more: seq<string>, absolute: bool)
    requires OrderlyLines(lines, absolute) && OrderlyLine(line, absolute) && more == lines + [line]
    ensures OrderlyLines(more, absolute) && CommandsIn(more) == CommandsIn(lines) + CommandIn(line)
  {
    ConcatInit(lines, [line], more);
    ConcatNone(lines, [line][..0]);
  }

  lemma {:induction false} OrderlyEncoding(fs: seq<Frame>, absolute: bool)
    requires Orderly(fs, absolute)
    ensures EncodesOrderly(CommandsOf(fs), absolute)
  {
    if fs != [] {
      var cs, f := CommandsOf(fs[..|fs| - 1]), fs[|fs| - 1];
      OrderlyEncoding(fs[..|fs| - 1], absolute);
      if f.Act? {
        OrderlyOneMore(cs, f.cmd, absolute, CommandsOf(fs));
      } else {
        ConcatNone(cs, []);
      }
    }
  }

  /** When the browser's paths are orderly, the process does live, and what it is to watch is what the
      commands themselves say. */
  lemma MonitorLives(
      events: seq<Event<Frame>>, ws: nat, dirs: set<string>, answers: seq<Answer>, chunks: seq<string>, absolute: bool)
    requires Quiet(After(events), ws) && Orderly(After(events).browser, absolute)
    requires Concat(chunks) == EncodeAll(CommandsOf(Delivered(After(events).browser, After(events).received[ws])))
    requires CooperatesOn(Fresh(answers), Lines(Concat(chunks)), dirs)
    ensures OnChunks(Fresh(answers), chunks).status == Running
    ensures Watched(After(events).browser, dirs) == Fold(CommandsOf(After(events).browser), dirs)
  {
    var s := After(events);
    DeliveryOrder(events, ws);
    var fs := Delivered(s.browser, s.received[ws]);
    assert Orderly(fs, absolute);
    OrderlyEncoding(fs, absolute);
    RoundTrip(CommandsOf(fs));
    LivesOn(answers, LinesOf(CommandsOf(fs)), dirs, absolute);
    ChunksDoNotMatter(answers, chunks);
    OrderlyEncoding(s.browser, absolute);
    LinesCarryMeanings(s.browser);
    RoundTrip(CommandsOf(s.browser));
  }
}
