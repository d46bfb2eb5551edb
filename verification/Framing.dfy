/** The line protocol between the orchestrator and the file monitor: SiteFilesMonitor writes
    one line per command, monitor_cmd rebuilds the lines from whatever chunks it reads.
    A character stands for one byte of the pipe. */
module Framing {
  import opened Paths
  import opened Seqs
  import opened Strings

  const NL := '\n'

  datatype Command = Add(path: string) | Remove(path: string)

  /** What one line means to monitor_cmd. */
  datatype Parsed = Blank | Watch(cmd: Command) | Quit | Invalid

  // ---- the writing side ----

  function Line(c: Command): string {
    match c
    case Add(p) => "+" + p
    case Remove(p) => "-" + p
  }

  function Encode(c: Command): string {
    Line(c) + [NL]
  }

  function EncodeAll(cs: seq<Command>): string {
    if cs == [] then "" else Encode(cs[0]) + EncodeAll(cs[1..])
  }

  // ---- the reading side ----

  /** The newline-terminated lines of a stream. */
  function Lines(s: string): seq<string> {
    var parts := Split(s, NL);
    parts[..|parts| - 1]
  }

  /** What follows the last newline of a stream. */
  function Tail(s: string): string {
    var parts := Split(s, NL);
    parts[|parts| - 1]
  }

  const LINE_BREAKS: set<char> := {'\r', NL}

  function Parse(line: string): Parsed {
    if line == "" then Blank
    else
      var fname := Strip(line[1..], LINE_BREAKS);
      if line[0] == '+' then Watch(Add(fname))
      else if line[0] == '-' then Watch(Remove(fname))
      else if line[0] == 'q' then Quit
      else Invalid
  }

  /** The commands a list of lines carries, up to the first line that ends the program. */
  function Commands(lines: seq<string>): seq<Command> {
    if lines == [] then []
    else
      match Parse(lines[0])
      case Blank => Commands(lines[1..])
      case Watch(c) => [c] + Commands(lines[1..])
      case _ => []
  }

  // ---- chunks do not matter ----

  /** Cutting a stream anywhere and carrying the unterminated rest over loses no line, splits no
      line and joins no two. */
  lemma LinesOfChunks(a: string, b: string)
    ensures Lines(a + b) == Lines(a) + Lines(Tail(a) + b)
    ensures Tail(a + b) == Tail(Tail(a) + b)
  {
    SplitCarry(a, b);
  }

  /** Everything up to the last newline, and the rest. */
  lemma LastNewline(a: string) returns (head: string)
    requires Lines(a) != []
    ensures a == head + [NL] + Tail(a) && Split(head, NL) == Lines(a)
  {
    var parts := Split(a, NL);
    head := Join(Lines(a), NL);
    JoinSplit(a, NL);
    assert parts == Lines(a) + [Tail(a)];
    JoinSnoc(Lines(a), Tail(a), NL);
    SplitJoin(Lines(a), NL);
  }

  lemma SplitCarry(a: string, b: string)
    ensures Split(a + b, NL) == Lines(a) + Split(Tail(a) + b, NL)
  {
    if Lines(a) == [] {
      JoinSplit(a, NL);
      assert Split(a, NL) == [Tail(a)];
    } else {
      var head := LastNewline(a);
      var rest := Tail(a) + b;
      assert a + b == head + [NL] + rest;
      SplitConcat(head, rest, NL);
    }
  }

  // ---- writing, then reading ----

  /** A path that survives the line protocol. */
  predicate Clean(p: string) {
    NL !in p && (p != "" ==> p[0] != '\r' && p[|p| - 1] != '\r')
  }

  lemma StripKeeps(s: string)
    requires NL !in s
    ensures Strip(s, LINE_BREAKS) == s <==> Clean(s)
    ensures NL !in Strip(s, LINE_BREAKS)
  {
    StripLeftShortens(s, LINE_BREAKS);
    StripRightShortens(StripLeft(s, LINE_BREAKS), LINE_BREAKS);
  }

  lemma FirstLine(c: Command)
    ensures Split(Line(c), NL)[0] == Line(c)[..1] + Split(c.path, NL)[0]
    ensures NL !in c.path ==> Split(Line(c), NL) == [Line(c)]
  {
    SplitFirst(Line(c), c.path, NL);
    if NL !in c.path {
      SplitSeparatorFree(Line(c), NL);
    }
  }

  /** The first line of an encoded command gives the command back exactly for clean paths. */
  lemma ParseFirst(c: Command)
    ensures var p := Parse(Split(Line(c), NL)[0]);
            p.Watch? && (p.cmd == c <==> Clean(c.path))
    ensures Clean(c.path) ==> Split(Line(c), NL) == [Line(c)]
  {
    FirstLine(c);
    var first := Split(c.path, NL)[0];
    assert (Line(c)[..1] + first)[1..] == first;
    StripKeeps(first);
    if NL !in c.path {
      SplitSeparatorFree(c.path, NL);
    }
  }

  predicate AllClean(cs: seq<Command>) {
    forall i :: 0 <= i < |cs| ==> Clean(cs[i].path)
  }

  function LinesOf(cs: seq<Command>): seq<string> {
    if cs == [] then [] else [Line(cs[0])] + LinesOf(cs[1..])
  }

  lemma LinesAfterNewline(a: string, b: string)
    ensures Lines(a + [NL] + b) == Split(a, NL) + Lines(b)
    ensures Tail(a + [NL] + b) == Tail(b)
  {
    SplitConcat(a, b, NL);
    var pa, pb := Split(a, NL), Split(b, NL);
    assert (pa + pb)[..|pa + pb| - 1] == pa + pb[..|pb| - 1];
  }

  lemma EncodeFirst(cs: seq<Command>, c: Command, rest: seq<Command>)
    requires |cs| == |rest| + 1 && cs[0] == c && cs[1..] == rest
    ensures EncodeAll(cs) == Encode(c) + EncodeAll(rest)
  {
  }

  lemma {:induction false} EncodeConcat(a: seq<Command>, b: seq<Command>, both: seq<Command>)
    requires both == a + b
    ensures EncodeAll(both) == EncodeAll(a) + EncodeAll(b)
    decreases a
  {
    if a == [] {
      ConcatNothing(a, b, both);
    } else {
      ConcatTail(a, b, both);
      EncodeConcat(a[1..], b, both[1..]);
      EncodeFirst(both, a[0], both[1..]);
      EncodeFirst(a, a[0], a[1..]);
      ConcatAssoc(Encode(a[0]), EncodeAll(a[1..]), EncodeAll(b));
    }
  }

  lemma EncodedLines(cs: seq<Command>)
    requires cs != []
    ensures Lines(EncodeAll(cs)) == Split(Line(cs[0]), NL) + Lines(EncodeAll(cs[1..]))
    ensures Tail(EncodeAll(cs)) == Tail(EncodeAll(cs[1..]))
  {
    var first, rest := Line(cs[0]), EncodeAll(cs[1..]);
    assert EncodeAll(cs) == first + [NL] + rest;
    LinesAfterNewline(first, rest);
  }

  lemma AllCleanFirst(cs: seq<Command>)
    requires cs != []
    ensures AllClean(cs) <==> Clean(cs[0].path) && AllClean(cs[1..])
  {
    assert forall i :: 1 <= i < |cs| ==> cs[i] == cs[1..][i - 1];
  }

  /** Reading back what was written returns the same commands exactly when no path contains a
      newline or starts or ends with a carriage return. */
  lemma {:induction false} RoundTrip(cs: seq<Command>)
    ensures Tail(EncodeAll(cs)) == ""
    ensures Commands(Lines(EncodeAll(cs))) == cs <==> AllClean(cs)
    ensures AllClean(cs) ==> Lines(EncodeAll(cs)) == LinesOf(cs)
  {
    if cs != [] {
      var c, rest := cs[0], cs[1..];
      RoundTrip(rest);
      ParseFirst(c);
      EncodedLines(cs);
      AllCleanFirst(cs);
      var own, more := Split(Line(c), NL), Lines(EncodeAll(rest));
      var lines := Lines(EncodeAll(cs));
      assert cs == [c] + rest;
      assert lines[0] == own[0];
      if Clean(c.path) {
        assert lines[1..] == more;
        assert Commands(lines) == [c] + Commands(more);
      } else {
        assert Commands(lines)[0] != c;
      }
    }
  }

  /** For instance, a final carriage return is lost. */
  lemma CarriageReturnLost(written: Command)
    requires written == Add("a\r")
    ensures Commands(Lines(EncodeAll([written]))) == [Add("a")]
  {
    var line := Line(written);
    SplitSeparatorFree(line, NL);
    LinesAfterNewline(line, "");
    assert EncodeAll([written]) == line + [NL] + "";
    var path := line[1..];
    assert path == "a\r" && path[..1] == "a";
    assert StripLeft(path, LINE_BREAKS) == path;
    assert StripRight(path, LINE_BREAKS) == StripRight(path[..1], LINE_BREAKS) == "a";
    assert Lines(EncodeAll([written])) == [line];
    assert [line][1..] == [];
  }
}
