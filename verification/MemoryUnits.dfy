/** Memory limits: what the form lets through and how the orchestrator reads it. */
module MemoryUnits {
  import opened Options
  import opened Strings
  import N = SiteNames

  datatype Unit = Unit(suffix: string, factor: nat)

  /** The suffixes in the order in which they are tried. */
  const UNITS: seq<Unit> := [
    Unit("bytes", 1),
    Unit("KiB", 1024), Unit("MiB", 1048576), Unit("GiB", 1073741824),
    Unit("KB", 1000), Unit("MB", 1000000), Unit("GB", 1000000000),
    Unit("B", 1),
    Unit("K", 1024), Unit("M", 1048576), Unit("G", 1073741824),
    Unit("b", 1),
    Unit("k", 1000), Unit("m", 1000000), Unit("g", 1000000000)]

  /** The first of some units whose suffix ends the string. */
  function FirstOf(s: string, units: seq<Unit>): (j: nat)
    ensures j <= |units|
    ensures j < |units| ==> EndsWith(s, units[j].suffix)
    ensures forall k :: 0 <= k < j ==> !EndsWith(s, units[k].suffix)
  {
    if units == [] || EndsWith(s, units[0].suffix) then 0
    else
      var j := FirstOf(s, units[1..]);
      assert forall k :: 1 <= k < |units| ==> units[k] == units[1..][k - 1];
      j + 1
  }

  function FirstUnit(s: string): nat {
    FirstOf(s, UNITS)
  }

  // ---- int() ----

  predicate Spaces(s: string) {
    forall i :: 0 <= i < |s| ==> s[i] in WHITE
  }

  /** Digits, with single underscores allowed between them. */
  predicate Grouped(s: string) {
    && s != ""
    && s[0] != '_' && s[|s| - 1] != '_'
    && (forall i :: 0 <= i < |s| ==> '0' <= s[i] <= '9' || s[i] == '_')
    && (forall i :: 0 <= i < |s| - 1 ==> s[i] != '_' || s[i + 1] != '_')
  }

  function Ungroup(s: string): (r: string)
    requires forall i :: 0 <= i < |s| ==> '0' <= s[i] <= '9' || s[i] == '_'
    ensures N.IsDigits(r)
  {
    if s == "" then "" else (if s[0] == '_' then "" else [s[0]]) + Ungroup(s[1..])
  }

  /** int(s) for a string in base ten; None stands for ValueError. */
  function ParseInt(s: string): Option<int> {
    Number(Strip(s, WHITE))
  }

  function Number(t: string): Option<int> {
    if t == "" then None
    else if t[0] == '-' then Times(-1, Magnitude(t[1..]))
    else if t[0] == '+' then Magnitude(t[1..])
    else Magnitude(t)
  }

  function Magnitude(digits: string): Option<int> {
    if Grouped(digits) then Some(N.Value(Ungroup(digits))) else None
  }

  function Times(factor: int, count: Option<int>): Option<int> {
    if count.None? then None else Some(factor * count.value)
  }

  /** The number in front of a unit, in bytes. */
  function Scaled(memory: string, unit: Unit): Option<int>
    requires EndsWith(memory, unit.suffix)
  {
    Times(unit.factor, ParseInt(Strip(memory[..|memory| - |unit.suffix|], WHITE)))
  }

  function BytesBy(memory: string, units: seq<Unit>): Option<int> {
    var i := FirstOf(memory, units);
    if i == |units| then ParseInt(memory) else Scaled(memory, units[i])
  }

  function Bytes(memory: string): Option<int> {
    BytesBy(memory, UNITS)
  }

  lemma FirstFits(memory: string, units: seq<Unit>, i: nat)
    requires i <= |units| && forall k :: 0 <= k < i ==> !EndsWith(memory, units[k].suffix)
    requires i < |units| ==> EndsWith(memory, units[i].suffix)
    ensures FirstOf(memory, units) == i
  {
  }

  /** The loop of convert_memory_limit() returns at the first suffix that fits. */
  method ConvertBy(memory: string, units: seq<Unit>) returns (bytes: Option<int>)
    ensures bytes == BytesBy(memory, units)
  {
    var i := 0;
    while i < |units|
      invariant i <= |units|
      invariant forall k :: 0 <= k < i ==> !EndsWith(memory, units[k].suffix)
    {
      if EndsWith(memory, units[i].suffix) {
        FirstFits(memory, units, i);
        return Scaled(memory, units[i]);
      }
      i := i + 1;
    }
    FirstFits(memory, units, |units|);
    return ParseInt(memory);
  }

  /** convert_memory_limit() */
  method ConvertMemoryLimit(memory: string) returns (bytes: Option<int>)
    ensures bytes == Bytes(memory)
  {
    bytes := ConvertBy(memory, UNITS);
  }

  // ---- the table ----

  predicate Letters(s: string) {
    forall i :: 0 <= i < |s| ==> 'a' <= s[i] <= 'z' || 'A' <= s[i] <= 'Z'
  }

  lemma SuffixesAreLetters(i: nat)
    requires i < |UNITS|
    ensures Letters(UNITS[i].suffix) && UNITS[i].suffix != ""
  {
  }

  lemma TableOrder(i: nat, j: nat)
    requires i < j < |UNITS|
    ensures |UNITS[i].suffix| >= |UNITS[j].suffix| && UNITS[i].suffix != UNITS[j].suffix
  {
  }

  /** The first suffix that fits is the longest one that does. */
  lemma FirstIsLongest(s: string, j: nat)
    requires j < |UNITS| && EndsWith(s, UNITS[j].suffix)
    ensures FirstUnit(s) <= j && |UNITS[FirstUnit(s)].suffix| >= |UNITS[j].suffix|
    ensures |UNITS[FirstUnit(s)].suffix| == |UNITS[j].suffix| ==> FirstUnit(s) == j
  {
    var i := FirstUnit(s);
    if i < j {
      TableOrder(i, j);
    }
  }

  /** Behind digits and spaces, the unit that was written is the one that is found. */
  lemma WrittenUnitFound(front: string, j: nat)
    requires j < |UNITS|
    requires front == "" || !('a' <= front[|front| - 1] <= 'z' || 'A' <= front[|front| - 1] <= 'Z')
    ensures FirstUnit(front + UNITS[j].suffix) == j
  {
    var s, u := front + UNITS[j].suffix, UNITS[j].suffix;
    assert s[|s| - |u|..] == u;
    FirstIsLongest(s, j);
    var i := FirstUnit(s);
    var v := UNITS[i].suffix;
    SuffixesAreLetters(i);
    if |v| > |u| {
      LongerReachesFront(front, u, v);
    }
  }

  lemma LongerReachesFront(front: string, u: string, v: string)
    requires EndsWith(front + u, v) && |v| > |u| && Letters(v)
    ensures front != "" && ('a' <= front[|front| - 1] <= 'z' || 'A' <= front[|front| - 1] <= 'Z')
  {
    var s := front + u;
    assert s[|s| - |v|..][|v| - |u| - 1] == v[|v| - |u| - 1];
    assert s[|front| - 1] == front[|front| - 1];
  }

  lemma UnitEndsInLetter(s: string, i: nat)
    requires i < |UNITS| && EndsWith(s, UNITS[i].suffix)
    ensures s != "" && ('a' <= s[|s| - 1] <= 'z' || 'A' <= s[|s| - 1] <= 'Z')
  {
    var v := UNITS[i].suffix;
    SuffixesAreLetters(i);
    assert s[|s| - |v|..][|v| - 1] == v[|v| - 1];
  }

  lemma NoUnit(s: string)
    requires s == "" || !('a' <= s[|s| - 1] <= 'z' || 'A' <= s[|s| - 1] <= 'Z')
    ensures FirstUnit(s) == |UNITS|
  {
    var i := FirstUnit(s);
    if i < |UNITS| {
      UnitEndsInLetter(s, i);
    }
  }

  // ---- numbers ----

  lemma {:induction false} StripRightSpaces(d: string, ws: string)
    requires Spaces(ws) && d != "" && d[|d| - 1] !in WHITE
    ensures StripRight(d + ws, WHITE) == d
    decreases |ws|
  {
    if ws == "" {
      assert d + ws == d;
    } else {
      StripRightSpaces(d, ws[..|ws| - 1]);
      assert (d + ws)[..|d + ws| - 1] == d + ws[..|ws| - 1];
    }
  }

  lemma StripSpaces(d: string, ws: string)
    requires Spaces(ws) && d != "" && d[0] !in WHITE && d[|d| - 1] !in WHITE
    ensures Strip(d + ws, WHITE) == d
  {
    StripRightSpaces(d, ws);
  }

  lemma {:induction false} UngroupDigits(s: string)
    requires N.IsDigits(s)
    ensures Ungroup(s) == s
  {
    if s != "" {
      UngroupDigits(s[1..]);
      assert [s[0]] + s[1..] == s;
    }
  }

  lemma DigitsGrouped(d: string)
    requires N.IsDigits(d) && d != ""
    ensures Magnitude(d) == Some(N.Value(d)) && Number(d) == Some(N.Value(d))
  {
    UngroupDigits(d);
  }

  lemma DigitsNotWhite(d: string)
    requires N.IsDigits(d) && d != ""
    ensures d[0] !in WHITE && d[|d| - 1] !in WHITE
  {
    WhiteIs(d[0]);
    WhiteIs(d[|d| - 1]);
  }

  /** int() reads digits with spaces behind them. */
  lemma ParseDigits(d: string, ws: string)
    requires N.IsDigits(d) && d != "" && Spaces(ws)
    ensures ParseInt(d + ws) == Some(N.Value(d))
  {
    DigitsNotWhite(d);
    StripSpaces(d, ws);
    DigitsGrouped(d);
  }

  /** Behind a front that does not end in a letter, the unit is cut off and the front is read. */
  lemma UnitCut(s: string, front: string, j: nat)
    requires j < |UNITS| && s == front + UNITS[j].suffix
    requires front == "" || !('a' <= front[|front| - 1] <= 'z' || 'A' <= front[|front| - 1] <= 'Z')
    ensures Bytes(s) == Times(UNITS[j].factor, ParseInt(Strip(front, WHITE)))
  {
    WrittenUnitFound(front, j);
    assert s[..|s| - |UNITS[j].suffix|] == front;
  }

  lemma NumberStripped(d: string, ws: string, front: string)
    requires front == d + ws && d != "" && Spaces(ws) && d[0] !in WHITE && d[|d| - 1] !in WHITE
    ensures ParseInt(Strip(front, WHITE)) == Number(d)
  {
    StripSpaces(d, ws);
    StripSpaces(d, "");
    assert d + "" == d;
  }

  /** Whatever int() can read, with spaces and a unit behind it, is read as that many units. */
  lemma NumberWithUnit(d: string, ws: string, j: nat, s: string)
    requires d != "" && d[0] !in WHITE && '0' <= d[|d| - 1] <= '9' && Spaces(ws) && j < |UNITS|
    requires s == d + ws + UNITS[j].suffix
    ensures Bytes(s) == Times(UNITS[j].factor, Number(d))
  {
    FrontEnds(d, ws, d + ws);
    NumberStripped(d, ws, d + ws);
    UnitCut(s, d + ws, j);
  }

  lemma FrontEnds(d: string, ws: string, front: string)
    requires d != "" && '0' <= d[|d| - 1] <= '9' && Spaces(ws) && front == d + ws
    ensures d[|d| - 1] !in WHITE
    ensures !('a' <= front[|front| - 1] <= 'z' || 'A' <= front[|front| - 1] <= 'Z')
  {
    WhiteIs(d[|d| - 1]);
    if ws != "" {
      WhiteIs(ws[|ws| - 1]);
    }
  }

  lemma SignedNumber(sign: char, d: string, s: string)
    requires N.IsDigits(d) && d != "" && (sign == '-' || sign == '+') && s == [sign] + d
    ensures Number(s) == Some(if sign == '-' then -(N.Value(d) as int) else N.Value(d))
  {
    assert s[1..] == d;
    DigitsGrouped(d);
  }

  /** A number of bytes with spaces and a unit behind it is read as that many units. */
  lemma DigitsWithUnit(d: string, ws: string, j: nat)
    requires N.IsDigits(d) && d != "" && Spaces(ws) && j < |UNITS|
    ensures Bytes(d + ws + UNITS[j].suffix) == Some(UNITS[j].factor * N.Value(d))
  {
    DigitsNotWhite(d);
    DigitsGrouped(d);
    NumberWithUnit(d, ws, j, d + ws + UNITS[j].suffix);
  }

  lemma DigitsAlone(d: string, ws: string)
    requires N.IsDigits(d) && d != "" && Spaces(ws)
    ensures Bytes(d + ws) == Some(N.Value(d))
  {
    assert (d + ws)[|d + ws| - 1] == if ws == "" then d[|d| - 1] else ws[|ws| - 1];
    NoUnit(d + ws);
    ParseDigits(d, ws);
  }

  /** Parsing undoes printing, for every number, spacing and unit. */
  lemma PrintedReads(n: nat, ws: string, j: nat)
    requires Spaces(ws) && j < |UNITS|
    ensures Bytes(N.Decimal(n) + ws + UNITS[j].suffix) == Some(UNITS[j].factor * n)
    ensures Bytes(N.Decimal(n) + ws) == Some(n)
  {
    N.ValueOfDecimal(n);
    DigitsWithUnit(N.Decimal(n), ws, j);
    DigitsAlone(N.Decimal(n), ws);
  }

  /** What a suffix is worth: those with an "i" and the bare capitals count in powers of 1024, the
      others in powers of 1000. */
  predicate Worth(suffix: string, factor: nat) {
    match factor
    case 1 => suffix == "bytes" || suffix == "B" || suffix == "b"
    case 1024 => suffix == "KiB" || suffix == "K"
    case 1048576 => suffix == "MiB" || suffix == "M"
    case 1073741824 => suffix == "GiB" || suffix == "G"
    case 1000 => suffix == "KB" || suffix == "k"
    case 1000000 => suffix == "MB" || suffix == "m"
    case 1000000000 => suffix == "GB" || suffix == "g"
    case _ => false
  }

  lemma InTable(suffix: string, factor: nat) returns (j: nat)
    requires Worth(suffix, factor)
    ensures j < |UNITS| && UNITS[j] == Unit(suffix, factor)
  {
    j := match suffix
      case "bytes" => 0 case "KiB" => 1 case "MiB" => 2 case "GiB" => 3 case "KB" => 4 case "MB" => 5 case "GB" => 6
      case "B" => 7 case "K" => 8 case "M" => 9 case "G" => 10 case "b" => 11 case "k" => 12 case "m" => 13 case _ => 14;
  }

  lemma OnlyInTable(j: nat)
    requires j < |UNITS|
    ensures Worth(UNITS[j].suffix, UNITS[j].factor)
    ensures FormUnit(j) <==> UNITS[j].suffix in {"KiB", "MiB", "GiB", "KB", "MB", "GB"}
  {
  }

  /** A number with any spacing and one of the suffixes behind it is read as what that is worth. */
  lemma SuffixReads(n: nat, ws: string, suffix: string, factor: nat)
    requires Spaces(ws) && Worth(suffix, factor)
    ensures Bytes(N.Decimal(n) + ws + suffix) == Some(factor * n)
  {
    var j := InTable(suffix, factor);
    PrintedReads(n, ws, j);
  }

  function Signed(sign: char, n: int): int {
    if sign == '-' then -n else n
  }

  /** A sign in front of it is read as one. */
  lemma SignReads(sign: char, n: nat, ws: string, suffix: string, factor: nat, s: string)
    requires Spaces(ws) && Worth(suffix, factor) && (sign == '-' || sign == '+')
    requires s == [sign] + N.Decimal(n) + ws + suffix
    ensures Bytes(s) == Some(factor * Signed(sign, n))
  {
    var t := [sign] + N.Decimal(n);
    N.ValueOfDecimal(n);
    SignedNumber(sign, N.Decimal(n), t);
    SignedEnds(sign, N.Decimal(n), t);
    WorthOf(t, ws, suffix, factor, Signed(sign, n), s);
  }

  lemma WorthOf(t: string, ws: string, suffix: string, factor: nat, v: int, s: string)
    requires t != "" && t[0] !in WHITE && '0' <= t[|t| - 1] <= '9' && Number(t) == Some(v)
    requires Spaces(ws) && Worth(suffix, factor) && s == t + ws + suffix
    ensures Bytes(s) == Some(factor * v)
  {
    var j := InTable(suffix, factor);
    NumberWithUnit(t, ws, j, s);
  }

  lemma SignedEnds(sign: char, d: string, t: string)
    requires N.IsDigits(d) && d != "" && (sign == '-' || sign == '+') && t == [sign] + d
    ensures t[0] !in WHITE && '0' <= t[|t| - 1] <= '9'
  {
    WhiteIs(sign);
    assert t[|t| - 1] == d[|d| - 1];
  }

  // ---- the form ----

  /** The units of the form's pattern: KiB, MiB, GiB, KB, MB and GB. */
  predicate FormUnit(j: nat) {
    1 <= j <= 6
  }

  predicate Shape(s: string, d: string, ws: string, j: nat) {
    N.IsDigits(d) && d != "" && Spaces(ws) && FormUnit(j) && s == d + ws + UNITS[j].suffix
  }

  /** (\d+(\s*[KMG]i?B)?)? */
  ghost predicate InPattern(s: string) {
    s == "" || N.IsDigits(s) || exists d, ws, j: nat :: Shape(s, d, ws, j)
  }

  /** The pattern between ^ and $, where $ also matches in front of one final newline. */
  ghost predicate FormAccepts(s: string) {
    InPattern(s) || (EndsWith(s, "\n") && InPattern(s[..|s| - 1]))
  }

  lemma PatternReads(s: string)
    requires InPattern(s) && s != ""
    ensures Bytes(s).Some? && !EndsWith(s, "\n")
  {
    if N.IsDigits(s) {
      DigitsAlone(s, "");
      assert s + "" == s;
    } else {
      var d, ws, j: nat :| Shape(s, d, ws, j);
      ShapeReads(s, d, ws, j);
    }
  }

  lemma ShapeReads(s: string, d: string, ws: string, j: nat)
    requires Shape(s, d, ws, j)
    ensures Bytes(s).Some? && !EndsWith(s, "\n")
  {
    DigitsWithUnit(d, ws, j);
    SuffixesAreLetters(j);
    assert s[|s| - 1] == UNITS[j].suffix[|UNITS[j].suffix| - 1];
  }

  lemma OnlyNewline(s: string)
    requires |s| == 1 && s[0] == '\n'
    ensures Bytes(s).None?
  {
    NoUnit(s);
    assert StripLeft(s, WHITE) == StripLeft(s[1..], WHITE);
    assert s[1..] == "";
    assert Strip(s, WHITE) == "";
  }

  lemma UnitThenNewline(t: string, d: string, ws: string, j: nat)
    requires Shape(t, d, ws, j)
    ensures Bytes(t + "\n").None? && !N.IsDigits(t)
  {
    SuffixesAreLetters(j);
    assert t[|t| - 1] == UNITS[j].suffix[|UNITS[j].suffix| - 1];
    assert t[0] == d[0];
    LetterThenNewline(t, t + "\n");
  }

  lemma LetterThenNewline(t: string, s: string)
    requires t != "" && '0' <= t[0] <= '9' && s == t + "\n"
    requires 'a' <= t[|t| - 1] <= 'z' || 'A' <= t[|t| - 1] <= 'Z'
    ensures Bytes(s).None? && !N.IsDigits(t)
  {
    NoUnit(s);
    StripSpaces(t, "\n");
  }

  lemma PatternThenNewline(t: string)
    requires InPattern(t)
    ensures Bytes(t + "\n").Some? <==> N.IsDigits(t) && t != ""
  {
    if t == "" {
      OnlyNewline(t + "\n");
    } else if N.IsDigits(t) {
      DigitsAlone(t, "\n");
    } else {
      var d, ws, j: nat :| Shape(t, d, ws, j);
      UnitThenNewline(t, d, ws, j);
    }
  }

  /** What the form accepts, the orchestrator can read, except exactly a final newline that follows
      no digit: the pattern's $ lets it pass and int() does not. */
  lemma FormReads(s: string)
    requires FormAccepts(s) && s != ""
    ensures
      Bytes(s).Some? <==> !EndsWith(s, "\n") || (N.IsDigits(s[..|s| - 1]) && |s| > 1)
  {
    if InPattern(s) {
      PatternReads(s);
    } else {
      assert s == s[..|s| - 1] + "\n";
      PatternThenNewline(s[..|s| - 1]);
    }
  }

  /** For instance, "1KB" with a newline behind it. */
  lemma NewlineRefused(s: string)
    requires s == "1KB\n"
    ensures FormAccepts(s) && Bytes(s).None?
  {
    assert s == "1KB" + "\n";
    assert s[..3] == "1KB";
    assert "1KB" == "1" + "" + UNITS[4].suffix;
    assert Shape("1KB", "1", "", 4);
    UnitThenNewline("1KB", "1", "", 4);
  }
}
