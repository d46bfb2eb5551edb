/** The four checks a custom domain passes on its way from the form to the web server
    configuration: the form, the model's validator, the orchestrator and the router. */
module DomainNames {
  import opened Options
  import opened Paths
  import opened Strings

  predicate Digit(c: char) { '0' <= c <= '9' }
  predicate Lower(c: char) { 'a' <= c <= 'z' }
  predicate Upper(c: char) { 'A' <= c <= 'Z' }
  predicate Plain(c: char) { Lower(c) || Digit(c) }

  /** [a-z0-9]+ */
  predicate Word(s: string) {
    s != "" && forall i :: 0 <= i < |s| ==> Plain(s[i])
  }

  predicate Words(parts: seq<string>) {
    forall i :: 0 <= i < |parts| ==> Word(parts[i])
  }

  /** [a-z0-9]+(-[a-z0-9]+)* */
  predicate Label(s: string) {
    Words(Split(s, '-'))
  }

  predicate Labels(parts: seq<string>) {
    forall i :: 0 <= i < |parts| ==> Label(parts[i])
  }

  /** [a-z0-9]+(-[a-z0-9]+)*(\.[a-z0-9]+(-[a-z0-9]+)*)+ */
  predicate HostName(s: string) {
    |Split(s, '.')| >= 2 && Labels(Split(s, '.'))
  }

  /** The string that a pattern anchored with $ has to match: $ also matches in front of one final
      newline. */
  function Chop(s: string): string {
    if s != "" && s[|s| - 1] == '\n' then s[..|s| - 1] else s
  }

  // ---- the form ----

  function LowerChar(c: char): char {
    if Upper(c) then c - 'A' + 'a' else c
  }

  function ToLower(s: string): (r: string)
    ensures |r| == |s| && forall i :: 0 <= i < |s| ==> r[i] == LowerChar(s[i])
  {
    if s == "" then "" else [LowerChar(s[0])] + ToLower(s[1..])
  }

  const DOT: set<char> := {'.'}

  const RESERVED := "sites.tjhsst.edu"

  function Normal(input: string): string {
    StripRight(ToLower(Strip(input, WHITE)), DOT)
  }

  predicate IsReserved(s: string) {
    s == RESERVED || EndsWith(s, "." + RESERVED)
  }

  /** clean_domain(); None stands for the validation errors. */
  function CleanDomain(input: string): Option<string> {
    var domain := Normal(input);
    if domain == "" then Some("")
    else if IsReserved(domain) then None
    else if HostName(Chop(domain)) then Some(domain)
    else None
  }

  // ---- the checks that follow ----

  /** The validator of Domain.domain, with its negative lookahead. */
  predicate ModelAccepts(domain: string) {
    !IsReserved(Chop(domain)) && !IsReserved(domain) && HostName(Chop(domain))
  }

  /** The orchestrator's first label may also start with a dash. */
  predicate FirstLabel(s: string) {
    var parts := Split(s, '-');
    (parts[0] == "" || Word(parts[0])) && Words(parts[1..])
  }

  predicate OrchestratorAccepts(domain: string) {
    var parts := Split(Chop(domain), '.');
    |parts| >= 2 && FirstLabel(parts[0]) && Labels(parts[1..])
  }

  predicate Allowed(c: char) {
    Plain(c) || Upper(c) || c == '-' || c == '.'
  }

  /** set(domain) < set(letters + digits + "-."): a proper subset. */
  predicate RouterAccepts(domain: string) {
    && (forall i :: 0 <= i < |domain| ==> Allowed(domain[i]))
    && exists c: char :: Allowed(c) && c !in domain
  }

  // ---- the patterns by characters ----

  predicate LetterOrDigit(c: char) {
    'a' <= c <= 'z' || '0' <= c <= '9'
  }

  /** A letter or a digit, or a dash or a dot in front of one. */
  predicate SeparatedAt(s: string, i: nat)
    requires i < |s|
  {
    LetterOrDigit(s[i]) || ((s[i] == '-' || s[i] == '.') && i + 1 < |s| && LetterOrDigit(s[i + 1]))
  }

  predicate Separated(s: string) {
    forall i :: 0 <= i < |s| ==> SeparatedAt(s, i)
  }

  lemma SeparatedFirst(s: string)
    requires s != ""
    ensures
      Separated(s) <==>
      if Plain(s[0]) then Separated(s[1..])
      else (s[0] == '-' || s[0] == '.') && |s| > 1 && Plain(s[1]) && Separated(s[1..])
  {
    forall i | 0 <= i < |s[1..]| ensures SeparatedAt(s[1..], i) == SeparatedAt(s, i + 1) {
      assert s[1..][i] == s[i + 1];
    }
    assert Separated(s) ==> SeparatedAt(s, 0);
    if SeparatedAt(s, 0) && Separated(s[1..]) {
      forall i | 0 <= i < |s| ensures SeparatedAt(s, i) {
        assert i > 0 ==> SeparatedAt(s[1..], i - 1);
      }
    }
  }

  /** Labels of which the first may also start with a dash or be empty. */
  predicate OpenLabels(parts: seq<string>)
    requires parts != []
  {
    FirstLabel(parts[0]) && Labels(parts[1..])
  }

  lemma WordsFirst(parts: seq<string>)
    requires parts != []
    ensures Words(parts) <==> Word(parts[0]) && Words(parts[1..])
  {
    assert forall i :: 1 <= i < |parts| ==> parts[i] == parts[1..][i - 1];
  }

  lemma LabelsFirst(parts: seq<string>)
    requires parts != []
    ensures Labels(parts) <==> Label(parts[0]) && Labels(parts[1..])
  {
    assert forall i :: 1 <= i < |parts| ==> parts[i] == parts[1..][i - 1];
  }

  lemma WordMore(c: char, w: string, s: string)
    requires s == [c] + w
    ensures Word(s) <==> Plain(c) && (w == "" || Word(w))
  {
    assert forall i :: 1 <= i < |s| ==> s[i] == w[i - 1];
    assert forall i :: 0 <= i < |w| ==> w[i] == s[i + 1];
    assert Word(s) ==> Plain(s[0]);
  }

  /** One more character in front of a label. */
  lemma LabelMore(c: char, q: string, s: string)
    requires s == [c] + q
    ensures Label(s) <==> Plain(c) && FirstLabel(q)
    ensures FirstLabel(s) <==> if c == '-' then Label(q) else Plain(c) && FirstLabel(q)
  {
    var w := Split(q, '-');
    SplitFirst(s, q, '-');
    WordsFirst(w);
    WordsFirst(Split(s, '-'));
    if c == '-' {
      assert Split(s, '-')[1..] == w;
    } else {
      assert Split(s, '-')[1..] == w[1..];
      WordMore(c, w[0], [c] + w[0]);
    }
  }

  /** The two states of the pattern: a letter or digit has to come, or anything may. */
  lemma {:induction false} PatternByChars(s: string)
    ensures OpenLabels(Split(s, '.')) <==> Separated(s)
    ensures Labels(Split(s, '.')) <==> s != "" && Plain(s[0]) && Separated(s)
  {
    var parts := Split(s, '.');
    LabelsFirst(parts);
    if s == "" {
      assert Split("", '-') == [""];
      assert !Word("");
    } else {
      var t, rest := s[1..], Split(s[1..], '.');
      PatternByChars(t);
      SeparatedFirst(s);
      SplitFirst(s, t, '.');
      LabelsFirst(rest);
      if s[0] == '.' {
        assert parts[1..] == rest;
        assert Split("", '-') == [""];
        assert !Label("");
      } else {
        assert parts[1..] == rest[1..];
        LabelMore(s[0], rest[0], [s[0]] + rest[0]);
      }
    }
  }

  lemma {:induction false} TwoParts(s: string, sep: char)
    ensures |Split(s, sep)| >= 2 <==> sep in s
  {
    if s != "" {
      TwoParts(s[1..], sep);
      assert sep in s <==> s[0] == sep || sep in s[1..];
    }
  }

  /** The host names are exactly the strings of lower-case letters, digits, dashes and dots with at least
      one dot, a letter or digit in front, and a letter or digit behind every dash and every dot. */
  lemma HostIffChars(s: string)
    ensures HostName(s) <==> '.' in s && LetterOrDigit(s[0]) && Separated(s)
  {
    PatternByChars(s);
    TwoParts(s, '.');
  }

  /** The orchestrator asks the same except of the first character. */
  lemma OrchestratorIffChars(domain: string)
    ensures OrchestratorAccepts(domain) <==> '.' in Chop(domain) && Separated(Chop(domain))
  {
    PatternByChars(Chop(domain));
    TwoParts(Chop(domain), '.');
  }

  // ---- compatibility ----

  /** A character of a string is the separator or belongs to one of the parts. */
  lemma {:induction false} SplitCovers(s: string, sep: char, i: nat)
    requires i < |s|
    ensures s[i] == sep || exists k :: 0 <= k < |Split(s, sep)| && s[i] in Split(s, sep)[k]
  {
    var rest := Split(s[1..], sep);
    if i == 0 {
      if s[0] != sep {
        assert s[0] in Split(s, sep)[0];
      }
    } else {
      SplitCovers(s[1..], sep, i - 1);
      if s[i] != sep {
        var k :| 0 <= k < |rest| && s[i] in rest[k];
        assert s[i] in Split(s, sep)[if s[0] == sep then k + 1 else k];
      }
    }
  }

  lemma SplitNonEmpty(s: string, sep: char)
    requires s == "" || s[|s| - 1] == sep
    ensures var parts := Split(s, sep); parts[|parts| - 1] == ""
  {
    if s != "" {
      assert s == s[..|s| - 1] + [sep] + "";
      SplitConcat(s[..|s| - 1], "", sep);
    }
  }

  lemma LabelChar(s: string, i: nat)
    requires Label(s) && i < |s|
    ensures Plain(s[i]) || s[i] == '-'
  {
    SplitCovers(s, '-', i);
  }

  lemma HostChar(s: string, i: nat)
    requires HostName(s) && i < |s|
    ensures Plain(s[i]) || s[i] == '-' || s[i] == '.'
  {
    SplitCovers(s, '.', i);
    if s[i] != '.' {
      var parts := Split(s, '.');
      var k :| 0 <= k < |parts| && s[i] in parts[k];
      var j :| 0 <= j < |parts[k]| && parts[k][j] == s[i];
      LabelChar(parts[k], j);
    }
  }

  lemma EndingDot(s: string)
    requires s == "" || s[|s| - 1] == '.'
    ensures !HostName(s)
  {
    SplitNonEmpty(s, '.');
    SplitNonEmpty("", '-');
    var parts := Split(s, '.');
    assert !Label(parts[|parts| - 1]);
  }

  lemma HostEnd(s: string)
    requires HostName(s)
    ensures s != "" && s[|s| - 1] != '.'
  {
    if s == "" || s[|s| - 1] == '.' {
      EndingDot(s);
    }
  }

  lemma HostIsLower(s: string)
    requires HostName(s)
    ensures ToLower(s) == s && '\n' !in s
  {
    forall i | 0 <= i < |s|
      ensures LowerChar(s[i]) == s[i] && s[i] != '\n'
    {
      HostChar(s, i);
    }
  }

  lemma HostIsBare(s: string)
    requires HostName(s)
    ensures Strip(s, WHITE) == s && StripRight(s, DOT) == s && Chop(s) == s
  {
    HostEnd(s);
    HostChar(s, 0);
    HostChar(s, |s| - 1);
    assert StripLeft(s, WHITE) == s;
  }

  /** A host name is already in normal form. */
  lemma HostIsNormal(s: string)
    requires HostName(s)
    ensures Normal(s) == s && Chop(s) == s && '\n' !in s
  {
    HostIsBare(s);
    HostIsLower(s);
  }

  lemma HostAtRouter(s: string)
    requires HostName(s)
    ensures RouterAccepts(s)
  {
    forall i | 0 <= i < |s|
      ensures Allowed(s[i]) && s[i] != 'A'
    {
      HostChar(s, i);
    }
    assert Allowed('A') && 'A' !in s;
  }

  /** The same name in whatever case. */
  predicate SameLetters(u: string, h: string) {
    |u| == |h| && forall i :: 0 <= i < |u| ==> u[i] == h[i] || ('A' <= u[i] <= 'Z' && u[i] as int + 32 == h[i] as int)
  }

  lemma LowerOfSame(u: string, h: string)
    requires HostName(h) && SameLetters(u, h)
    ensures ToLower(u) == h && u != "" && u[0] !in WHITE && u[|u| - 1] !in WHITE && u[|u| - 1] != '.'
  {
    HostEnd(h);
    forall i | 0 <= i < |h| ensures LowerChar(u[i]) == h[i] && u[i] !in WHITE && (u[i] == '.' ==> h[i] == '.') {
      HostChar(h, i);
      LowerOfChar(u[i], h[i]);
    }
  }

  lemma LowerOfChar(a: char, b: char)
    requires a == b || ('A' <= a <= 'Z' && a as int + 32 == b as int)
    requires Plain(b) || b == '-' || b == '.'
    ensures LowerChar(a) == b && a !in WHITE && (a == '.' ==> b == '.')
  {
    WhiteIs(a);
  }

  lemma LowerBoth(u: string, v: string)
    requires forall i :: 0 <= i < |v| ==> v[i] == '.'
    ensures ToLower(u + v) == ToLower(u) + v
  {
  }

  /** The form takes every host name in any case, with spaces around it and dots behind it, and makes it
      the host name, except the platform's own domain and what lies below that. */
  lemma FormTakes(h: string, u: string, before: string, dots: string, after: string)
    requires HostName(h) && SameLetters(u, h)
    requires AllIn(before, WHITE) && AllIn(dots, DOT) && AllIn(after, WHITE)
    ensures
      CleanDomain(before + (u + dots) + after) ==
      if h == "sites.tjhsst.edu" || EndsWith(h, ".sites.tjhsst.edu") then None else Some(h)
  {
    LowerOfSame(u, h);
    var middle := u + dots;
    assert middle[0] == u[0] && middle[|middle| - 1] == if dots == "" then u[|u| - 1] else '.';
    StripAround(before, middle, after, WHITE);
    LowerBoth(u, dots);
    HostEnd(h);
    StripRightAround(h, dots, DOT);
    HostTaken(h, before + middle + after);
  }

  lemma HostTaken(h: string, input: string)
    requires HostName(h) && Normal(input) == h
    ensures CleanDomain(input) == if h == "sites.tjhsst.edu" || EndsWith(h, ".sites.tjhsst.edu") then None else Some(h)
  {
    HostIsNormal(h);
    HostEnd(h);
    assert "." + RESERVED == ".sites.tjhsst.edu";
  }

  /** The router's subset test is strict: letters, digits, dashes and dots only, but not all of these. */
  lemma RouterIff(domain: string)
    ensures
      RouterAccepts(domain) <==>
      && (forall c :: c in domain ==> 'a' <= c <= 'z' || 'A' <= c <= 'Z' || '0' <= c <= '9' || c == '-' || c == '.')
      && !(forall c: char :: ('a' <= c <= 'z' || 'A' <= c <= 'Z' || '0' <= c <= '9' || c == '-' || c == '.') ==> c in domain)
  {
    if RouterAccepts(domain) {
      var c: char :| Allowed(c) && c !in domain;
    }
    assert forall i :: 0 <= i < |domain| ==> domain[i] in domain;
    if c: char :| ('a' <= c <= 'z' || 'A' <= c <= 'Z' || '0' <= c <= '9' || c == '-' || c == '.') && c !in domain {
      assert Allowed(c);
    }
  }

  // ---- newlines ----

  /** The input, stripped of outer whitespace and then of final dots, ends in a newline. */
  predicate KeepsNewline(input: string) {
    EndsWith(StripRight(Strip(input, WHITE), DOT), "\n")
  }

  /** Lower-casing moves no dots. */
  lemma {:induction false} LowerThenDots(s: string)
    ensures StripRight(ToLower(s), DOT) == ToLower(StripRight(s, DOT))
  {
    if s != "" && s[|s| - 1] == '.' {
      LowerThenDots(s[..|s| - 1]);
      LowerInit(s);
    }
  }

  lemma LowerInit(s: string)
    requires s != ""
    ensures ToLower(s)[..|s| - 1] == ToLower(s[..|s| - 1])
  {
  }

  lemma AcceptedNewline(input: string)
    requires CleanDomain(input).Some? && CleanDomain(input) != Some("")
    ensures KeepsNewline(input) <==> '\n' in CleanDomain(input).value
    ensures KeepsNewline(input) <==> Chop(CleanDomain(input).value) != CleanDomain(input).value
  {
    var domain, bare := CleanDomain(input).value, StripRight(Strip(input, WHITE), DOT);
    LowerThenDots(Strip(input, WHITE));
    HostIsNormal(Chop(domain));
    assert domain == ToLower(bare);
    assert domain[|domain| - 1] == '\n' <==> bare[|bare| - 1] == '\n';
    assert bare[|bare| - 1..] == [bare[|bare| - 1]];
  }

  lemma NewlineGoes(s: string)
    requires HostName(s)
    ensures !RouterAccepts(s + "\n") && CleanDomain(s + "\n") != Some(s + "\n")
  {
    var t := s + "\n";
    HostChar(s, 0);
    HostIsNormal(s);
    assert t[|t| - 1] == '\n' && t[..|t| - 1] == s;
    assert StripLeft(t, WHITE) == t;
    assert StripRight(t, WHITE) == StripRight(s, WHITE);
  }

  /** A domain that the form accepts passes the orchestrator's check.  It passes the router's, and the
      form leaves it alone, exactly unless the input keeps a newline in front of its final dots; then
      it passes the model's validator too. */
  lemma ValidatorsCompatible(input: string)
    requires CleanDomain(input).Some? && CleanDomain(input) != Some("")
    ensures
      var domain := CleanDomain(input).value;
      && OrchestratorAccepts(domain)
      && (RouterAccepts(domain) <==> !KeepsNewline(input))
      && (CleanDomain(domain) == Some(domain) <==> !KeepsNewline(input))
      && (ModelAccepts(domain) <==> !(KeepsNewline(input) && IsReserved(Chop(domain))))
  {
    var domain := CleanDomain(input).value;
    AcceptedNewline(input);
    HostIsNormal(Chop(domain));
    HostAtRouter(Chop(domain));
    if KeepsNewline(input) {
      assert domain == Chop(domain) + "\n";
      NewlineGoes(Chop(domain));
    }
  }

  /** For instance, this input is accepted with its newline, and the router refuses what is left. */
  lemma NewlineSurvives(input: string)
    requires input == "a.b\n."
    ensures CleanDomain(input) == Some("a.b\n") && KeepsNewline(input) && !RouterAccepts("a.b\n")
  {
    assert input[..4] == "a.b\n";
    assert ToLower(input) == input;
    assert Strip(input, WHITE) == input;
    assert StripRight(input, DOT) == "a.b\n";
    assert "a.b\n"[..3] == "a.b";
    assert "a.b" == "a" + "." + "b";
    SplitConcat("a", "b", '.');
    SplitSeparatorFree("a", '.');
    SplitSeparatorFree("b", '.');
    SplitSeparatorFree("a", '-');
    SplitSeparatorFree("b", '-');
    assert !IsReserved("a.b\n");
    NewlineGoes("a.b");
    assert "a.b" + "\n" == "a.b\n";
  }
}
