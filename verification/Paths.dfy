/** Slash-separated paths: the string splitting and joining that the file monitor, the
    documentation pages and the site editor all rely on. */
module Paths {
  import opened Seqs

  /** str.split(sep): always at least one part, none of which contains the separator. */
  function Split(s: string, sep: char): (parts: seq<string>)
    ensures |parts| >= 1
    ensures forall i :: 0 <= i < |parts| ==> sep !in parts[i]
  {
    if s == "" then [""]
    else
      var rest := Split(s[1..], sep);
      if s[0] == sep then [""] + rest else [[s[0]] + rest[0]] + rest[1..]
  }

  /** sep.join(parts) */
  function Join(parts: seq<string>, sep: char): string
  {
    if |parts| == 0 then ""
    else if |parts| == 1 then parts[0]
    else parts[0] + [sep] + Join(parts[1..], sep)
  }

  lemma {:induction false} JoinSplit(s: string, sep: char)
    ensures Join(Split(s, sep), sep) == s
  {
    if s != "" {
      JoinSplit(s[1..], sep);
      var rest := Split(s[1..], sep);
      if s[0] == sep {
        assert ([""] + rest)[1..] == rest;
      } else {
        assert Split(s, sep)[1..] == rest[1..];
      }
    }
  }

  lemma {:induction false} SplitSeparatorFree(s: string, sep: char)
    requires sep !in s
    ensures Split(s, sep) == [s]
  {
    if s != "" {
      SplitSeparatorFree(s[1..], sep);
      assert [s[0]] + s[1..] == s;
    }
  }

  /** Prepends one character to the parts of what follows it. */
  function Extend(c: char, parts: seq<string>, sep: char): (r: seq<string>)
    requires |parts| >= 1
    ensures |r| >= 1
  {
    if c == sep then [""] + parts else [[c] + parts[0]] + parts[1..]
  }

  lemma SplitFirst(s: string, t: string, sep: char)
    requires s != "" && s[1..] == t
    ensures Split(s, sep) == Extend(s[0], Split(t, sep), sep)
  {
  }

  lemma ExtendConcat(c: char, a: seq<string>, b: seq<string>, sep: char)
    requires |a| >= 1
    ensures Extend(c, a + b, sep) == Extend(c, a, sep) + b
  {
  }

  /** Splitting cuts at every separator, whatever stands around it. */
  lemma {:induction false} SplitConcat(a: string, b: string, sep: char)
    ensures Split(a + [sep] + b, sep) == Split(a, sep) + Split(b, sep)
  {
    var whole := a + [sep] + b;
    if a == "" {
      SplitFirst(whole, b, sep);
    } else {
      SplitConcat(a[1..], b, sep);
      SplitFirst(whole, a[1..] + [sep] + b, sep);
      SplitFirst(a, a[1..], sep);
      ExtendConcat(a[0], Split(a[1..], sep), Split(b, sep), sep);
    }
  }

  lemma {:induction false} SplitJoin(parts: seq<string>, sep: char)
    requires |parts| >= 1
    requires forall i :: 0 <= i < |parts| ==> sep !in parts[i]
    ensures Split(Join(parts, sep), sep) == parts
  {
    SplitSeparatorFree(parts[0], sep);
    if |parts| > 1 {
      SplitJoin(parts[1..], sep);
      SplitConcat(parts[0], Join(parts[1..], sep), sep);
      assert [parts[0]] + parts[1..] == parts;
    } else {
      assert parts == [parts[0]];
    }
  }

  /** A component that names something: not empty and not the current directory. */
  predicate Names(c: string) {
    c != "" && c != "."
  }

  /** A usable component: it names something and holds no slash. */
  predicate GoodName(c: string) {
    Names(c) && '/' !in c
  }

  predicate GoodNames(parts: seq<string>) {
    forall i :: 0 <= i < |parts| ==> GoodName(parts[i])
  }

  function Keep(parts: seq<string>): (kept: seq<string>)
    ensures forall i :: 0 <= i < |kept| ==> Names(kept[i]) && kept[i] in parts
  {
    if parts == [] then []
    else (if Names(parts[0]) then [parts[0]] else []) + Keep(parts[1..])
  }

  /** The components of a path, with empty ones and "." dropped. */
  function Comps(path: string): (cs: seq<string>)
    ensures GoodNames(cs)
  {
    Keep(Split(path, '/'))
  }

  lemma KeepFirst(parts: seq<string>)
    requires parts != []
    ensures Keep(parts) == (if Names(parts[0]) then [parts[0]] else []) + Keep(parts[1..])
  {
  }

  lemma {:induction false} KeepBoth(a: seq<string>, b: seq<string>, both: seq<string>)
    requires both == a + b
    ensures Keep(both) == Keep(a) + Keep(b)
    decreases a
  {
    if a == [] {
      ConcatNothing(a, b, both);
    } else {
      ConcatTail(a, b, both);
      KeepBoth(a[1..], b, both[1..]);
      KeepFirst(both);
      KeepFirst(a);
      ConcatAssoc(if Names(a[0]) then [a[0]] else [], Keep(a[1..]), Keep(b));
    }
  }

  lemma KeepConcat(a: seq<string>, b: seq<string>)
    ensures Keep(a + b) == Keep(a) + Keep(b)
  {
    KeepBoth(a, b, a + b);
  }

  lemma {:induction false} KeepAll(parts: seq<string>)
    requires forall i :: 0 <= i < |parts| ==> Names(parts[i])
    ensures Keep(parts) == parts
  {
    if parts != [] {
      KeepAll(parts[1..]);
      assert [parts[0]] + parts[1..] == parts;
    }
  }

  lemma CompsConcat(a: string, b: string)
    ensures Comps(a + "/" + b) == Comps(a) + Comps(b)
  {
    SplitConcat(a, b, '/');
    KeepConcat(Split(a, '/'), Split(b, '/'));
  }

  lemma CompsOfName(c: string)
    requires GoodName(c)
    ensures Comps(c) == [c]
  {
    SplitSeparatorFree(c, '/');
    KeepAll([c]);
  }

  lemma CompsOfNothing()
    ensures Comps("") == []
    ensures Comps(".") == []
  {
    SplitSeparatorFree(".", '/');
  }

  lemma CompsJoin(parts: seq<string>)
    requires GoodNames(parts)
    ensures Comps(Join(parts, '/')) == parts
  {
    if parts == [] {
      CompsOfNothing();
    } else {
      SplitJoin(parts, '/');
      KeepAll(parts);
    }
  }

  /** A relative path in its only canonical spelling. */
  predicate Canonical(path: string) {
    path == Join(Comps(path), '/')
  }

  lemma {:induction false} JoinSnoc(parts: seq<string>, c: string, sep: char)
    requires parts != []
    ensures Join(parts + [c], sep) == Join(parts, sep) + [sep] + c
  {
    if |parts| == 1 {
      assert (parts + [c])[1..] == [c];
    } else {
      JoinSnoc(parts[1..], c, sep);
      assert (parts + [c])[1..] == parts[1..] + [c];
    }
  }

  /** str.rstrip("/") */
  function RStrip(s: string): (r: string)
    ensures r <= s && (r != "" ==> r[|r| - 1] != '/')
    ensures s != "" && s[|s| - 1] != '/' ==> r == s
  {
    if s != "" && s[|s| - 1] == '/' then RStrip(s[..|s| - 1]) else s
  }

  lemma CompsSlash(s: string, t: string)
    requires t == s + "/"
    ensures Comps(t) == Comps(s)
  {
    CompsConcat(s, "");
    CompsOfNothing();
    assert t == s + "/" + "";
  }

  lemma {:induction false} CompsRStrip(s: string)
    ensures Comps(RStrip(s)) == Comps(s)
  {
    if s != "" && s[|s| - 1] == '/' {
      CompsRStrip(s[..|s| - 1]);
      CompsSlash(s[..|s| - 1], s);
    }
  }
}
