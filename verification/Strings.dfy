/** str.strip() and str.endswith(). */
module Strings {

  /** What str.strip() removes when it is not told. */
  const WHITE: set<char> := {
    ' ', '\t', '\n', '\U{0b}', '\U{0c}', '\r', '\U{1c}', '\U{1d}', '\U{1e}', '\U{1f}'}

  /** str.lstrip(drop) */
  function StripLeft(s: string, drop: set<char>): string {
    if s != "" && s[0] in drop then StripLeft(s[1..], drop) else s
  }

  /** str.rstrip(drop) */
  function StripRight(s: string, drop: set<char>): string {
    if s != "" && s[|s| - 1] in drop then StripRight(s[..|s| - 1], drop) else s
  }

  /** str.strip(drop) */
  function Strip(s: string, drop: set<char>): string {
    StripRight(StripLeft(s, drop), drop)
  }

  lemma {:induction false} StripRightShortens(s: string, drop: set<char>)
    ensures |StripRight(s, drop)| <= |s| && (forall c :: c in StripRight(s, drop) ==> c in s)
    ensures StripRight(s, drop) == s <==> s == "" || s[|s| - 1] !in drop
    ensures StripRight(s, drop) == s <==> |StripRight(s, drop)| == |s|
    ensures StripRight(s, drop) != "" ==> StripRight(s, drop)[0] == s[0]
  {
    if s != "" && s[|s| - 1] in drop {
      StripRightShortens(s[..|s| - 1], drop);
    }
  }

  lemma {:induction false} StripLeftShortens(s: string, drop: set<char>)
    ensures |StripLeft(s, drop)| <= |s| && (forall c :: c in StripLeft(s, drop) ==> c in s)
    ensures StripLeft(s, drop) == s <==> s == "" || s[0] !in drop
    ensures StripLeft(s, drop) == s <==> |StripLeft(s, drop)| == |s|
  {
    if s != "" && s[0] in drop {
      StripLeftShortens(s[1..], drop);
    }
  }

  predicate AllIn(s: string, drop: set<char>) {
    forall i :: 0 <= i < |s| ==> s[i] in drop
  }

  predicate EndsKept(s: string, drop: set<char>) {
    s != "" ==> s[0] !in drop && s[|s| - 1] !in drop
  }

  lemma WhiteIs(c: char)
    ensures c in WHITE <==> c == ' ' || 9 <= c as int <= 13 || 28 <= c as int <= 31
  {
  }

  lemma {:induction false} StripLeftAround(l: string, s: string, drop: set<char>)
    requires AllIn(l, drop) && (s != "" ==> s[0] !in drop)
    ensures StripLeft(l + s, drop) == s
  {
    if l == "" {
      assert l + s == s;
    } else {
      StripLeftAround(l[1..], s, drop);
      assert (l + s)[1..] == l[1..] + s;
    }
  }

  lemma {:induction false} StripRightAround(s: string, r: string, drop: set<char>)
    requires AllIn(r, drop) && (s != "" ==> s[|s| - 1] !in drop)
    ensures StripRight(s + r, drop) == s
    decreases r
  {
    if r == "" {
      assert s + r == s;
    } else {
      StripRightAround(s, r[..|r| - 1], drop);
      assert (s + r)[..|s + r| - 1] == s + r[..|r| - 1];
    }
  }

  /** What stands between characters of the set is what stripping leaves. */
  lemma StripAround(l: string, s: string, r: string, drop: set<char>)
    requires AllIn(l, drop) && AllIn(r, drop) && s != "" && EndsKept(s, drop)
    ensures Strip(l + s + r, drop) == s
  {
    StripLeftAround(l, s + r, drop);
    StripRightAround(s, r, drop);
    assert l + s + r == l + (s + r);
  }

  lemma {:induction false} StripLeftTakes(s: string, drop: set<char>) returns (l: string)
    ensures s == l + StripLeft(s, drop) && AllIn(l, drop)
  {
    l := "";
    if s != "" && s[0] in drop {
      l := StripLeftTakes(s[1..], drop);
      l := [s[0]] + l;
    }
  }

  lemma {:induction false} StripRightTakes(s: string, drop: set<char>) returns (r: string)
    ensures s == StripRight(s, drop) + r && AllIn(r, drop)
    ensures StripRight(s, drop) != "" ==> StripRight(s, drop)[0] == s[0] && StripRight(s, drop)[|StripRight(s, drop)| - 1] !in drop
  {
    r := "";
    if s != "" && s[|s| - 1] in drop {
      r := StripRightTakes(s[..|s| - 1], drop);
      r := r + [s[|s| - 1]];
    }
  }

  /** Stripping takes characters of the set off both ends until none is left there. */
  lemma StripIs(s: string, drop: set<char>) returns (l: string, r: string)
    ensures s == l + Strip(s, drop) + r && AllIn(l, drop) && AllIn(r, drop) && EndsKept(Strip(s, drop), drop)
  {
    l := StripLeftTakes(s, drop);
    r := StripRightTakes(StripLeft(s, drop), drop);
    StripLeftStops(s, drop);
  }

  lemma {:induction false} StripLeftStops(s: string, drop: set<char>)
    ensures StripLeft(s, drop) != "" ==> StripLeft(s, drop)[0] !in drop
  {
    if s != "" && s[0] in drop {
      StripLeftStops(s[1..], drop);
    }
  }

  /** str.endswith(t) */
  predicate EndsWith(s: string, t: string) {
    |s| >= |t| && s[|s| - |t|..] == t
  }
}
