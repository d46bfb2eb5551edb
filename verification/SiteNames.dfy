/** The names that stand for a site elsewhere: its directory, its terminal container and its service. */
module SiteNames {
  import opened Paths
  import opened Seqs

  // ---- numbers in decimal ----

  function DigitChar(d: nat): char
    requires d < 10
  {
    ('0' as int + d) as char
  }

  predicate IsDigits(s: string) {
    forall i :: 0 <= i < |s| ==> '0' <= s[i] <= '9'
  }

  /** str(n) */
  function Decimal(n: nat): (s: string)
    ensures s != "" && IsDigits(s)
  {
    if n < 10 then [DigitChar(n)] else Decimal(n / 10) + [DigitChar(n % 10)]
  }

  function Value(s: string): nat
    requires IsDigits(s)
  {
    if s == "" then 0 else Value(s[..|s| - 1]) * 10 + (s[|s| - 1] as int - '0' as int)
  }

  lemma {:induction false} ValueOfDecimal(n: nat)
    ensures Value(Decimal(n)) == n
  {
    var s := Decimal(n);
    if n >= 10 {
      ValueOfDecimal(n / 10);
      assert s[..|s| - 1] == Decimal(n / 10);
    } else {
      assert s[..0] == "";
    }
  }

  /** "{:0wd}".format(n), for the digits of n. */
  function Pad(s: string, w: nat): (r: string)
    requires IsDigits(s)
    ensures IsDigits(r) && |r| == if |s| < w then w else |s|
    decreases w - |s|
  {
    if |s| >= w then s else Pad("0" + s, w)
  }

  lemma {:induction false} LeadingZero(s: string)
    requires IsDigits(s)
    ensures Value("0" + s) == Value(s)
  {
    if s != "" {
      LeadingZero(s[..|s| - 1]);
      assert ("0" + s)[..|s|] == "0" + s[..|s| - 1];
    } else {
      assert ("0" + s)[..0] == "";
    }
  }

  lemma {:induction false} ValueOfPad(s: string, w: nat)
    requires IsDigits(s)
    ensures Value(Pad(s, w)) == Value(s)
    decreases w - |s|
  {
    if |s| < w {
      LeadingZero(s);
      ValueOfPad("0" + s, w);
    }
  }

  function Padded(n: nat, w: nat): (s: string)
    ensures IsDigits(s) && |s| >= w && s != ""
  {
    Pad(Decimal(n), w)
  }

  lemma PaddedInjective(a: nat, b: nat, w: nat)
    ensures Padded(a, w) == Padded(b, w) <==> a == b
  {
    ValueOfDecimal(a);
    ValueOfDecimal(b);
    ValueOfPad(Decimal(a), w);
    ValueOfPad(Decimal(b), w);
  }

  // ---- directories ----

  /** get_site_directory_path(), relative to the directory of all sites. */
  function SiteDirectory(id: nat): string {
    Padded(id / 100, 2) + "/" + Padded(id % 100, 2)
  }

  lemma DirectoryComps(id: nat)
    ensures Comps(SiteDirectory(id)) == [Padded(id / 100, 2), Padded(id % 100, 2)]
  {
    DigitsName(Padded(id / 100, 2));
    DigitsName(Padded(id % 100, 2));
    CompsConcat(Padded(id / 100, 2), Padded(id % 100, 2));
  }

  lemma DigitsName(s: string)
    requires IsDigits(s) && s != ""
    ensures Comps(s) == [s]
  {
    assert s[0] != '.' && '/' !in s;
    CompsOfName(s);
  }

  lemma TwoDigits(r: nat)
    requires r < 100
    ensures Padded(r, 2) == [DigitChar(r / 10), DigitChar(r % 10)]
  {
    if r < 10 {
      assert Decimal(r) == [DigitChar(r)];
      assert Pad(Decimal(r), 2) == Pad("0" + Decimal(r), 2);
    } else {
      assert Decimal(r / 10) == [DigitChar(r / 10)];
    }
  }

  lemma DigitsOf(n: nat)
    ensures n / 10 / 10 == n / 100 && n / 10 % 10 == n % 100 / 10 && n % 100 % 10 == n % 10
  {
  }

  lemma LastDigit(n: nat, q: nat, r: nat)
    requires n >= 10 && q == n / 10 && r == n % 10
    ensures Decimal(n) == Decimal(q) + [DigitChar(r)]
  {
  }

  lemma LastTwoDigits(n: nat)
    requires n >= 100
    ensures Decimal(n) == Decimal(n / 100) + [DigitChar(n % 100 / 10), DigitChar(n % 10)]
  {
    DigitsOf(n);
    LastDigit(n, n / 10, n % 10);
    LastDigit(n / 10, n / 100, n % 100 / 10);
  }

  lemma Hundreds(n: nat, r: nat, a: nat, b: nat)
    requires n >= 100 && r == n % 100 && a == n % 100 / 10 && b == n % 10
    ensures Decimal(n) == Decimal(n / 100) + Padded(r, 2)
  {
    LastTwoDigits(n);
    TwoDigitsOf(r, a, b);
  }

  lemma TwoDigitsOf(r: nat, a: nat, b: nat)
    requires r < 100 && a == r / 10 && b == r % 10
    ensures Padded(r, 2) == [DigitChar(a), DigitChar(b)]
  {
    TwoDigits(r);
  }

  lemma Unpadded(n: nat, w: nat)
    requires |Decimal(n)| >= w
    ensures Padded(n, w) == Decimal(n)
  {
  }

  lemma ThreePads(n: nat)
    requires n < 1000
    ensures Padded(n, 4) == [DigitChar(0), DigitChar(n / 100), DigitChar(n % 100 / 10), DigitChar(n % 10)]
  {
    var d := Decimal(n);
    if n < 10 {
      assert Pad(d, 4) == Pad("0" + d, 4) == Pad("0" + ("0" + d), 4) == Pad("0" + ("0" + ("0" + d)), 4);
    } else if n < 100 {
      assert Decimal(n / 10) == [DigitChar(n / 10)];
      assert Pad(d, 4) == Pad("0" + d, 4) == Pad("0" + ("0" + d), 4);
    } else {
      LastTwoDigits(n);
      assert Decimal(n / 100) == [DigitChar(n / 100)];
      assert Pad(d, 4) == Pad("0" + d, 4);
    }
  }

  lemma SmallHalves(n: nat)
    requires n < 1000
    ensures Padded(n, 4) == Padded(n / 100, 2) + Padded(n % 100, 2)
  {
    TwoDigits(n % 100);
    TwoDigits(n / 100);
    ThreePads(n);
    assert n % 100 % 10 == n % 10;
  }

  lemma LargeHalves(n: nat)
    requires n >= 1000
    ensures Padded(n, 4) == Padded(n / 100, 2) + Padded(n % 100, 2)
  {
    Hundreds(n, n % 100, n % 100 / 10, n % 10);
    TwoDigits(n % 100);
    FourDigits(n);
    Unpadded(n, 4);
    Unpadded(n / 100, 2);
  }

  lemma Halves(front: string, back: string, both: string)
    requires both == front + back && |back| == 2
    ensures both[..|both| - 2] == front && both[|both| - 2..] == back
  {
  }

  /** A site's directory is its number, padded to four digits, with a slash in front of the last two; its
      service has the same digits behind "site_", and its terminal container adds "_terminal". */
  lemma NamesSpelled(id: nat) returns (digits: string)
    ensures IsDigits(digits) && Value(digits) == id && |digits| >= 4 && (|digits| > 4 ==> digits[0] != '0')
    ensures SiteDirectory(id) == digits[..|digits| - 2] + "/" + digits[|digits| - 2..]
    ensures ServiceName(id) == "site_" + digits
    ensures TerminalName(id) == "site_" + digits + "_terminal"
  {
    digits := Padded(id, 4);
    TwoDigits(id % 100);
    if id < 1000 {
      SmallHalves(id);
    } else {
      LargeHalves(id);
    }
    Halves(Padded(id / 100, 2), Padded(id % 100, 2), digits);
    ValueOfDecimal(id);
    ValueOfPad(Decimal(id), 4);
    if |digits| > 4 {
      NoLeadingZero(id);
    }
  }

  /** No site's directory is another site's directory or lies inside one. */
  lemma DirectoriesApart(a: nat, b: nat)
    ensures Comps(SiteDirectory(a)) <= Comps(SiteDirectory(b)) <==> a == b
  {
    DirectoryComps(a);
    DirectoryComps(b);
    var ca, cb := Comps(SiteDirectory(a)), Comps(SiteDirectory(b));
    PaddedInjective(a / 100, b / 100, 2);
    PaddedInjective(a % 100, b % 100, 2);
    if ca <= cb {
      assert ca[0] == cb[0] && ca[1] == cb[1];
    }
  }

  // ---- containers and services ----

  function ServiceName(id: nat): string {
    "site_" + Padded(id, 4)
  }

  function TerminalName(id: nat): string {
    ServiceName(id) + "_terminal"
  }

  predicate OccursAt(s: string, t: string, k: nat) {
    k + |s| <= |t| && t[k..k + |s|] == s
  }

  /** Docker's name filter lists whatever contains the name asked for. */
  predicate Contains(t: string, s: string) {
    exists k :: 0 <= k <= |t| && OccursAt(s, t, k)
  }

  /** Both kinds of name have their only 's' in front. */
  lemma OccursInFront(s: string, t: string, k: nat, d: string, rest: string)
    requires OccursAt(s, t, k) && "site_" <= s
    requires t == "site_" + d + rest && IsDigits(d) && 's' !in rest
    ensures k == 0
  {
    assert t[k] == s[0] == 's';
    assert forall i :: 5 <= i < 5 + |d| ==> t[i] == d[i - 5];
    assert forall i :: 5 + |d| <= i < |t| ==> t[i] == rest[i - 5 - |d|];
  }

  lemma SameDigits(d: string, e: string, x: string, y: string)
    requires IsDigits(d) && IsDigits(e) && d + "_" + x <= e + "_" + y
    ensures d == e
  {
    var s, t := d + "_" + x, e + "_" + y;
    assert forall i :: 0 <= i < |d| ==> s[i] == d[i] && s[i] != '_';
    assert forall i :: 0 <= i < |e| ==> t[i] == e[i] && t[i] != '_';
    assert s[|d|] == '_' && t[|d|] == '_' && t[|e|] == '_';
  }

  /** Filtering by a terminal container's name lists no other site's. */
  lemma TerminalNameUnambiguous(a: nat, b: nat)
    ensures Contains(TerminalName(b), TerminalName(a)) <==> a == b
  {
    var s, t := TerminalName(a), TerminalName(b);
    PaddedInjective(a, b, 4);
    if a == b {
      assert OccursAt(s, t, 0);
    }
    if Contains(t, s) {
      var k :| 0 <= k <= |t| && OccursAt(s, t, k);
      OccursInFront(s, t, k, Padded(b, 4), "_terminal");
      assert s <= t;
      assert s[5..] == Padded(a, 4) + "_" + "terminal";
      assert t[5..] == Padded(b, 4) + "_" + "terminal";
      SameDigits(Padded(a, 4), Padded(b, 4), "terminal", "terminal");
    }
  }

  /** a is b, or b without some of its last digits. */
  predicate Truncates(a: nat, b: nat) {
    a == b || (b >= 10 && Truncates(a, b / 10))
  }

  lemma {:induction false} DecimalPrefix(a: nat, b: nat)
    requires a > 0
    ensures Decimal(a) <= Decimal(b) <==> Truncates(a, b)
    decreases b
  {
    var s, t := Decimal(a), Decimal(b);
    ValueOfDecimal(a);
    ValueOfDecimal(b);
    if b >= 10 {
      DecimalPrefix(a, b / 10);
      var u := Decimal(b / 10);
      assert t[..|u|] == u;
      if s <= t && |s| < |t| {
        assert s == t[..|s|] == u[..|s|];
      }
      if s <= u {
        assert t[..|s|] == u[..|s|];
      }
    }
    if s <= t && |s| == |t| {
      assert s == t;
    }
  }

  lemma {:induction false} NoLeadingZero(n: nat)
    requires n > 0
    ensures Decimal(n)[0] != '0'
  {
    if n >= 10 {
      NoLeadingZero(n / 10);
    }
  }

  lemma FourDigits(n: nat)
    ensures n >= 1000 <==> |Decimal(n)| >= 4
  {
    if n >= 10 {
      assert |Decimal(n)| == |Decimal(n / 10)| + 1;
      if n >= 100 {
        assert |Decimal(n / 10)| == |Decimal(n / 10 / 10)| + 1;
        if n >= 1000 {
          assert |Decimal(n / 10 / 10)| == |Decimal(n / 10 / 10 / 10)| + 1;
        }
      }
    }
  }

  lemma {:induction false} PadStartsWithZero(s: string, w: nat)
    requires IsDigits(s) && |s| < w
    ensures Pad(s, w)[0] == '0'
    decreases w - |s|
  {
    if |s| + 1 < w {
      PadStartsWithZero("0" + s, w);
    }
  }

  lemma PaddedPrefix(a: nat, b: nat)
    ensures Padded(a, 4) <= Padded(b, 4) <==> a == b || (a >= 1000 && Truncates(a, b))
  {
    PaddedInjective(a, b, 4);
    FourDigits(a);
    FourDigits(b);
    if a >= 1000 {
      DecimalPrefix(a, b);
      if b < 1000 {
        assert !Truncates(a, b);
        assert |Padded(b, 4)| == 4;
      }
    } else {
      PadStartsWithZero(Decimal(a), 4);
      if b >= 1000 {
        NoLeadingZero(b);
      }
    }
  }

  /** Filtering by a service's name also lists the services whose number only adds digits to it, once
      site numbers outgrow the padding. */
  lemma ServiceNameAmbiguity(a: nat, b: nat)
    ensures Contains(ServiceName(b), ServiceName(a)) <==> a == b || (a >= 1000 && Truncates(a, b))
  {
    var s, t := ServiceName(a), ServiceName(b);
    var d, e := Padded(a, 4), Padded(b, 4);
    PaddedPrefix(a, b);
    assert s[5..] == d && t[5..] == e;
    if d <= e {
      assert s <= t;
      assert OccursAt(s, t, 0);
    }
    if Contains(t, s) {
      var k :| 0 <= k <= |t| && OccursAt(s, t, k);
      assert t == "site_" + e + "";
      OccursInFront(s, t, k, e, "");
      assert s <= t;
      assert d == t[5..|s|];
    }
  }

  /** For instance site 1000's filter lists site 10000's service as well. */
  lemma ServiceNameClash()
    ensures Contains(ServiceName(10000), ServiceName(1000))
  {
    assert Truncates(1000, 1000);
    assert Truncates(1000, 10000);
    ServiceNameAmbiguity(1000, 10000);
  }

  // ---- looking up by name ----

  datatype Lookup = Missing | Found(name: string) | Multiple

  /** client.….list(filters={"name": want}) */
  ghost function Listed(names: seq<string>, want: string): seq<string> {
    if names == [] then []
    else (if Contains(names[0], want) then [names[0]] else []) + Listed(names[1..], want)
  }

  function Exactly(names: seq<string>, want: string): seq<string> {
    if names == [] then []
    else (if names[0] == want then [names[0]] else []) + Exactly(names[1..], want)
  }

  function Only(matches: seq<string>): Lookup {
    if matches == [] then Missing else if |matches| == 1 then Found(matches[0]) else Multiple
  }

  /** get_container() with a name filter */
  ghost function GetContainer(names: seq<string>, want: string): Lookup {
    Only(Listed(names, want))
  }

  /** get_service_by_name() */
  ghost function GetServiceByName(names: seq<string>, want: string): Lookup {
    Only(Exactly(Listed(names, want), want))
  }

  lemma {:induction false} ExactlyOne(names: seq<string>, want: string)
    requires Distinct(names)
    ensures Exactly(names, want) == if want in names then [want] else []
  {
    if names != [] {
      ExactlyOne(names[1..], want);
      assert want in names <==> want == names[0] || want in names[1..];
    }
  }

  lemma {:induction false} ExactlyOfListed(names: seq<string>, want: string)
    ensures Exactly(Listed(names, want), want) == Exactly(names, want)
  {
    if names != [] {
      ExactlyOfListed(names[1..], want);
      if names[0] == want {
        assert OccursAt(want, want, 0);
      }
      var rest := Listed(names[1..], want);
      assert ([names[0]] + rest)[1..] == rest;
      assert [] + rest == rest;
    }
  }

  /** The second, exact filter restores what the service names lack: whatever services there are, a
      lookup finds the one asked for, and no other. */
  lemma ServiceLookupExact(names: seq<string>, want: string)
    requires Distinct(names)
    ensures GetServiceByName(names, want) == if want in names then Found(want) else Missing
  {
    ExactlyOfListed(names, want);
    ExactlyOne(names, want);
  }

  function TerminalNames(ids: seq<nat>): seq<string> {
    if ids == [] then [] else [TerminalName(ids[0])] + TerminalNames(ids[1..])
  }

  lemma {:induction false} TerminalListed(ids: seq<nat>, id: nat)
    requires Distinct(ids)
    ensures Listed(TerminalNames(ids), TerminalName(id)) == if id in ids then [TerminalName(id)] else []
  {
    if ids != [] {
      TerminalListed(ids[1..], id);
      TerminalNameUnambiguous(id, ids[0]);
      assert TerminalNames(ids)[1..] == TerminalNames(ids[1..]);
      assert id in ids <==> id == ids[0] || id in ids[1..];
    }
  }

  /** Among the terminal containers of any sites, the filter alone finds a site's own. */
  lemma TerminalLookupExact(ids: seq<nat>, id: nat)
    requires Distinct(ids)
    ensures GetContainer(TerminalNames(ids), TerminalName(id)) == if id in ids then Found(TerminalName(id)) else Missing
  {
    TerminalListed(ids, id);
  }
}
