/** Page links and page slices. */
module Pagination {
  import opened Options

  /** One entry of the list of links: what it displays and the page it leads to, if any. */
  datatype Link =
    | Previous(to: Option<int>)
    | Next(to: Option<int>)
    | Spacer
    | Number(page: int, to: Option<int>)

  datatype Settings = Settings(
    perPage: nat, numStart: nat, numEnd: nat, numAround: nat,
    currentLink: bool, alwaysPrevious: bool, alwaysNext: bool)

  function Min(a: int, b: int): int { if a < b then a else b }
  function Max(a: int, b: int): int { if a < b then b else a }

  // ---- pages of items ----

  /** Paginator.num_pages: an empty list still has one page. */
  function NumPages(count: nat, perPage: nat): (n: nat)
    requires perPage > 0
  {
    (Max(1, count) + perPage - 1) / perPage
  }

  lemma PagesBound(count: nat, perPage: nat)
    requires perPage > 0
    ensures var n := NumPages(count, perPage); n >= 1 && (n - 1) * perPage < Max(1, count) <= n * perPage
  {
    var h, n := Max(1, count), NumPages(count, perPage);
    assert h + perPage - 1 == n * perPage + (h + perPage - 1) % perPage;
    assert (n - 1) * perPage == n * perPage - perPage;
    assert n < 1 ==> n * perPage <= 0;
  }

  lemma PageInside(count: nat, perPage: nat, p: int)
    requires perPage > 0 && 1 <= p < NumPages(count, perPage)
    ensures 0 <= (p - 1) * perPage < p * perPage < count
    ensures p * perPage == (p - 1) * perPage + perPage
  {
    var n := NumPages(count, perPage);
    PagesBound(count, perPage);
    assert (p - 1) * perPage == p * perPage - perPage;
    assert p * perPage <= (n - 1) * perPage;
  }

  /** Page.start_index() and Page.end_index() */
  function StartIndex(count: nat, perPage: nat, p: int): int {
    if count == 0 then 0 else perPage * (p - 1) + 1
  }

  function EndIndex(count: nat, perPage: nat, p: int): int
    requires perPage > 0
  {
    if p == NumPages(count, perPage) then count else p * perPage
  }

  /** The items of one page. */
  function PageItems<T>(items: seq<T>, perPage: nat, p: int): seq<T>
    requires perPage > 0 && 1 <= p <= NumPages(|items|, perPage)
  {
    SliceFits(|items|, perPage, p);
    items[Max(StartIndex(|items|, perPage, p) - 1, 0)..EndIndex(|items|, perPage, p)]
  }

  lemma SliceFits(count: nat, perPage: nat, p: int)
    requires perPage > 0 && 1 <= p <= NumPages(count, perPage)
    ensures Max(StartIndex(count, perPage, p) - 1, 0) == Min((p - 1) * perPage, count)
    ensures EndIndex(count, perPage, p) == Min(p * perPage, count)
    ensures 0 <= Min((p - 1) * perPage, count) <= Min(p * perPage, count)
  {
    PagesBound(count, perPage);
    assert perPage * (p - 1) == (p - 1) * perPage;
    if p < NumPages(count, perPage) {
      PageInside(count, perPage, p);
    } else {
      assert 0 <= (p - 1) * perPage;
    }
  }

  /** Pages 1 to k, one after the other. */
  function FirstPages<T>(items: seq<T>, perPage: nat, k: nat): seq<T>
    requires perPage > 0 && k <= NumPages(|items|, perPage)
  {
    if k == 0 then [] else FirstPages(items, perPage, k - 1) + PageItems(items, perPage, k)
  }

  /** A page goes on where the pages before it end. */
  lemma PageContinues<T>(items: seq<T>, perPage: nat, k: nat)
    requires perPage > 0 && 1 <= k <= NumPages(|items|, perPage)
    ensures 0 <= Min((k - 1) * perPage, |items|) <= Min(k * perPage, |items|)
    ensures items[..Min((k - 1) * perPage, |items|)] + PageItems(items, perPage, k) == items[..Min(k * perPage, |items|)]
  {
    SliceFits(|items|, perPage, k);
  }

  lemma {:induction false} FirstPagesArePrefix<T>(items: seq<T>, perPage: nat, k: nat)
    requires perPage > 0 && k <= NumPages(|items|, perPage)
    ensures 0 <= Min(k * perPage, |items|)
    ensures FirstPages(items, perPage, k) == items[..Min(k * perPage, |items|)]
  {
    if k == 0 {
      assert k * perPage == 0;
    } else {
      FirstPagesArePrefix(items, perPage, k - 1);
      PageContinues(items, perPage, k);
    }
  }

  /** The pages partition the items: put together in order they are the whole list, and every page
      but the last is full. */
  lemma PagesPartitionItems<T>(items: seq<T>, perPage: nat)
    requires perPage > 0
    ensures FirstPages(items, perPage, NumPages(|items|, perPage)) == items
    ensures
      forall p :: 1 <= p <= NumPages(|items|, perPage) ==>
        && (p < NumPages(|items|, perPage) ==> |PageItems(items, perPage, p)| == perPage)
        && |PageItems(items, perPage, p)| <= perPage
        && (items != [] ==> PageItems(items, perPage, p) != [])
  {
    var n := NumPages(|items|, perPage);
    PagesBound(|items|, perPage);
    FirstPagesArePrefix(items, perPage, n);
    forall p | 1 <= p <= n
      ensures p < n ==> |PageItems(items, perPage, p)| == perPage
      ensures |PageItems(items, perPage, p)| <= perPage
      ensures items != [] ==> PageItems(items, perPage, p) != []
    {
      SliceFits(|items|, perPage, p);
      assert (p - 1) * perPage == p * perPage - perPage;
      if p < n {
        PageInside(|items|, perPage, p);
      }
    }
  }

  // ---- which pages have links ----

  /** Whether page i is listed when page p of n is displayed. */
  predicate Visible(s: Settings, p: int, n: int, i: int) {
    || i == p
    || (i < p && (i <= s.numStart || i >= p - s.numAround))
    || (i > p && (i <= p + s.numAround || i > n - s.numEnd))
  }

  function PageLink(s: Settings, p: int, i: int): Link {
    Number(i, if i == p && !s.currentLink then None else Some(i))
  }

  /** The reference list of links to pages 1 to k: every visible page, and one spacer for every
      unbroken run of hidden ones. */
  function Walk(s: Settings, p: int, n: int, k: nat): seq<Link> {
    if k == 0 then []
    else
      Walk(s, p, n, k - 1) +
      if Visible(s, p, n, k) then [PageLink(s, p, k)]
      else if k == 1 || Visible(s, p, n, k - 1) then [Spacer]
      else []
  }

  function Front(s: Settings, p: int): seq<Link> {
    if p > 1 then [Previous(Some(p - 1))] else if s.alwaysPrevious then [Previous(None)] else []
  }

  function Back(s: Settings, p: int, n: int): seq<Link> {
    if p < n then [Next(Some(p + 1))] else if s.alwaysNext then [Next(None)] else []
  }

  lemma {:induction false} HiddenRun(s: Settings, p: int, n: int, lo: nat, hi: nat)
    requires lo < hi && (lo == 0 || Visible(s, p, n, lo))
    requires forall i :: lo < i <= hi ==> !Visible(s, p, n, i)
    ensures Walk(s, p, n, hi) == Walk(s, p, n, lo) + [Spacer]
    decreases hi
  {
    if hi > lo + 1 {
      HiddenRun(s, p, n, lo, hi - 1);
    }
  }

  /** The previous link, the links to the first pages and the spacer behind them. */
  method FirstLinks(s: Settings, p: int, n: int) returns (links: seq<Link>)
    requires 1 <= p <= n
    ensures links == Front(s, p) + Walk(s, p, n, Max(p - s.numAround, 1) - 1)
  {
    links := [];
    if p > 1 {
      links := links + [Previous(Some(p - 1))];
      var i := 1;
      while i < Min(s.numStart + 1, p - s.numAround)
        invariant 1 <= i <= Max(1, Min(s.numStart + 1, p - s.numAround))
        invariant links == Front(s, p) + Walk(s, p, n, i - 1)
      {
        links := links + [PageLink(s, p, i)];
        i := i + 1;
      }
      if s.numStart + 1 < p - s.numAround {
        HiddenRun(s, p, n, s.numStart, p - s.numAround - 1);
        links := links + [Spacer];
      }
    } else if s.alwaysPrevious {
      links := links + [Previous(None)];
    }
  }

  /** All links to the pages before page p. */
  method LinksBefore(s: Settings, p: int, n: int) returns (links: seq<Link>)
    requires 1 <= p <= n
    ensures links == Front(s, p) + Walk(s, p, n, p - 1)
  {
    links := FirstLinks(s, p, n);
    var i := Max(p - s.numAround, 1);
    while i < p
      invariant Max(p - s.numAround, 1) <= i <= p
      invariant links == Front(s, p) + Walk(s, p, n, i - 1)
    {
      links := links + [PageLink(s, p, i)];
      i := i + 1;
    }
  }

  /** The links to the pages after page p, added to those up to page p. */
  method LinksAfter(upTo: seq<Link>, s: Settings, p: int, n: int) returns (links: seq<Link>)
    requires 1 <= p <= n && upTo == Front(s, p) + Walk(s, p, n, p)
    ensures links == Front(s, p) + Walk(s, p, n, n) + Back(s, p, n)
  {
    links := upTo;
    var i := p + 1;
    while i < Min(p + s.numAround, n) + 1
      invariant p + 1 <= i <= Min(p + s.numAround, n) + 1
      invariant links == Front(s, p) + Walk(s, p, n, i - 1)
    {
      links := links + [PageLink(s, p, i)];
      i := i + 1;
    }
    if p < n {
      if n - s.numEnd > p + s.numAround {
        HiddenRun(s, p, n, p + s.numAround, n - s.numEnd);
        links := links + [Spacer];
      }
      i := Max(n - s.numEnd, p + s.numAround) + 1;
      assert links == Front(s, p) + Walk(s, p, n, Min(i - 1, n));
      while i < n + 1
        invariant i > Max(n - s.numEnd, p + s.numAround)
        invariant links == Front(s, p) + Walk(s, p, n, Min(i - 1, n))
      {
        links := links + [PageLink(s, p, i)];
        i := i + 1;
      }
      links := links + [Next(Some(p + 1))];
    } else if s.alwaysNext {
      links := links + [Next(None)];
    }
  }

  /** paginate() */
  method Paginate<T>(items: seq<T>, pageNum: int, s: Settings) returns (page: seq<T>, links: seq<Link>)
    requires s.perPage > 0
    ensures
      var n := NumPages(|items|, s.perPage);
      var p := Max(1, Min(n, pageNum));
      && 1 <= p <= n
      && page == PageItems(items, s.perPage, p)
      && links == Front(s, p) + Walk(s, p, n, n) + Back(s, p, n)
  {
    PagesBound(|items|, s.perPage);
    var n := NumPages(|items|, s.perPage);
    var p := Max(1, Min(n, pageNum));
    links := LinksBefore(s, p, n);
    links := links + [PageLink(s, p, p)];
    links := LinksAfter(links, s, p, n);
    SliceFits(|items|, s.perPage, p);
    page := items[Max(StartIndex(|items|, s.perPage, p) - 1, 0)..EndIndex(|items|, s.perPage, p)];
  }

  // ---- what the list of links says ----

  lemma {:induction false} WalkRange(s: Settings, p: int, n: int, k: nat, i: nat)
    requires i < |Walk(s, p, n, k)|
    ensures Walk(s, p, n, k)[i].Spacer? || (Walk(s, p, n, k)[i].Number? && 1 <= Walk(s, p, n, k)[i].page <= k)
    decreases k
  {
    if i < |Walk(s, p, n, k - 1)| {
      WalkRange(s, p, n, k - 1, i);
    }
  }

  /** Page labels strictly increase along the list. */
  lemma {:induction false} LabelsIncrease(s: Settings, p: int, n: int, k: nat, i: nat, j: nat)
    requires i < j < |Walk(s, p, n, k)| && Walk(s, p, n, k)[i].Number? && Walk(s, p, n, k)[j].Number?
    ensures Walk(s, p, n, k)[i].page < Walk(s, p, n, k)[j].page
    decreases k
  {
    var v := Walk(s, p, n, k - 1);
    if j < |v| {
      LabelsIncrease(s, p, n, k - 1, i, j);
    } else {
      WalkRange(s, p, n, k - 1, i);
    }
  }

  lemma {:induction false} WalkEnds(s: Settings, p: int, n: int, k: nat)
    requires k > 0
    ensures
      var w := Walk(s, p, n, k);
      w != [] && w[|w| - 1] == if Visible(s, p, n, k) then PageLink(s, p, k) else Spacer
    decreases k
  {
    if k > 1 {
      WalkEnds(s, p, n, k - 1);
    }
  }

  /** Two page links with nothing between them lead to consecutive pages: a gap always has a
      spacer in it. */
  lemma {:induction false} GapHasSpacer(s: Settings, p: int, n: int, k: nat, i: nat)
    requires i + 1 < |Walk(s, p, n, k)| && Walk(s, p, n, k)[i].Number? && Walk(s, p, n, k)[i + 1].Number?
    ensures Walk(s, p, n, k)[i + 1].page == Walk(s, p, n, k)[i].page + 1
    decreases k
  {
    var v := Walk(s, p, n, k - 1);
    if i + 1 < |v| {
      GapHasSpacer(s, p, n, k - 1, i);
    } else if k > 1 {
      WalkEnds(s, p, n, k - 1);
    }
  }

  /** A page is listed just if it is visible. */
  lemma {:induction false} ListedIffVisible(s: Settings, p: int, n: int, k: nat, i: int)
    ensures PageLink(s, p, i) in Walk(s, p, n, k) <==> (1 <= i <= k && Visible(s, p, n, i))
    decreases k
  {
    if k > 0 {
      ListedIffVisible(s, p, n, k - 1, i);
    }
  }

  function Spacers(w: seq<Link>): nat {
    if w == [] then 0 else Spacers(w[..|w| - 1]) + if w[|w| - 1].Spacer? then 1 else 0
  }

  lemma SpacersSnoc(w: seq<Link>, x: Link)
    ensures Spacers(w + [x]) == Spacers(w) + if x.Spacer? then 1 else 0
  {
    assert (w + [x])[..|w|] == w;
  }

  lemma SpacersStep(s: Settings, p: int, n: int, k: nat)
    requires k > 0
    ensures
      Spacers(Walk(s, p, n, k)) ==
      Spacers(Walk(s, p, n, k - 1)) +
      if !Visible(s, p, n, k) && (k == 1 || Visible(s, p, n, k - 1)) then 1 else 0
  {
    var v := Walk(s, p, n, k - 1);
    SpacersSnoc(v, PageLink(s, p, k));
    SpacersSnoc(v, Spacer);
    assert v + [] == v;
  }

  lemma {:induction false} SpacersBefore(s: Settings, p: int, n: int, k: nat)
    requires 1 <= p <= n && k <= p
    ensures Spacers(Walk(s, p, n, k)) == if s.numStart < k && s.numStart + 1 < p - s.numAround then 1 else 0
    decreases k
  {
    if k > 0 {
      SpacersBefore(s, p, n, k - 1);
      SpacersStep(s, p, n, k);
    }
  }

  lemma {:induction false} SpacersAfter(s: Settings, p: int, n: int, k: nat)
    requires 1 <= p <= k <= n
    ensures
      Spacers(Walk(s, p, n, k)) ==
      Spacers(Walk(s, p, n, p)) + if p + s.numAround < k && p + s.numAround < n - s.numEnd then 1 else 0
    decreases k
  {
    if k > p {
      SpacersAfter(s, p, n, k - 1);
      SpacersStep(s, p, n, k);
    }
  }

  /** Each side of the current page has one spacer if a page there is hidden, and otherwise none. */
  lemma SpacerIffHidden(s: Settings, p: int, n: int)
    requires 1 <= p <= n
    ensures
      var before := if exists i :: 1 <= i < p && !Visible(s, p, n, i) then 1 else 0;
      var after := if exists i :: p < i <= n && !Visible(s, p, n, i) then 1 else 0;
      && Spacers(Walk(s, p, n, p)) == before
      && Spacers(Walk(s, p, n, n)) == before + after
  {
    SpacersBefore(s, p, n, p);
    SpacersAfter(s, p, n, n);
    if s.numStart + 1 < p - s.numAround {
      assert !Visible(s, p, n, s.numStart + 1);
    }
    if p + s.numAround < n - s.numEnd {
      assert !Visible(s, p, n, p + s.numAround + 1);
    }
  }

  // ---- where the links lead ----

  /** The list of links as Paginate() returns it. */
  predicate IsResult(s: Settings, p: int, n: int, links: seq<Link>) {
    1 <= p <= n && links == Front(s, p) + Walk(s, p, n, n) + Back(s, p, n)
  }

  lemma {:induction false} WalkTarget(s: Settings, p: int, n: int, k: nat, i: nat)
    requires i < |Walk(s, p, n, k)| && Walk(s, p, n, k)[i].Number?
    ensures
      var link := Walk(s, p, n, k)[i];
      1 <= link.page <= k && link.to == if link.page == p && !s.currentLink then None else Some(link.page)
    decreases k
  {
    if i < |Walk(s, p, n, k - 1)| {
      WalkTarget(s, p, n, k - 1, i);
    }
  }

  /** A link that shows a page number leads to that page, except the current page's when it is to have
      no link; "previous" stands only in front and leads to the page before, "next" only at the end and
      leads to the page after; where there is no such page they lead nowhere. */
  lemma LinksLead(s: Settings, p: int, n: int, links: seq<Link>, i: nat)
    requires IsResult(s, p, n, links) && i < |links|
    ensures
      match links[i]
      case Number(page, to) =>
        1 <= page <= n && (to == None <==> page == p && !s.currentLink) && (to.Some? ==> to.value == page)
      case Previous(to) => i == 0 && (if p == 1 then to == None else to == Some(p - 1))
      case Next(to) => i == |links| - 1 && (if p == n then to == None else to == Some(p + 1))
      case Spacer => true
  {
    var w := Walk(s, p, n, n);
    var f := |Front(s, p)|;
    if f <= i < f + |w| {
      assert links[i] == w[i - f];
      WalkRange(s, p, n, n, i - f);
      if w[i - f].Number? {
        WalkTarget(s, p, n, n, i - f);
      }
    }
  }

  /** "previous" is there just if there is a previous page or it is always to be, and so is "next". */
  lemma EndsOfList(s: Settings, p: int, n: int, links: seq<Link>)
    requires IsResult(s, p, n, links)
    ensures links != []
    ensures links[0].Previous? <==> p > 1 || s.alwaysPrevious
    ensures links[|links| - 1].Next? <==> p < n || s.alwaysNext
  {
    var w := Walk(s, p, n, n);
    WalkEnds(s, p, n, n);
    WalkRange(s, p, n, n, 0);
    WalkRange(s, p, n, n, |w| - 1);
    assert links[|Front(s, p)|] == w[0];
    assert links[|Front(s, p)| + |w| - 1] == w[|w| - 1];
  }

  /** A number is shown just if its page is within numAround of the current one, or before it among the
      first numStart, or after it among the last numEnd. */
  lemma NumbersShown(s: Settings, p: int, n: int, links: seq<Link>, page: int)
    requires IsResult(s, p, n, links)
    ensures
      (exists i :: 0 <= i < |links| && links[i].Number? && links[i].page == page) <==>
      && 1 <= page <= n
      && (p - s.numAround <= page <= p + s.numAround || (page < p && page <= s.numStart) || (page > p && page > n - s.numEnd))
  {
    var w, f := Walk(s, p, n, n), |Front(s, p)|;
    ListedIffVisible(s, p, n, n, page);
    if PageLink(s, p, page) in w {
      var k :| 0 <= k < |w| && w[k] == PageLink(s, p, page);
      assert links[f + k] == w[k];
    }
    if i :| 0 <= i < |links| && links[i].Number? && links[i].page == page {
      assert links[i] == w[i - f];
      WalkTarget(s, p, n, n, i - f);
      assert w[i - f] == PageLink(s, p, page);
    }
  }

  // ---- the documented promise ----

  /** What the documentation promises always to list: the first numStart pages, the last numEnd
      pages, and numAround pages on either side of the current one. */
  predicate Promised(s: Settings, p: int, n: int, i: int) {
    1 <= i <= n && (i <= s.numStart || i > n - s.numEnd || p - s.numAround <= i <= p + s.numAround)
  }

  ghost predicate KeepsPromise(s: Settings) {
    forall p, n, i :: 1 <= p <= n && Promised(s, p, n, i) ==> Visible(s, p, n, i)
  }

  /** The promise is kept for every list and every current page just if numStart and numEnd are at
      most numAround + 1, as in the defaults. */
  lemma PromiseKept(s: Settings)
    ensures KeepsPromise(s) <==> (s.numStart <= s.numAround + 1 && s.numEnd <= s.numAround + 1)
  {
    if s.numStart > s.numAround + 1 {
      var n, i := s.numAround + 2 + s.numEnd, s.numAround + 2;
      assert Promised(s, 1, n, i) && !Visible(s, 1, n, i);
    }
    if s.numEnd > s.numAround + 1 {
      var n := s.numStart + s.numAround + 2;
      assert Promised(s, n, n, s.numStart + 1) && !Visible(s, n, n, s.numStart + 1);
    }
  }

  /** For instance, with five pages promised at the start, page 4 of 20 is not listed on page 1. */
  lemma PromiseBroken(s: Settings)
    requires s.numStart == 5 && s.numEnd == 2 && s.numAround == 1
    ensures Promised(s, 1, 20, 4) && PageLink(s, 1, 4) !in Walk(s, 1, 20, 20)
  {
    ListedIffVisible(s, 1, 20, 20, 4);
  }
}
