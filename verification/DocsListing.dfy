/** The listing has no repetitions: every directory is walked once, and no page name is listed twice. */
module DocsListing {
  import opened Options
  import opened Paths
  import opened Seqs
  import opened Strings
  import opened DocsTree
  import opened DocsPages
  import opened DocsLinks

  ghost predicate WalkedOnce(entries: seq<Entry>) {
    forall i, j :: 0 <= i < j < |entries| ==> entries[i].at != entries[j].at
  }

  lemma OnceAndBelow(own: seq<Entry>, below: seq<Entry>, at: seq<string>, w: seq<Entry>)
    requires |own| == 1 && own[0].at == at && WalkedOnce(below) && w == own + below
    requires forall e :: e in below ==> |e.at| > |at|
    ensures WalkedOnce(w)
  {
    forall i, j | 0 <= i < j < |w| ensures w[i].at != w[j].at {
      assert w[j] == below[j - 1] && below[j - 1] in below;
      if i > 0 {
        assert w[i] == below[i - 1];
      }
    }
  }

  lemma OnceAndSiblings(a: seq<Entry>, b: seq<Entry>, first: seq<string>, w: seq<Entry>)
    requires WalkedOnce(a) && WalkedOnce(b) && w == a + b
    requires forall e :: e in a ==> first <= e.at
    requires forall e :: e in b ==> !(first <= e.at)
    ensures WalkedOnce(w)
  {
    forall i, j | 0 <= i < j < |w| ensures w[i].at != w[j].at {
      if j < |a| {
        assert w[i] == a[i] && w[j] == a[j];
      } else if i < |a| {
        assert w[i] in a && w[j] in b;
      } else {
        assert w[i] == b[i - |a|] && w[j] == b[j - |a|];
      }
    }
  }

  /** The walk has one entry for every directory of the tree. */
  lemma {:induction false} WalkOnce(d: Dir, at: seq<string>)
    requires WellFormed(d)
    ensures WalkedOnce(Walk(d, at))
    decreases d, 1
  {
    WalkAllOnce(d.subdirs, at);
    WalkAllDescribes(d.subdirs, at);
    forall e | e in WalkAll(d.subdirs, at) ensures |e.at| > |at| {
      assert DescribesBelow(d.subdirs, at, e);
    }
    OnceAndBelow(Walk(d, at)[..1], WalkAll(d.subdirs, at), at, Walk(d, at));
  }

  lemma {:induction false} WalkAllOnce(subs: seq<Sub>, at: seq<string>)
    requires AllWellFormed(subs)
    ensures WalkedOnce(WalkAll(subs, at))
    decreases subs, 0
  {
    if subs != [] {
      var first := at + [subs[0].name];
      WalkOnce(subs[0].dir, first);
      WalkAllOnce(subs[1..], at);
      WalkDescribes(subs[0].dir, first);
      WalkAllDescribes(subs[1..], at);
      forall e | e in Walk(subs[0].dir, first) ensures first <= e.at {
        assert Describes(subs[0].dir, first, e);
      }
      forall e | e in WalkAll(subs[1..], at) ensures !(first <= e.at) {
        LaterElsewhere(subs, at, e);
      }
      OnceAndSiblings(Walk(subs[0].dir, first), WalkAll(subs[1..], at), first, WalkAll(subs, at));
    }
  }

  lemma LaterElsewhere(subs: seq<Sub>, at: seq<string>, e: Entry)
    requires subs != [] && AllWellFormed(subs) && DescribesBelow(subs[1..], at, e)
    ensures !(at + [subs[0].name] <= e.at)
  {
    var name := e.at[|at|];
    FoundLater(subs[1..], name);
    var i :| 0 <= i < |subs[1..]| && subs[1..][i].name == name;
    assert subs[i + 1].name == name;
    assert (at + [subs[0].name])[|at|] == subs[0].name;
  }

  // ---- pages ----

  ghost predicate DistinctSources(pages: seq<Page>) {
    forall i, j :: 0 <= i < j < |pages| ==> pages[i].source != pages[j].source
  }

  /** The pages of one directory are those of its files. */
  ghost predicate PagesIn(pages: seq<Page>, at: seq<string>, files: seq<string>) {
    forall p :: p in pages ==> exists f :: f in files && p.source == at + [f]
  }

  lemma {:induction false} DirectorySources(docs: seq<string>, seen: set<seq<string>>, at: seq<string>, files: seq<string>)
    requires docs != [] && Distinct(files)
    ensures PagesIn(PagesOf(docs, seen, at, files), at, files) && DistinctSources(PagesOf(docs, seen, at, files))
  {
    if files != [] {
      var init, f := files[..|files| - 1], files[|files| - 1];
      DirectorySources(docs, seen, at, init);
      assert files == init + [f];
      PagesOfLast(docs, seen, at, init, f);
      LastSource(PagesOf(docs, seen, at, init), PagesOf(docs, seen, at, files), at, init, f);
    }
  }

  lemma LastSource(before: seq<Page>, pages: seq<Page>, at: seq<string>, init: seq<string>, f: string)
    requires PagesIn(before, at, init) && DistinctSources(before) && Distinct(init + [f])
    requires pages == before || (|pages| == |before| + 1 && pages[..|before|] == before && pages[|before|].source == at + [f])
    ensures PagesIn(pages, at, init + [f]) && DistinctSources(pages)
  {
    forall p | p in pages ensures exists g :: g in init + [f] && p.source == at + [g] {
      if p in before {
        var g :| g in init && p.source == at + [g];
        assert g in init + [f];
      } else {
        assert f in init + [f];
      }
    }
    forall i, j | 0 <= i < j < |pages| ensures pages[i].source != pages[j].source {
      assert pages[i] == before[i] && before[i] in before;
      var g :| g in init && before[i].source == at + [g];
      if j < |before| {
        assert pages[j] == before[j];
      } else {
        assert (at + [g])[|at|] == g && (at + [f])[|at|] == f;
        NotLast(init, f, g);
      }
    }
  }

  lemma NotLast(init: seq<string>, f: string, g: string)
    requires Distinct(init + [f]) && g in init
    ensures g != f
  {
    var i :| 0 <= i < |init| && init[i] == g;
    assert (init + [f])[i] == g && (init + [f])[|init|] == f;
  }

  /** The pages of several entries lie in their directories. */
  ghost predicate PagesAt(pages: seq<Page>, w: seq<Entry>) {
    forall p :: p in pages ==> exists k :: 0 <= k < |w| && p.source != [] && p.source[..|p.source| - 1] == w[k].at
  }

  lemma EntrySources(a: seq<Page>, b: seq<Page>, w: seq<Entry>, e: Entry, more: seq<Entry>)
    requires more == w + [e] && WalkedOnce(more)
    requires PagesAt(a, w) && DistinctSources(a) && PagesIn(b, e.at, e.files) && DistinctSources(b)
    ensures PagesAt(a + b, more) && DistinctSources(a + b)
  {
    forall p | p in a + b
      ensures exists k :: 0 <= k < |more| && p.source != [] && p.source[..|p.source| - 1] == more[k].at
    {
      if p in a {
        var k :| 0 <= k < |w| && p.source != [] && p.source[..|p.source| - 1] == w[k].at;
        assert more[k] == w[k];
      } else {
        InDirectory(b, e, p);
        assert more[|w|] == e;
      }
    }
    forall i, j | 0 <= i < j < |a + b| ensures (a + b)[i].source != (a + b)[j].source {
      if i < |a| <= j {
        assert a[i] in a && b[j - |a|] in b;
        var k :| 0 <= k < |w| && a[i].source != [] && a[i].source[..|a[i].source| - 1] == w[k].at;
        InDirectory(b, e, b[j - |a|]);
        assert more[k] == w[k] && more[|w|] == e;
      }
    }
  }

  lemma InDirectory(b: seq<Page>, e: Entry, p: Page)
    requires PagesIn(b, e.at, e.files) && p in b
    ensures p.source != [] && p.source[..|p.source| - 1] == e.at
  {
    var f :| f in e.files && p.source == e.at + [f];
  }

  lemma {:induction false} WalkSources(docs: seq<string>, w: seq<Entry>)
    requires docs != [] && WalkedOnce(w) && forall k :: 0 <= k < |w| ==> Distinct(w[k].files)
    ensures PagesAt(Pages(docs, w), w) && DistinctSources(Pages(docs, w))
  {
    if w != [] {
      var init, e := w[..|w| - 1], w[|w| - 1];
      WalkSources(docs, init);
      DirectorySources(docs, Seen(docs, w), e.at, e.files);
      EntrySources(Pages(docs, init), PagesOf(docs, Seen(docs, w), e.at, e.files), init, e, w);
    }
  }

  lemma {:induction false} NameAt(pages: seq<Page>, i: nat)
    requires i < |pages|
    ensures |NamesOf(pages)| == |pages| && NamesOf(pages)[i] == pages[i].name
  {
    if |pages| > 1 {
      NameAt(pages[..|pages| - 1], if i < |pages| - 1 then i else 0);
    } else {
      assert NamesOf(pages[..0]) == [];
    }
  }

  /** No page name is listed twice, and every page is listed for a file of its own. */
  lemma EachPageOnce(fs: Site)
    requires ValidSite(fs) && forall k :: 0 <= k < |Walk(fs.tree, [])| ==> Distinct(Walk(fs.tree, [])[k].files)
    ensures DistinctSources(Pages(fs.docs, Walk(fs.tree, [])))
    ensures Distinct(NamesOf(Pages(fs.docs, Walk(fs.tree, []))))
  {
    var w := Walk(fs.tree, []);
    var pages := Pages(fs.docs, w);
    WalkOnce(fs.tree, []);
    WalkSources(fs.docs, w);
    AllPages(fs);
    NamesDistinct(fs, pages);
  }

  lemma NamesDistinct(fs: Site, pages: seq<Page>)
    requires Sound(fs, pages) && DistinctSources(pages)
    ensures Distinct(NamesOf(pages))
  {
    if pages != [] {
      NameAt(pages, 0);
    }
    forall i, j | 0 <= i < j < |NamesOf(pages)| ensures NamesOf(pages)[i] != NamesOf(pages)[j] {
      NameAt(pages, i);
      NameAt(pages, j);
      assert pages[i] in pages && pages[j] in pages;
      SameSource(fs, pages[i], pages[j]);
    }
  }

  lemma SameSource(fs: Site, p: Page, q: Page)
    requires Faithful(fs, p) && Faithful(fs, q) && p.source != q.source
    ensures p.name != q.name
  {
    assert (fs.docs + p.source)[|fs.docs|..] == p.source && (fs.docs + q.source)[|fs.docs|..] == q.source;
  }

  // ---- the names ----

  lemma {:induction false} FileOf(docs: seq<string>, seen: set<seq<string>>, at: seq<string>, files: seq<string>, p: Page)
    returns (f: string)
    requires docs != [] && p in PagesOf(docs, seen, at, files)
    ensures f in files && Publishable(f) && p == PageFor(docs, seen, at, f)
  {
    var init, last := files[..|files| - 1], files[|files| - 1];
    assert files == init + [last];
    PagesOfLast(docs, seen, at, init, last);
    if p in PagesOf(docs, seen, at, init) {
      f := FileOf(docs, seen, at, init, p);
    } else {
      f := last;
    }
  }

  lemma {:induction false} EntryOfPage(docs: seq<string>, w: seq<Entry>, p: Page) returns (k: nat, f: string)
    requires docs != [] && p in Pages(docs, w)
    ensures k < |w| && f in w[k].files && Publishable(f) && p == PageFor(docs, Seen(docs, w[..k + 1]), w[k].at, f)
  {
    var init, e := w[..|w| - 1], w[|w| - 1];
    assert w[..|w|] == w;
    if p in Pages(docs, init) {
      k, f := EntryOfPage(docs, init, p);
      PrefixOfPrefix(w, |w| - 1, k + 1);
    } else {
      k := |w| - 1;
      f := FileOf(docs, Seen(docs, w), e.at, e.files, p);
    }
  }

  /** The index file of a directory is listed under the directory's own name, unless there is a file of
      that name; every other file is listed under its name without the extension. */
  lemma ListedNames(fs: Site, p: Page)
    requires ValidSite(fs) && p in Pages(fs.docs, Walk(fs.tree, []))
    ensures p.source != [] && EndsWith(p.source[|p.source| - 1], ".md") && p.source[|p.source| - 1] != "README.md"
    ensures
      var at, f := p.source[..|p.source| - 1], p.source[|p.source| - 1];
      && (f == "index.md" && !(at != [] && FileAt(fs.tree, at[..|at| - 1] + [at[|at| - 1] + ".md"])) ==> p.name == Join(at, '/'))
      && (f != "index.md" || (at != [] && FileAt(fs.tree, at[..|at| - 1] + [at[|at| - 1] + ".md"])) ==>
            p.name == Join(at + [f[..|f| - 3]], '/'))
  {
    var w := Walk(fs.tree, []);
    var k, f := EntryOfPage(fs.docs, w, p);
    SeenIsExistence(fs, k);
    assert p.source == w[k].at + [f];
  }

  // ---- what a lookup can select ----

  lemma CandidateIsFile(fs: Site, path: seq<string>)
    requires ValidSite(fs) && Acceptable(fs, path) && EndsWith(path[|path| - 1], MD)
    ensures |fs.docs| < |path| ==> FileAt(fs.tree, path[|fs.docs|..])
  {
    if |fs.docs| < |path| {
      assert fs.docs + path[|fs.docs|..] == path;
      assert path[|fs.docs|..][|path| - |fs.docs| - 1] == path[|path| - 1];
      MarkdownExists(fs, path[|fs.docs|..]);
    }
  }

  lemma StemPlusMd(s: string)
    ensures EndsWith(s + MD, MD) && EndsWith(INDEX, MD)
  {
    assert (s + MD)[|s|..] == MD;
    assert INDEX[5..] == MD;
  }

  /** Whatever is asked for, what a lookup selects is a Markdown file of the tree and not a README, and a
      name with a component that starts with a dot, "." and ".." among them, selects nothing. */
  lemma LookupSelects(fs: Site, page: string)
    requires ValidSite(fs) && Choose(fs, page).Some?
    ensures
      var path := Choose(fs, page).value;
      && fs.docs <= path && |fs.docs| < |path| && FileAt(fs.tree, path[|fs.docs|..])
      && EndsWith(path[|path| - 1], ".md") && path[|path| - 1] != "README.md"
    ensures forall i :: 0 <= i < |Split(RStrip(page), '/')| ==>
      (Split(RStrip(page), '/')[i] != "" ==> Split(RStrip(page), '/')[i][0] != '.')
  {
    var base, path := UrlToPath(fs, page).value, Choose(fs, page).value;
    StemPlusMd(base[|base| - 1]);
    ChosenBelow(fs, page);
    CandidateIsFile(fs, path);
    var parts := Split(RStrip(page), '/');
    forall i | 0 <= i < |parts| ensures parts[i] != "" ==> parts[i][0] != '.' {
      assert !Hidden(parts[i]);
    }
  }
}
