/** Documentation page names: which names iter_page_names() lists, and which file load_doc_page()
    picks for a name. */
module DocsPages {
  import opened Options
  import opened Paths
  import opened Seqs
  import opened Strings
  import opened DocsTree

  /** DIRECTOR_DOCS_DIR as components, the tree below it, and whatever exists elsewhere. */
  datatype Site = Site(docs: seq<string>, tree: Dir, outside: set<seq<string>>)

  predicate ValidSite(fs: Site) {
    && fs.docs != []
    && (forall i :: 0 <= i < |fs.docs| ==> GoodName(fs.docs[i]) && fs.docs[i] != "..")
    && WellFormed(fs.tree)
  }

  /** os.path.exists() */
  predicate Exists(fs: Site, path: seq<string>) {
    if fs.docs <= path then
      DirAt(fs.tree, path[|fs.docs|..]).Some? || FileAt(fs.tree, path[|fs.docs|..])
    else path in fs.outside
  }

  // ---- url_to_path() ----

  function LStrip(s: string): string {
    if s != "" && s[0] == '/' then LStrip(s[1..]) else s
  }

  /** str.strip("/") */
  function StripSlashes(s: string): string {
    RStrip(LStrip(s))
  }

  /** One step of normpath on an absolute path. */
  function Push(stack: seq<string>, c: string): seq<string> {
    if c == ".." then (if stack == [] then [] else stack[..|stack| - 1]) else stack + [c]
  }

  /** normpath on an absolute path: ".." stops at the root. */
  function Norm(stack: seq<string>, cs: seq<string>): seq<string>
    decreases cs
  {
    if cs == [] then stack else Norm(Push(stack, cs[0]), cs[1..])
  }

  lemma {:induction false} NormPlain(stack: seq<string>, cs: seq<string>)
    requires ".." !in cs
    ensures Norm(stack, cs) == stack + cs
    decreases cs
  {
    if cs != [] {
      NormPlain(stack + [cs[0]], cs[1..]);
      assert stack + [cs[0]] + cs[1..] == stack + cs;
    } else {
      assert stack + cs == stack;
    }
  }

  lemma {:induction false} NormConcat(stack: seq<string>, a: seq<string>, b: seq<string>)
    ensures Norm(stack, a + b) == Norm(Norm(stack, a), b)
    decreases a
  {
    if a == [] {
      assert a + b == b;
    } else {
      NormConcat(Push(stack, a[0]), a[1..], b);
      assert (a + b)[1..] == a[1..] + b;
    }
  }

  predicate AnyHidden(parts: seq<string>) {
    exists i :: 0 <= i < |parts| && Hidden(parts[i])
  }

  function UrlToPath(fs: Site, url: string): Option<seq<string>> {
    if ".." in Split(url, '/') then None
    else
      var u := RStrip(url);
      var base := Norm(if u != "" && u[0] == '/' then [] else fs.docs, Comps(u));
      if !(fs.docs <= base) || AnyHidden(Split(u, '/')) then None
      else Some(base)
  }

  // ---- load_doc_page(), up to the choice of the file ----

  function WithMd(base: seq<string>): seq<string>
    requires base != []
  {
    base[..|base| - 1] + [base[|base| - 1] + MD]
  }

  /** A candidate that exists, is not a README and lies in the documentation directory. */
  predicate Acceptable(fs: Site, path: seq<string>) {
    path != [] && Exists(fs, path) && path[|path| - 1] != README && fs.docs <= path
  }

  function ChooseAt(fs: Site, base: seq<string>): Option<seq<string>>
    requires base != []
  {
    if Acceptable(fs, WithMd(base)) then Some(WithMd(base))
    else if Acceptable(fs, base + [INDEX]) then Some(base + [INDEX])
    else None
  }

  /** The file load_doc_page() renders for a page name. */
  function Choose(fs: Site, page: string): Option<seq<string>> {
    match UrlToPath(fs, page)
    case None => None
    case Some(base) => if base == [] then None else ChooseAt(fs, base)
  }

  // ---- iter_page_names() ----

  /** A listed name together with the file it was listed for, relative to the top. */
  datatype Page = Page(name: string, source: seq<string>)

  function Stem(f: string): string
    requires EndsWith(f, MD)
  {
    f[..|f| - 3]
  }

  /** The files that os.walk() has reported up to and including the given entries. */
  function Seen(docs: seq<string>, entries: seq<Entry>): set<seq<string>> {
    set e, f | e in entries && f in e.files :: docs + e.at + [f]
  }

  /** The name for one file, by the test on the files seen so far. */
  function NameFor(docs: seq<string>, seen: set<seq<string>>, at: seq<string>, f: string): string
    requires docs != [] && EndsWith(f, MD)
  {
    if f == INDEX && WithMd(docs + at) !in seen then Join(at, '/')
    else Join(at + [Stem(f)], '/')
  }

  function PagesOf(docs: seq<string>, seen: set<seq<string>>, at: seq<string>, files: seq<string>): seq<Page>
    requires docs != []
  {
    if files == [] then []
    else
      var f := files[|files| - 1];
      PagesOf(docs, seen, at, files[..|files| - 1])
      + (if EndsWith(f, MD) && f != README then [Page(NameFor(docs, seen, at, f), at + [f])] else [])
  }

  function Pages(docs: seq<string>, entries: seq<Entry>): seq<Page>
    requires docs != []
  {
    if entries == [] then []
    else
      var e := entries[|entries| - 1];
      Pages(docs, entries[..|entries| - 1]) + PagesOf(docs, Seen(docs, entries), e.at, e.files)
  }

  function NamesOf(pages: seq<Page>): seq<string> {
    if pages == [] then [] else NamesOf(pages[..|pages| - 1]) + [pages[|pages| - 1].name]
  }

  lemma {:induction false} NamesConcat(a: seq<Page>, b: seq<Page>)
    ensures NamesOf(a + b) == NamesOf(a) + NamesOf(b)
  {
    if b == [] {
      assert a + b == a;
    } else {
      NamesConcat(a, b[..|b| - 1]);
      assert (a + b)[..|a + b| - 1] == a + b[..|b| - 1];
    }
  }

  lemma SeenOneMore(docs: seq<string>, walk: seq<Entry>, k: nat)
    requires k < |walk|
    ensures Seen(docs, walk[..k + 1]) == Seen(docs, walk[..k]) + set f | f in walk[k].files :: docs + walk[k].at + [f]
  {
    assert walk[..k + 1] == walk[..k] + [walk[k]];
  }

  lemma PagesOneMore(docs: seq<string>, walk: seq<Entry>, k: nat)
    requires docs != [] && k < |walk|
    ensures NamesOf(Pages(docs, walk[..k + 1])) ==
              NamesOf(Pages(docs, walk[..k])) + NamesOf(PagesOf(docs, Seen(docs, walk[..k + 1]), walk[k].at, walk[k].files))
  {
    assert walk[..k + 1][..k] == walk[..k];
    NamesConcat(Pages(docs, walk[..k]), PagesOf(docs, Seen(docs, walk[..k + 1]), walk[k].at, walk[k].files));
  }

  lemma PagesOfStep(docs: seq<string>, seen: set<seq<string>>, at: seq<string>, files: seq<string>, i: nat)
    requires docs != [] && i < |files|
    ensures PagesOf(docs, seen, at, files[..i + 1]) ==
              PagesOf(docs, seen, at, files[..i])
              + (if EndsWith(files[i], MD) && files[i] != README
                 then [Page(NameFor(docs, seen, at, files[i]), at + [files[i]])] else [])
  {
    assert files[..i + 1][..i] == files[..i];
  }

  lemma FileOneMore(docs: seq<string>, seen: set<seq<string>>, at: seq<string>, files: seq<string>, i: nat)
    requires docs != [] && i < |files|
    ensures NamesOf(PagesOf(docs, seen, at, files[..i + 1])) ==
              NamesOf(PagesOf(docs, seen, at, files[..i]))
              + (if EndsWith(files[i], MD) && files[i] != README then [NameFor(docs, seen, at, files[i])] else [])
  {
    PagesOfStep(docs, seen, at, files, i);
    var before := PagesOf(docs, seen, at, files[..i]);
    if EndsWith(files[i], MD) && files[i] != README {
      var page := Page(NameFor(docs, seen, at, files[i]), at + [files[i]]);
      assert (before + [page])[..|before|] == before;
    } else {
      assert before + [] == before;
    }
  }

  /** The names yielded for the files of one directory. */
  method DirectoryNames(docs: seq<string>, seenFiles: set<seq<string>>, at: seq<string>, files: seq<string>)
    returns (names: seq<string>)
    requires docs != []
    ensures names == NamesOf(PagesOf(docs, seenFiles, at, files))
  {
    names := [];
    for i := 0 to |files|
      invariant names == NamesOf(PagesOf(docs, seenFiles, at, files[..i]))
    {
      var f := files[i];
      FileOneMore(docs, seenFiles, at, files, i);
      if EndsWith(f, MD) && f != README {
        var name := Join(at + [Stem(f)], '/');
        if f == INDEX && WithMd(docs + at) !in seenFiles {
          name := Join(at, '/');
        }
        names := names + [name];
      }
    }
    assert files[..|files|] == files;
  }

  /** The generator, as the list of what it yields. */
  method IterPageNames(docs: seq<string>, walk: seq<Entry>) returns (names: seq<string>)
    requires docs != []
    ensures names == NamesOf(Pages(docs, walk))
  {
    var seenFiles: set<seq<string>> := {};
    names := [];
    for k := 0 to |walk|
      invariant seenFiles == Seen(docs, walk[..k])
      invariant names == NamesOf(Pages(docs, walk[..k]))
    {
      var e := walk[k];
      seenFiles := seenFiles + set f | f in e.files :: docs + e.at + [f];
      SeenOneMore(docs, walk, k);
      var more := DirectoryNames(docs, seenFiles, e.at, e.files);
      PagesOneMore(docs, walk, k);
      names := names + more;
    }
    assert walk[..|walk|] == walk;
  }

  // ---- the seen_files shortcut ----

  lemma WithMdInside(docs: seq<string>, at: seq<string>)
    requires at != []
    ensures WithMd(docs + at) == docs + WithMd(at)
  {
    assert (docs + at)[..|docs + at| - 1] == docs + at[..|at| - 1];
  }

  /** What an entry of the walk lists is in the tree. */
  lemma EntryFiles(fs: Site, e: Entry)
    requires ValidSite(fs) && e in Walk(fs.tree, [])
    ensures DirAt(fs.tree, e.at).Some? && DirAt(fs.tree, e.at).value.files == e.files
    ensures forall f :: f in e.files ==> FileAt(fs.tree, e.at + [f])
  {
    WalkDescribes(fs.tree, []);
    assert Describes(fs.tree, [], e);
    assert e.at[0..] == e.at;
    forall f | f in e.files ensures FileAt(fs.tree, e.at + [f]) {
      assert (e.at + [f])[..|e.at|] == e.at;
    }
  }

  lemma SeenExists(fs: Site, k: nat)
    requires ValidSite(fs) && k < |Walk(fs.tree, [])|
    requires WithMd(fs.docs + Walk(fs.tree, [])[k].at) in Seen(fs.docs, Walk(fs.tree, [])[..k + 1])
    ensures var at := Walk(fs.tree, [])[k].at; at != [] && FileAt(fs.tree, WithMd(at))
  {
    var w := Walk(fs.tree, []);
    var at := w[k].at;
    var e, f :| e in w[..k + 1] && f in e.files && fs.docs + e.at + [f] == WithMd(fs.docs + at);
    EntryFiles(fs, e);
    assert |fs.docs + e.at + [f]| == |fs.docs + at|;
    WithMdInside(fs.docs, at);
    assert e.at + [f] == (fs.docs + e.at + [f])[|fs.docs|..];
    assert WithMd(at) == (fs.docs + WithMd(at))[|fs.docs|..];
  }

  lemma ExistsSeen(fs: Site, k: nat)
    requires ValidSite(fs) && k < |Walk(fs.tree, [])|
    requires var at := Walk(fs.tree, [])[k].at; at != [] && FileAt(fs.tree, WithMd(at))
    ensures WithMd(fs.docs + Walk(fs.tree, [])[k].at) in Seen(fs.docs, Walk(fs.tree, [])[..k + 1])
  {
    var w := Walk(fs.tree, []);
    var at := w[k].at;
    WalkTopDown(fs.tree, []);
    assert Before(w, k, at[..|at| - 1]);
    var j :| 0 <= j < k && j < |w| && w[j].at == at[..|at| - 1];
    var f := at[|at| - 1] + MD;
    EntryFiles(fs, w[j]);
    assert WithMd(at) == w[j].at + [f];
    assert WithMd(at)[..|WithMd(at)| - 1] == w[j].at;
    assert w[..k + 1][j] == w[j];
    WithMdInside(fs.docs, at);
    assert fs.docs + w[j].at + [f] == WithMd(fs.docs + at);
  }

  /** At a directory's entry, looking for <directory>.md among the files seen so far gives the same
      answer as looking for it in the tree; above the top there is nothing to find. */
  lemma SeenIsExistence(fs: Site, k: nat)
    requires ValidSite(fs) && k < |Walk(fs.tree, [])|
    ensures
      var w := Walk(fs.tree, []);
      WithMd(fs.docs + w[k].at) in Seen(fs.docs, w[..k + 1]) <==> w[k].at != [] && FileAt(fs.tree, WithMd(w[k].at))
  {
    var w := Walk(fs.tree, []);
    if WithMd(fs.docs + w[k].at) in Seen(fs.docs, w[..k + 1]) {
      SeenExists(fs, k);
    } else if w[k].at != [] && FileAt(fs.tree, WithMd(w[k].at)) {
      ExistsSeen(fs, k);
    }
  }

  // ---- names lead back to their files ----

  lemma {:induction false} LastSlashFree(parts: seq<string>)
    requires parts != [] && GoodNames(parts)
    ensures var j := Join(parts, '/'); j != "" && j[0] == parts[0][0] && j[|j| - 1] != '/'
  {
    assert parts[0][0] in parts[0];
    if |parts| > 1 {
      LastSlashFree(parts[1..]);
    } else {
      var c := parts[0];
      assert c[|c| - 1] in c;
    }
  }

  predicate AllVisible(cs: seq<string>) {
    forall i :: 0 <= i < |cs| ==> Visible(cs[i])
  }

  /** A name made of visible components denotes the place they spell, below the top. */
  lemma NameToPath(fs: Site, cs: seq<string>)
    requires ValidSite(fs) && AllVisible(cs)
    ensures UrlToPath(fs, Join(cs, '/')) == Some(fs.docs + cs)
  {
    var name := Join(cs, '/');
    if cs == [] {
      CompsOfNothing();
      assert fs.docs + cs == fs.docs;
    } else {
      SplitJoin(cs, '/');
      LastSlashFree(cs);
      CompsJoin(cs);
      assert cs[0][0] in cs[0];
      NormPlain(fs.docs, cs);
    }
  }

  /** A Markdown path inside the tree exists exactly as a file. */
  lemma MarkdownExists(fs: Site, path: seq<string>)
    requires ValidSite(fs) && path != [] && EndsWith(path[|path| - 1], MD)
    ensures Exists(fs, fs.docs + path) <==> FileAt(fs.tree, path)
  {
    assert (fs.docs + path)[|fs.docs|..] == path;
    if DirAt(fs.tree, path).Some? {
      DirAtWellFormed(fs.tree, path);
    }
  }

  lemma FirstCandidate(fs: Site, cs: seq<string>)
    requires ValidSite(fs) && cs != []
    ensures WithMd(fs.docs + cs) == fs.docs + WithMd(cs)
    ensures Acceptable(fs, WithMd(fs.docs + cs)) <==> FileAt(fs.tree, WithMd(cs)) && cs[|cs| - 1] + MD != README
  {
    WithMdInside(fs.docs, cs);
    MarkdownExists(fs, WithMd(cs));
  }

  lemma SecondCandidate(fs: Site, cs: seq<string>)
    requires ValidSite(fs)
    ensures fs.docs + cs + [INDEX] == fs.docs + (cs + [INDEX])
    ensures Acceptable(fs, fs.docs + cs + [INDEX]) <==> FileAt(fs.tree, cs + [INDEX])
  {
    MarkdownExists(fs, cs + [INDEX]);
    assert fs.docs + cs + [INDEX] == fs.docs + (cs + [INDEX]);
    assert |INDEX| != |README|;
  }

  /** <top>.md is never accepted: it lies outside. */
  lemma TopCandidate(fs: Site)
    requires ValidSite(fs)
    ensures !Acceptable(fs, WithMd(fs.docs))
  {
    var n := |fs.docs| - 1;
    assert |WithMd(fs.docs)| == |fs.docs|;
    assert |WithMd(fs.docs)[n]| == |fs.docs[n]| + 3;
  }

  /** The file for a place below the top. */
  function Selection(fs: Site, cs: seq<string>): Option<seq<string>> {
    if cs != [] && FileAt(fs.tree, cs[..|cs| - 1] + [cs[|cs| - 1] + ".md"]) && cs[|cs| - 1] + ".md" != "README.md" then
      Some(fs.docs + (cs[..|cs| - 1] + [cs[|cs| - 1] + ".md"]))
    else if FileAt(fs.tree, cs + ["index.md"]) then Some(fs.docs + (cs + ["index.md"]))
    else None
  }

  lemma ChooseBelow(fs: Site, cs: seq<string>)
    requires ValidSite(fs)
    ensures ChooseAt(fs, fs.docs + cs) == Selection(fs, cs)
  {
    SecondCandidate(fs, cs);
    if cs != [] {
      FirstCandidate(fs, cs);
    } else {
      TopCandidate(fs);
      assert fs.docs + cs == fs.docs;
    }
  }

  /** What a name made of visible components selects. */
  lemma ChooseVisible(fs: Site, cs: seq<string>)
    requires ValidSite(fs) && AllVisible(cs)
    ensures Choose(fs, Join(cs, '/')) == Selection(fs, cs)
  {
    NameToPath(fs, cs);
    ChooseBelow(fs, cs);
  }

  predicate Publishable(f: string) {
    EndsWith(f, MD) && f != README
  }

  lemma StemVisible(f: string)
    requires Visible(f) && EndsWith(f, MD)
    ensures Visible(Stem(f)) && Stem(f) + MD == f
  {
    assert f[|f| - 3..] == MD;
    assert f == Stem(f) + MD;
    assert forall i :: 0 <= i < |Stem(f)| ==> Stem(f)[i] == f[i];
  }

  /** Looking the page's name up gives the file it was listed for. */
  predicate Faithful(fs: Site, p: Page) {
    Choose(fs, p.name) == Some(fs.docs + p.source)
  }

  ghost predicate Lists(pages: seq<Page>, source: seq<string>) {
    exists p :: p in pages && p.source == source
  }

  /** One file of the walk: its name selects it. */
  lemma NameSelects(fs: Site, k: nat, f: string)
    requires ValidSite(fs) && k < |Walk(fs.tree, [])|
    requires f in Walk(fs.tree, [])[k].files && Publishable(f)
    ensures
      var w := Walk(fs.tree, []);
      Faithful(fs, Page(NameFor(fs.docs, Seen(fs.docs, w[..k + 1]), w[k].at, f), w[k].at + [f]))
  {
    var w := Walk(fs.tree, []);
    var at := w[k].at;
    EntryFiles(fs, w[k]);
    FileAtVisible(fs.tree, at + [f]);
    assert Visible((at + [f])[|at|]);
    assert forall i :: 0 <= i < |at| ==> (at + [f])[i] == at[i];
    SeenIsExistence(fs, k);
    if f == INDEX && WithMd(fs.docs + at) !in Seen(fs.docs, w[..k + 1]) {
      ChooseVisible(fs, at);
    } else {
      StemSelects(fs, at, f);
    }
  }

  lemma StemSelects(fs: Site, at: seq<string>, f: string)
    requires ValidSite(fs) && AllVisible(at) && Visible(f) && Publishable(f) && FileAt(fs.tree, at + [f])
    ensures Choose(fs, Join(at + [Stem(f)], '/')) == Some(fs.docs + (at + [f]))
  {
    StemVisible(f);
    var cs := at + [Stem(f)];
    ChooseVisible(fs, cs);
    assert WithMd(cs) == at + [f];
  }

  ghost predicate Sound(fs: Site, pages: seq<Page>) {
    forall p :: p in pages ==> Faithful(fs, p)
  }

  ghost predicate Covers(pages: seq<Page>, at: seq<string>, files: seq<string>) {
    forall f :: f in files && Publishable(f) ==> Lists(pages, at + [f])
  }

  lemma ListsMore(a: seq<Page>, b: seq<Page>, source: seq<string>)
    ensures Lists(a + b, source) <==> Lists(a, source) || Lists(b, source)
  {
    if Lists(a, source) || Lists(b, source) {
      var p :| (p in a || p in b) && p.source == source;
      assert p in a + b;
    }
  }

  lemma SoundMore(fs: Site, a: seq<Page>, b: seq<Page>)
    requires Sound(fs, a) && Sound(fs, b)
    ensures Sound(fs, a + b)
  {
  }

  lemma CoversMore(a: seq<Page>, b: seq<Page>, at: seq<string>, files: seq<string>)
    requires Covers(a, at, files) || Covers(b, at, files)
    ensures Covers(a + b, at, files)
  {
    forall f | f in files && Publishable(f) ensures Lists(a + b, at + [f]) {
      ListsMore(a, b, at + [f]);
    }
  }

  lemma CoversOneMore(pages: seq<Page>, at: seq<string>, files: seq<string>, f: string)
    requires Covers(pages, at, files) && (Publishable(f) ==> Lists(pages, at + [f]))
    ensures Covers(pages, at, files + [f])
  {
  }

  /** The page for one file. */
  function PageFor(docs: seq<string>, seen: set<seq<string>>, at: seq<string>, f: string): Page
    requires docs != [] && EndsWith(f, MD)
  {
    Page(NameFor(docs, seen, at, f), at + [f])
  }

  ghost predicate NamesSelect(fs: Site, seen: set<seq<string>>, at: seq<string>, files: seq<string>)
    requires fs.docs != []
  {
    forall f :: f in files && Publishable(f) ==> Faithful(fs, PageFor(fs.docs, seen, at, f))
  }

  lemma PageAdded(fs: Site, before: seq<Page>, page: Page, at: seq<string>, files: seq<string>, f: string)
    requires Sound(fs, before) && Faithful(fs, page) && Covers(before, at, files) && page.source == at + [f]
    ensures Sound(fs, before + [page]) && Covers(before + [page], at, files + [f])
  {
    SoundMore(fs, before, [page]);
    CoversMore(before, [page], at, files);
    assert page in [page];
    ListsMore(before, [page], at + [f]);
    CoversOneMore(before + [page], at, files, f);
  }

  lemma PagesOfLast(docs: seq<string>, seen: set<seq<string>>, at: seq<string>, init: seq<string>, f: string)
    requires docs != []
    ensures
      PagesOf(docs, seen, at, init + [f]) ==
      if Publishable(f) then PagesOf(docs, seen, at, init) + [PageFor(docs, seen, at, f)] else PagesOf(docs, seen, at, init)
  {
    var files := init + [f];
    assert files[..|files| - 1] == init;
    ConcatNone(PagesOf(docs, seen, at, init), []);
  }

  lemma {:induction false} DirectoryPages(fs: Site, seen: set<seq<string>>, at: seq<string>, files: seq<string>)
    requires fs.docs != [] && NamesSelect(fs, seen, at, files)
    ensures Sound(fs, PagesOf(fs.docs, seen, at, files)) && Covers(PagesOf(fs.docs, seen, at, files), at, files)
  {
    if files != [] {
      var init, f := files[..|files| - 1], files[|files| - 1];
      DirectoryPages(fs, seen, at, init);
      assert files == init + [f];
      PagesOfLast(fs.docs, seen, at, init, f);
      if Publishable(f) {
        PageAdded(fs, PagesOf(fs.docs, seen, at, init), PageFor(fs.docs, seen, at, f), at, init, f);
      } else {
        CoversOneMore(PagesOf(fs.docs, seen, at, init), at, init, f);
      }
    }
  }

  lemma PagesStep(docs: seq<string>, w: seq<Entry>, n: nat)
    requires docs != [] && n < |w|
    ensures Pages(docs, w[..n + 1]) == Pages(docs, w[..n]) + PagesOf(docs, Seen(docs, w[..n + 1]), w[n].at, w[n].files)
  {
    assert w[..n + 1][..n] == w[..n];
  }

  ghost predicate AllCovered(pages: seq<Page>, w: seq<Entry>) {
    forall k :: 0 <= k < |w| ==> Covers(pages, w[k].at, w[k].files)
  }

  lemma CoveredOneMore(a: seq<Page>, b: seq<Page>, w: seq<Entry>, e: Entry)
    requires AllCovered(a, w) && Covers(b, e.at, e.files)
    ensures AllCovered(a + b, w + [e])
  {
    forall k | 0 <= k < |w| ensures Covers(a + b, w[k].at, w[k].files) {
      CoversMore(a, b, w[k].at, w[k].files);
    }
    CoversMore(a, b, e.at, e.files);
  }

  ghost predicate EntrySelects(fs: Site, w: seq<Entry>, k: nat)
    requires fs.docs != [] && k < |w|
  {
    NamesSelect(fs, Seen(fs.docs, w[..k + 1]), w[k].at, w[k].files)
  }

  lemma BothMore(fs: Site, a: seq<Page>, b: seq<Page>, w: seq<Entry>, e: Entry)
    requires Sound(fs, a) && AllCovered(a, w) && Sound(fs, b) && Covers(b, e.at, e.files)
    ensures Sound(fs, a + b) && AllCovered(a + b, w + [e])
  {
    SoundMore(fs, a, b);
    CoveredOneMore(a, b, w, e);
  }

  lemma EntryAdded(fs: Site, w: seq<Entry>, n: nat, upTo: seq<Entry>)
    requires fs.docs != [] && n < |w| && EntrySelects(fs, w, n) && upTo == w[..n + 1]
    requires Sound(fs, Pages(fs.docs, w[..n])) && AllCovered(Pages(fs.docs, w[..n]), w[..n])
    ensures Sound(fs, Pages(fs.docs, upTo)) && AllCovered(Pages(fs.docs, upTo), upTo)
  {
    var e, seen := w[n], Seen(fs.docs, upTo);
    DirectoryPages(fs, seen, e.at, e.files);
    BothMore(fs, Pages(fs.docs, w[..n]), PagesOf(fs.docs, seen, e.at, e.files), w[..n], e);
    PagesStep(fs.docs, w, n);
    assert upTo == w[..n] + [e];
  }

  lemma {:induction false} WalkPages(fs: Site, w: seq<Entry>, n: nat, upTo: seq<Entry>)
    requires fs.docs != [] && n <= |w| && upTo == w[..n]
    requires forall k :: 0 <= k < n ==> EntrySelects(fs, w, k)
    ensures Sound(fs, Pages(fs.docs, upTo)) && AllCovered(Pages(fs.docs, upTo), upTo)
    decreases n
  {
    if n > 0 {
      WalkPages(fs, w, n - 1, w[..n - 1]);
      EntryAdded(fs, w, n - 1, upTo);
    }
  }

  /** All pages of the documentation. */
  lemma AllPages(fs: Site)
    requires ValidSite(fs)
    ensures
      var w := Walk(fs.tree, []);
      Sound(fs, Pages(fs.docs, w)) && AllCovered(Pages(fs.docs, w), w)
  {
    var w := Walk(fs.tree, []);
    forall k | 0 <= k < |w| ensures EntrySelects(fs, w, k) {
      forall f | f in w[k].files && Publishable(f)
        ensures Faithful(fs, PageFor(fs.docs, Seen(fs.docs, w[..k + 1]), w[k].at, f))
      {
        NameSelects(fs, k, f);
      }
    }
    assert w[..|w|] == w;
    WalkPages(fs, w, |w|, w);
  }

  lemma EntryListed(fs: Site, k: nat, f: string)
    requires ValidSite(fs) && k < |Walk(fs.tree, [])|
    requires f in Walk(fs.tree, [])[k].files && Publishable(f)
    ensures Lists(Pages(fs.docs, Walk(fs.tree, [])), Walk(fs.tree, [])[k].at + [f])
  {
    AllPages(fs);
    var e := Walk(fs.tree, [])[k];
    assert Covers(Pages(fs.docs, Walk(fs.tree, [])), e.at, e.files);
  }

  lemma EntryOf(tree: Dir, path: seq<string>) returns (k: nat)
    requires FileAt(tree, path)
    ensures k < |Walk(tree, [])| && Walk(tree, [])[k].at == path[..|path| - 1]
    ensures path[|path| - 1] in Walk(tree, [])[k].files
  {
    var w, parent := Walk(tree, []), path[..|path| - 1];
    WalkComplete(tree, [], parent);
    k :| 0 <= k < |w| && w[k].at == [] + parent && w[k].files == DirAt(tree, parent).value.files;
    assert [] + parent == parent;
  }

  /** Every Markdown file but the READMEs is listed. */
  lemma EveryPageListed(fs: Site, path: seq<string>)
    requires ValidSite(fs) && FileAt(fs.tree, path)
    requires EndsWith(path[|path| - 1], ".md") && path[|path| - 1] != "README.md"
    ensures Lists(Pages(fs.docs, Walk(fs.tree, [])), path)
  {
    var k := EntryOf(fs.tree, path);
    EntryListed(fs, k, path[|path| - 1]);
    assert path[..|path| - 1] + [path[|path| - 1]] == path;
  }

  /** Page-name round trip: looking up a listed name selects exactly the file it was listed for, so
      no name is listed for two files. */
  lemma PageNamesRoundTrip(fs: Site)
    requires ValidSite(fs)
    ensures
      var pages := Pages(fs.docs, Walk(fs.tree, []));
      && (forall p :: p in pages ==> Choose(fs, p.name) == Some(fs.docs + p.source))
      && (forall p, q :: p in pages && q in pages && p.name == q.name ==> p.source == q.source)
  {
    AllPages(fs);
    var pages := Pages(fs.docs, Walk(fs.tree, []));
    forall p | p in pages ensures Choose(fs, p.name) == Some(fs.docs + p.source) {
      assert Faithful(fs, p);
    }
    forall p, q | p in pages && q in pages && p.name == q.name ensures p.source == q.source {
      SameTail(fs.docs, p.source, q.source);
    }
  }

  lemma SameTail(docs: seq<string>, a: seq<string>, b: seq<string>)
    ensures docs + a == docs + b ==> a == b
  {
    assert a == (docs + a)[|docs|..] && b == (docs + b)[|docs|..];
  }
}
