/** Links between documentation pages: rewrite_markdown_link() on the parts of a link, and its
    agreement with the page lookup and with the file tree. */
module DocsLinks {
  import opened Options
  import opened Paths
  import opened DocsTree
  import opened DocsPages

  /** urlsplit() of a link. */
  datatype Link = Link(scheme: string, netloc: string, path: string, query: string, fragment: string)

  // ---- os.path.splitext() ----

  function LastDot(s: string): (d: int)
    ensures -1 <= d < |s|
    ensures d >= 0 ==> s[d] == '.'
    ensures forall i :: d < i < |s| ==> s[i] != '.'
  {
    if s == "" then -1
    else if s[|s| - 1] == '.' then |s| - 1
    else LastDot(s[..|s| - 1])
  }

  /** The extension of a last component: leading dots do not start one. */
  function ExtOf(seg: string): string {
    var d := LastDot(seg);
    if d < 0 || forall i :: 0 <= i < d ==> seg[i] == '.' then "" else seg[d..]
  }

  function LastPart(path: string): string {
    var parts := Split(path, '/');
    parts[|parts| - 1]
  }

  function Ext(path: string): string {
    ExtOf(LastPart(path))
  }

  // ---- rewrite_markdown_link() without the docs prefix ----

  /** base_page_name.rsplit("/", 1)[0], or "" */
  function Parent(base: string): string {
    var parts := Split(base, '/');
    if |parts| > 1 then Join(parts[..|parts| - 1], '/') else ""
  }

  /** A link to a page or a Markdown file, as a page path with one trailing slash. */
  function AsPage(path: string): string {
    if Ext(path) == "" then RStrip(path) + "/"
    else if Ext(path) == MD && |path| >= 3 then RStrip(path[..|path| - 3]) + "/"
    else path
  }

  /** A relative path is made absolute from the directory of the page that holds the link. */
  function Resolve(p: string, basePageName: string): string {
    if p != "" && p[0] == '/' then p
    else
      var parent := Parent(StripSlashes(basePageName));
      var absolute := "/" + Join(Norm([], Comps(parent) + Comps(p)), '/');
      if absolute != "/" && p != "" && p[|p| - 1] == '/' then absolute + "/" else absolute
  }

  function RewritePath(path: string, basePageName: string): string {
    Resolve(AsPage(path), basePageName)
  }

  predicate Internal(link: Link) {
    link.scheme != "mailto" && link.netloc == "" && link.path != ""
  }

  function Rewrite(link: Link, basePageName: string): Link {
    if Internal(link) then link.(path := RewritePath(link.path, basePageName)) else link
  }

  // ---- cutting off the last component ----

  /** Everything up to and including the last slash. */
  function DirPart(path: string): string {
    var parts := Split(path, '/');
    if |parts| > 1 then Join(parts[..|parts| - 1], '/') + "/" else ""
  }

  lemma JoinLast(parts: seq<string>)
    requires parts != []
    ensures
      var init := parts[..|parts| - 1];
      Join(parts, '/') == (if |parts| > 1 then Join(init, '/') + "/" else "") + parts[|parts| - 1]
  {
    var init := parts[..|parts| - 1];
    assert parts == init + [parts[|parts| - 1]];
    if |parts| > 1 {
      JoinSnoc(init, parts[|parts| - 1], '/');
    }
  }

  lemma Cut(path: string)
    ensures path == DirPart(path) + LastPart(path)
    ensures '/' !in LastPart(path)
  {
    JoinSplit(path, '/');
    JoinLast(Split(path, '/'));
  }

  /** Another last component after the same slashes. */
  lemma Recut(path: string, seg: string)
    requires '/' !in seg
    ensures LastPart(DirPart(path) + seg) == seg
    ensures Comps(DirPart(path) + seg) == Comps(DirPart(path)) + Comps(seg)
  {
    var parts := Split(path, '/');
    SplitSeparatorFree(seg, '/');
    CompsOfNothing();
    if |parts| > 1 {
      AfterSlash(Join(parts[..|parts| - 1], '/'), seg);
    } else {
      assert DirPart(path) + seg == seg;
      assert Comps("") + Comps(seg) == Comps(seg);
    }
  }

  lemma LastAfterSlash(stem: string, seg: string)
    requires '/' !in seg
    ensures LastPart(stem + "/" + seg) == seg
  {
    SplitConcat(stem, seg, '/');
    SplitSeparatorFree(seg, '/');
  }

  lemma AfterSlash(stem: string, seg: string)
    requires '/' !in seg
    ensures LastPart(stem + "/" + seg) == seg
    ensures Comps(stem + "/" + seg) == Comps(stem + "/") + Comps(seg)
    ensures Comps(stem + "/") == Comps(stem)
  {
    CompsConcat(stem, seg);
    CompsConcat(stem, "");
    CompsOfNothing();
    assert stem + "/" + "" == stem + "/";
    assert Comps(stem) + [] == Comps(stem);
    LastAfterSlash(stem, seg);
  }

  /** The part of a Markdown name before its extension. */
  lemma MarkdownName(seg: string)
    requires ExtOf(seg) == MD && '/' !in seg
    ensures |seg| > 3 && seg[..|seg| - 3] + MD == seg
    ensures GoodName(seg[..|seg| - 3]) && seg[..|seg| - 3] != ".."
    ensures GoodName(seg)
  {
    var d := LastDot(seg);
    assert seg[d..] == MD && |seg| - d == 3;
    assert seg == seg[..d] + MD;
    var i :| 0 <= i < d && seg[i] != '.';
    assert seg[..d][i] != '.';
  }

  /** A Markdown link names a component that ends in .md; dropping the extension drops it there. */
  lemma MarkdownLink(path: string) returns (pre: seq<string>, f: string)
    requires Ext(path) == MD
    ensures |path| > 3 && GoodName(f) && f != ".." && GoodNames(pre)
    ensures Comps(path) == pre + [f + MD]
    ensures Comps(path[..|path| - 3]) == pre + [f]
    ensures path[|path| - 4] != '/'
  {
    Cut(path);
    var a, seg := DirPart(path), LastPart(path);
    MarkdownName(seg);
    f := seg[..|seg| - 3];
    pre := Comps(a);
    Recut(path, f);
    Recut(path, seg);
    CompsOfName(f);
    CompsOfName(seg);
    assert path[..|path| - 3] == a + f;
    assert path[|path| - 4] == f[|f| - 1];
    assert f[|f| - 1] in f;
  }

  // ---- normpath below and above a directory ----

  /** Following the components from depth n steps above the starting directory's root. */
  predicate Climbs(n: nat, cs: seq<string>)
    decreases cs
  {
    cs != [] &&
    if cs[0] == ".." then n == 0 || Climbs(n - 1, cs[1..]) else Climbs(n + 1, cs[1..])
  }

  /** Normalizing below a directory of the file system against normalizing below the root: the same
      outcome, except that each step above the root takes the directory's own components away. */
  lemma {:induction false} NormBelow(dir: seq<string>, stack: seq<string>, cs: seq<string>) returns (kept: nat)
    ensures kept <= |dir|
    ensures Norm(dir + stack, cs) == dir[..kept] + Norm(stack, cs)
    ensures !Climbs(|stack|, cs) ==> kept == |dir|
    ensures Climbs(|stack|, cs) && dir != [] ==> kept < |dir|
    decreases cs
  {
    if cs == [] {
      kept := |dir|;
      assert dir[..kept] == dir;
    } else if cs[0] == ".." && stack == [] {
      assert dir + stack == dir;
      if dir == [] {
        kept := NormBelow(dir, stack, cs[1..]);
      } else {
        var above := dir[..|dir| - 1];
        kept := NormBelow(above, stack, cs[1..]);
        assert above + stack == above;
        assert above[..kept] == dir[..kept];
      }
    } else {
      assert Push(dir + stack, cs[0]) == dir + Push(stack, cs[0]);
      kept := NormBelow(dir, Push(stack, cs[0]), cs[1..]);
    }
  }

  lemma {:induction false} NormGood(stack: seq<string>, cs: seq<string>)
    requires GoodNames(stack) && GoodNames(cs) && ".." !in stack
    ensures GoodNames(Norm(stack, cs)) && ".." !in Norm(stack, cs)
    decreases cs
  {
    if cs != [] {
      NormGood(Push(stack, cs[0]), cs[1..]);
    }
  }

  // ---- the page a link is on ----

  /** The base page name load_doc_page() hands to the link rewriter. */
  function PageBase(page: string, index: bool): string {
    RStrip(page + "/" + (if index then "index" else ""))
  }

  lemma {:induction false} RStripSlash(s: string)
    ensures RStrip(s + "/") == RStrip(s)
  {
    assert (s + "/")[..|s|] == s;
  }

  /** All parts of a path but the last. */
  function Above(s: string): seq<string> {
    var parts := Split(s, '/');
    parts[..|parts| - 1]
  }

  /** Stripping slashes on the left takes away empty parts only. */
  lemma {:induction false} LeadingSlashes(s: string)
    requires s != "" && s[|s| - 1] != '/'
    ensures
      var r := LStrip(s);
      r != "" && r[|r| - 1] != '/' && Keep(Above(r)) == Keep(Above(s))
  {
    if s[0] == '/' {
      LeadingSlashes(s[1..]);
      EmptyFirst(s);
    }
  }

  lemma EmptyFirst(s: string)
    requires s != "" && s[0] == '/'
    ensures Keep(Above(s)) == Keep(Above(s[1..]))
  {
    assert Above(s) == [""] + Above(s[1..]);
    KeepFirst(Above(s));
    assert Above(s)[1..] == Above(s[1..]);
  }

  /** Cutting off the part behind the last slash, or everything if there is no slash. */
  lemma ParentSplit(s: string)
    ensures Comps(Parent(s)) == Keep(Above(s))
  {
    if Above(s) == [] {
      CompsOfNothing();
    } else {
      CompsOfJoined(Above(s));
    }
  }

  lemma CompsOfJoined(parts: seq<string>)
    requires parts != [] && forall i :: 0 <= i < |parts| ==> '/' !in parts[i]
    ensures Comps(Join(parts, '/')) == Keep(parts)
  {
    SplitJoin(parts, '/');
  }

  /** The directory of a base page name, slashes around it or not. */
  lemma ParentStripped(s: string)
    requires s != "" && s[|s| - 1] != '/'
    ensures Comps(Parent(StripSlashes(s))) == Keep(Above(s))
  {
    LeadingSlashes(s);
    assert StripSlashes(s) == LStrip(s);
    ParentSplit(LStrip(s));
  }

  lemma LastPartSeen(s: string)
    requires s != "" && s[|s| - 1] != '/'
    ensures var parts := Split(s, '/'); parts[|parts| - 1] != ""
  {
    JoinSplit(s, '/');
    JoinLast(Split(s, '/'));
  }

  lemma KeepLast(parts: seq<string>)
    requires parts != [] && Names(parts[|parts| - 1])
    ensures Keep(parts) != [] && Keep(parts[..|parts| - 1]) == Keep(parts)[..|Keep(parts)| - 1]
  {
    var init, last := parts[..|parts| - 1], parts[|parts| - 1];
    KeepBoth(init, [last], parts);
    KeepAll([last]);
  }

  /** The name is absolute: os.path.join() then forgets the documentation directory. */
  predicate Rooted(page: string) {
    RStrip(page) != "" && page[0] == '/'
  }

  /** The directory that the components of a page name lie below. */
  function Root(fs: Site, page: string): seq<string> {
    if Rooted(page) then [] else fs.docs
  }

  lemma NothingHidden(u: string)
    requires !AnyHidden(Split(u, '/'))
    ensures ".." !in Comps(u)
  {
    var parts, cs := Split(u, '/'), Comps(u);
    forall i | 0 <= i < |cs| ensures cs[i] != ".." {
      assert cs[i] in parts;
      var j :| 0 <= j < |parts| && parts[j] == cs[i];
      assert !Hidden(parts[j]);
    }
  }

  /** The components of an accepted name are visible. */
  lemma AcceptedComps(fs: Site, page: string)
    requires ValidSite(fs) && UrlToPath(fs, page).Some?
    ensures ".." !in Comps(page) && UrlToPath(fs, page).value == Root(fs, page) + Comps(page)
    ensures !AnyHidden(Split(RStrip(page), '/'))
  {
    CompsRStrip(page);
    NothingHidden(RStrip(page));
    NormPlain(Root(fs, page), Comps(page));
  }

  lemma PageBaseIs(page: string)
    ensures PageBase(page, false) == RStrip(page)
  {
    assert page + "/" + "" == page + "/";
    RStripSlash(page);
  }

  lemma ParentOf(u: string)
    requires u != "" && u[|u| - 1] != '/' && !AnyHidden(Split(u, '/'))
    ensures Comps(u) != [] && Comps(Parent(StripSlashes(u))) == Comps(u)[..|Comps(u)| - 1]
  {
    ParentStripped(u);
    CompsAbove(u);
  }

  lemma CompsAbove(u: string)
    requires u != "" && u[|u| - 1] != '/' && !AnyHidden(Split(u, '/'))
    ensures Comps(u) != [] && Keep(Above(u)) == Comps(u)[..|Comps(u)| - 1]
  {
    LastPartNames(u, Split(u, '/'));
    KeepAbove(u, Split(u, '/'));
  }

  lemma LastPartNames(u: string, parts: seq<string>)
    requires parts == Split(u, '/') && u != "" && u[|u| - 1] != '/' && !AnyHidden(parts)
    ensures Names(parts[|parts| - 1])
  {
    LastPartSeen(u);
    assert !Hidden(parts[|parts| - 1]);
  }

  lemma KeepAbove(u: string, parts: seq<string>)
    requires parts == Split(u, '/') && Names(parts[|parts| - 1])
    ensures Comps(u) != [] && Keep(Above(u)) == Comps(u)[..|Comps(u)| - 1]
  {
    KeepLast(parts);
  }

  /** Links on a page that is not an index page are resolved from above the page's name. */
  lemma PageParent(page: string)
    requires RStrip(page) != "" && !AnyHidden(Split(RStrip(page), '/'))
    ensures Comps(page) != []
    ensures Comps(Parent(StripSlashes(PageBase(page, false)))) == Comps(page)[..|Comps(page)| - 1]
  {
    PageBaseIs(page);
    ParentOf(RStrip(page));
    CompsRStrip(page);
  }

  /** Links on an index page are resolved from the page's name itself. */
  lemma IndexParent(page: string)
    ensures Comps(Parent(StripSlashes(PageBase(page, true)))) == Comps(page)
  {
    var base := page + "/" + "index";
    assert base[|base| - 1] == 'x';
    ParentStripped(base);
    AboveIndex(page);
  }

  lemma AboveIndex(page: string)
    ensures Above(page + "/" + "index") == Split(page, '/')
  {
    SplitConcat(page, "index", '/');
    SplitSeparatorFree("index", '/');
  }

  lemma NotTop(fs: Site, page: string)
    requires ValidSite(fs) && Acceptable(fs, WithMd(fs.docs + Comps(page)))
    ensures RStrip(page) != ""
  {
    if RStrip(page) == "" {
      CompsRStrip(page);
      CompsOfNothing();
      assert fs.docs + Comps(page) == fs.docs;
      TopCandidate(fs);
    }
  }

  lemma InitOf(root: seq<string>, cs: seq<string>)
    requires cs != []
    ensures WithMd(root + cs)[..|root + cs| - 1] == root + cs[..|cs| - 1]
  {
  }

  /** The base page name for the links on a page. */
  function BaseName(fs: Site, page: string): string
    requires UrlToPath(fs, page).Some? && UrlToPath(fs, page).value != []
  {
    PageBase(page, !Acceptable(fs, WithMd(UrlToPath(fs, page).value)))
  }

  /** The directory links on a page are resolved from, as components. */
  function LinkDirectory(fs: Site, page: string): seq<string>
    requires UrlToPath(fs, page).Some? && UrlToPath(fs, page).value != []
  {
    Comps(Parent(StripSlashes(BaseName(fs, page))))
  }

  lemma InitIsPlain(cs: seq<string>)
    requires cs != [] && ".." !in cs
    ensures ".." !in cs[..|cs| - 1]
  {
  }

  lemma MarkdownSource(fs: Site, page: string)
    requires ValidSite(fs) && UrlToPath(fs, page).Some? && UrlToPath(fs, page).value != []
    requires Acceptable(fs, WithMd(UrlToPath(fs, page).value))
    ensures
      var source := WithMd(UrlToPath(fs, page).value);
      source[..|source| - 1] == Root(fs, page) + LinkDirectory(fs, page) && ".." !in LinkDirectory(fs, page)
  {
    AcceptedComps(fs, page);
    if !Rooted(page) {
      NotTop(fs, page);
    }
    PageParent(page);
    InitOf(Root(fs, page), Comps(page));
    InitIsPlain(Comps(page));
  }

  /** Links are resolved from the directory of the page's own source file; for an absolute page name,
      as if that directory lay in the documentation directory once more. */
  lemma SourceDirectory(fs: Site, page: string)
    requires ValidSite(fs) && Choose(fs, page).Some?
    ensures UrlToPath(fs, page).Some? && UrlToPath(fs, page).value != []
    ensures
      var source := Choose(fs, page).value;
      && source != [] && source[..|source| - 1] == Root(fs, page) + LinkDirectory(fs, page)
      && ".." !in LinkDirectory(fs, page)
  {
    AcceptedComps(fs, page);
    var base := UrlToPath(fs, page).value;
    if Acceptable(fs, WithMd(base)) {
      MarkdownSource(fs, page);
    } else {
      IndexParent(page);
      assert (base + [INDEX])[..|base|] == base;
    }
  }

  /** What a name selects lies below the documentation directory. */
  lemma ChosenBelow(fs: Site, page: string)
    requires ValidSite(fs) && Choose(fs, page).Some?
    ensures fs.docs <= Choose(fs, page).value && |fs.docs| < |Choose(fs, page).value|
  {
    var base := UrlToPath(fs, page).value;
    TopCandidate(fs);
    if |base| == |fs.docs| {
      assert base == fs.docs;
    }
  }

  // ---- resolution ----

  lemma MarkdownAsPage(link: string)
    requires Ext(link) == MD && |link| > 3 && link[|link| - 4] != '/'
    ensures AsPage(link) == link[..|link| - 3] + "/" && Comps(AsPage(link)) == Comps(link[..|link| - 3])
  {
    var bare := link[..|link| - 3];
    assert RStrip(bare) == bare;
    assert bare + "/" == bare + "/" + "";
    CompsConcat(bare, "");
    CompsOfNothing();
  }

  lemma NormFrom(parent: seq<string>, pre: seq<string>, f: string)
    requires GoodNames(parent) && GoodNames(pre) && ".." !in parent && GoodName(f) && f != ".."
    ensures Norm([], parent + (pre + [f])) == Norm(parent, pre) + [f] && GoodNames(Norm(parent, pre) + [f])
  {
    NormConcat([], parent, pre + [f]);
    NormPlain([], parent);
    assert [] + parent == parent;
    NormConcat(parent, pre, [f]);
    NormGood(parent, pre);
    assert Norm(Norm(parent, pre), [f]) == Norm(Push(Norm(parent, pre), f), []);
  }

  /** What rewriting a relative Markdown link gives, once the outer slashes are stripped. */
  lemma RewrittenName(link: string, basePageName: string, pre: seq<string>, f: string)
    requires Ext(link) == MD && |link| > 3 && link[0] != '/' && link[|link| - 4] != '/'
    requires GoodName(f) && f != ".." && GoodNames(pre)
    requires Comps(link[..|link| - 3]) == pre + [f]
    requires ".." !in Comps(Parent(StripSlashes(basePageName)))
    ensures
      var parent := Comps(Parent(StripSlashes(basePageName)));
      StripSlashes(RewritePath(link, basePageName)) == Join(Norm(parent, pre) + [f], '/')
  {
    var parent := Comps(Parent(StripSlashes(basePageName)));
    MarkdownAsPage(link);
    NormFrom(parent, pre, f);
    var m := RelativeRewrite(link, basePageName);
    assert m == Norm(parent, pre) + [f];
    NameStripped(m);
  }

  lemma NameStripped(n: seq<string>)
    requires n != [] && GoodNames(n)
    ensures StripSlashes("/" + Join(n, '/') + "/") == Join(n, '/')
  {
    LastSlashFree(n);
    SlashesAround(Join(n, '/'));
    assert n[0] != "" && n[0][0] in n[0];
  }

  lemma SlashesAround(s: string)
    requires s != "" && s[|s| - 1] != '/'
    ensures s[0] != '/' ==> StripSlashes("/" + s + "/") == s
  {
    var t := "/" + s + "/";
    assert t[1..] == s + "/";
    if s[0] != '/' {
      assert LStrip(t) == s + "/";
      RStripSlash(s);
    }
  }

  /** A name that is not longer than where the link went cannot be what the lookup selects. */
  lemma SelectsLonger(fs: Site, n: seq<string>)
    requires ValidSite(fs) && GoodNames(n) && ".." !in n && n != []
    ensures Choose(fs, Join(n, '/')).Some? ==> |Choose(fs, Join(n, '/')).value| >= |fs.docs| + |n|
  {
    if UrlToPath(fs, Join(n, '/')).Some? {
      PathOfName(fs, n);
      assert |WithMd(fs.docs + n)| == |fs.docs + n|;
    }
  }

  lemma PathOfName(fs: Site, n: seq<string>)
    requires ValidSite(fs) && GoodNames(n) && ".." !in n && n != [] && UrlToPath(fs, Join(n, '/')).Some?
    ensures UrlToPath(fs, Join(n, '/')).value == fs.docs + n
  {
    LastSlashFree(n);
    assert n[0][0] in n[0];
    CompsJoin(n);
    NormPlain(fs.docs, n);
  }

  /** The link's file, and the name its rewriting looks up, in terms of the page's directory. */
  lemma LinkTarget(root: seq<string>, d: seq<string>, link: string, basePageName: string)
    returns (n: seq<string>, kept: nat)
    requires Ext(link) == MD && link != "" && link[0] != '/'
    requires d == Comps(Parent(StripSlashes(basePageName))) && ".." !in d
    ensures n != [] && GoodNames(n) && ".." !in n
    ensures StripSlashes(RewritePath(link, basePageName)) == Join(n, '/')
    ensures kept <= |root| && Norm(root + d, Comps(link)) == root[..kept] + WithMd(n)
    ensures root != [] ==> (Climbs(|d|, Comps(link)) <==> kept < |root|)
  {
    var pre, f := MarkdownLink(link);
    RewrittenName(link, basePageName, pre, f);
    n := NormTarget(d, pre, f);
    kept := NormBelow(root, d, Comps(link));
  }

  lemma NormTarget(d: seq<string>, pre: seq<string>, f: string) returns (n: seq<string>)
    requires GoodNames(d) && ".." !in d && GoodNames(pre) && GoodName(f) && f != ".."
    ensures n == Norm(d, pre) + [f] && GoodNames(n) && ".." !in n
    ensures Norm(d, pre + [f + MD]) == WithMd(n)
  {
    NormConcat(d, pre, [f + MD]);
    NormGood(d, pre);
    n := Norm(d, pre) + [f];
    assert |f + MD| > 2;
    assert Norm(Norm(d, pre), [f + MD]) == Norm(Push(Norm(d, pre), f + MD), []);
  }

  lemma StemsVisible(n: seq<string>)
    requires n != [] && GoodNames(n) && AllVisible(WithMd(n))
    ensures AllVisible(n)
  {
    assert forall i :: 0 <= i < |n| - 1 ==> n[i] == WithMd(n)[i];
    var last := n[|n| - 1];
    assert Visible(WithMd(n)[|n| - 1]);
    assert last[0] == (last + MD)[0];
  }

  lemma InsideSelected(fs: Site, n: seq<string>)
    requires ValidSite(fs) && n != [] && GoodNames(n) && FileAt(fs.tree, WithMd(n)) && n[|n| - 1] + MD != README
    ensures Choose(fs, Join(n, '/')) == Some(fs.docs + WithMd(n))
  {
    FileAtVisible(fs.tree, WithMd(n));
    StemsVisible(n);
    ChooseVisible(fs, n);
  }

  /** A file of the tree that a link can lead to. */
  predicate IsTarget(fs: Site, target: seq<string>) {
    && target != [] && fs.docs <= target
    && FileAt(fs.tree, target[|fs.docs|..]) && target[|target| - 1] != README
  }

  /** Looking up a rewritten link, against where the link leads. */
  lemma LookupReachesTarget(fs: Site, n: seq<string>, kept: nat, target: seq<string>)
    requires ValidSite(fs) && n != [] && GoodNames(n) && ".." !in n && kept <= |fs.docs|
    requires target == fs.docs[..kept] + WithMd(n) && IsTarget(fs, target)
    ensures Choose(fs, Join(n, '/')) == Some(target) <==> kept == |fs.docs|
  {
    if kept < |fs.docs| {
      SelectsLonger(fs, n);
    } else {
      assert fs.docs[..kept] == fs.docs;
      assert (fs.docs + WithMd(n))[|fs.docs|..] == WithMd(n);
      InsideSelected(fs, n);
    }
  }

  /** The same, from the directory that links on a page are resolved from. */
  lemma LookupFrom(fs: Site, root: seq<string>, d: seq<string>, link: string, basePageName: string, target: seq<string>)
    requires ValidSite(fs) && (root == [] || root == fs.docs)
    requires Ext(link) == MD && link != "" && link[0] != '/'
    requires d == Comps(Parent(StripSlashes(basePageName))) && ".." !in d
    requires target == Norm(root + d, Comps(link)) && IsTarget(fs, target)
    ensures
      Choose(fs, StripSlashes(RewritePath(link, basePageName))) == Some(target) <==>
      root == fs.docs && !Climbs(|d|, Comps(link))
  {
    var n, kept := LinkTarget(root, d, link, basePageName);
    assert root[..kept] == fs.docs[..kept];
    LookupReachesTarget(fs, n, kept, target);
  }

  lemma LookupOnPage(fs: Site, page: string, link: string, target: seq<string>, depth: nat)
    requires ValidSite(fs) && UrlToPath(fs, page).Some? && UrlToPath(fs, page).value != []
    requires ".." !in LinkDirectory(fs, page)
    requires Ext(link) == MD && link != "" && link[0] != '/'
    requires target == Norm(Root(fs, page) + LinkDirectory(fs, page), Comps(link)) && IsTarget(fs, target)
    requires !Rooted(page) ==> |LinkDirectory(fs, page)| == depth
    ensures
      Choose(fs, StripSlashes(RewritePath(link, BaseName(fs, page)))) == Some(target) <==>
      !Rooted(page) && !Climbs(depth, Comps(link))
  {
    assert !Rooted(page) ==> (Climbs(|LinkDirectory(fs, page)|, Comps(link)) <==> Climbs(depth, Comps(link)));
    LookupFrom(fs, Root(fs, page), LinkDirectory(fs, page), link, BaseName(fs, page), target);
  }

  lemma PageDepth(fs: Site, page: string, source: seq<string>)
    requires ValidSite(fs) && Choose(fs, page) == Some(source) && source != []
    ensures UrlToPath(fs, page).Some? && UrlToPath(fs, page).value != [] && ".." !in LinkDirectory(fs, page)
    ensures source[..|source| - 1] == Root(fs, page) + LinkDirectory(fs, page) && |fs.docs| < |source|
    ensures !Rooted(page) ==> |LinkDirectory(fs, page)| == |source| - 1 - |fs.docs|
  {
    SourceDirectory(fs, page);
    ChosenBelow(fs, page);
    assert |source[..|source| - 1]| == |Root(fs, page)| + |LinkDirectory(fs, page)|;
  }

  /** Link resolution.  On any page, take a relative Markdown link whose target, followed from the
      page's own source file through the file system, is a file of the tree other than a README.
      Looking up the rewritten link selects that very file exactly when the page's name is not
      absolute and the link does not climb above the documentation directory on its way. */
  lemma LinkResolution(fs: Site, page: string, link: Link, source: seq<string>, target: seq<string>) returns (depth: nat)
    requires ValidSite(fs) && Choose(fs, page) == Some(source) && source != []
    requires link.scheme != "mailto" && link.netloc == ""
    requires Ext(link.path) == MD && link.path != "" && link.path[0] != '/'
    requires target == Norm(source[..|source| - 1], Comps(link.path)) && IsTarget(fs, target)
    ensures UrlToPath(fs, page).Some? && UrlToPath(fs, page).value != [] && |source| == |fs.docs| + 1 + depth
    ensures
      Choose(fs, StripSlashes(Rewrite(link, BaseName(fs, page)).path)) == Some(target) <==>
      !Rooted(page) && !Climbs(depth, Comps(link.path))
  {
    PageDepth(fs, page, source);
    depth := |source| - 1 - |fs.docs|;
    LookupOnPage(fs, page, link.path, target, depth);
  }

  /** From a top-level file out of the documentation directory and back to another one. */
  predicate AroundTheTop(docs: seq<string>, f: string, parts: seq<string>) {
    docs != [] && |parts| == 3 && parts[0] == ".." && parts[1] == docs[|docs| - 1] && parts[2] == f
  }

  lemma AroundLink(docs: seq<string>, f: string, parts: seq<string>)
    requires AroundTheTop(docs, f, parts) && GoodNames(parts)
    ensures
      var link := Join(parts, '/');
      Comps(link) == parts && LastPart(link) == f && link != "" && link[0] == '.'
  {
    CompsJoin(parts);
    SplitJoin(parts, '/');
    assert parts[0][0] == '.';
  }

  lemma AroundNorm(docs: seq<string>, f: string, parts: seq<string>)
    requires AroundTheTop(docs, f, parts) && docs[|docs| - 1] != ".." && f != ".."
    ensures Norm(docs, parts) == docs + [f]
  {
    var init, back := docs[..|docs| - 1], parts[1..];
    assert Norm(docs, parts) == Norm(init, back);
    NormPlain(init, back);
    assert init + back == docs + [f];
  }

  /** A Markdown link that climbs out of the top directory and ends at one of its files. */
  predicate ClimbsTo(docs: seq<string>, f: string, link: string) {
    && link != "" && link[0] != '/' && Ext(link) == MD
    && Norm(docs, Comps(link)) == docs + [f] && Climbs(0, Comps(link))
  }

  lemma AroundClimbs(docs: seq<string>, f: string, parts: seq<string>)
    requires AroundTheTop(docs, f, parts) && GoodName(docs[|docs| - 1]) && docs[|docs| - 1] != ".."
    requires GoodName(f) && ExtOf(f) == MD
    ensures ClimbsTo(docs, f, Join(parts, '/'))
  {
    ExtMeansName(f);
    assert GoodNames(parts);
    AroundLink(docs, f, parts);
    AroundNorm(docs, f, parts);
  }

  lemma ClimbingTarget(fs: Site, f: string, link: string, source: seq<string>)
    requires fs.docs <= source && |source| == |fs.docs| + 1
    requires FileAt(fs.tree, [f]) && f != README && ClimbsTo(fs.docs, f, link)
    ensures source[..|fs.docs|] == fs.docs
    ensures fs.docs + [f] == Norm(source[..|source| - 1], Comps(link)) && IsTarget(fs, fs.docs + [f])
  {
    assert source[..|source| - 1] == fs.docs;
    assert (fs.docs + [f])[|fs.docs|..] == [f];
  }

  /** Such links exist in every documentation tree: from any page next to it, a Markdown file of the
      top directory can be named by going up and coming back, and looking up that link's rewriting
      does not select the file. */
  lemma ClimbingLinkLost(fs: Site, page: string, f: string, parts: seq<string>)
    requires ValidSite(fs) && Choose(fs, page).Some? && |Choose(fs, page).value| == |fs.docs| + 1
    requires FileAt(fs.tree, [f]) && GoodName(f) && ExtOf(f) == MD && f != README
    requires AroundTheTop(fs.docs, f, parts)
    ensures Choose(fs, page).value[..|fs.docs|] == fs.docs && ClimbsTo(fs.docs, f, Join(parts, '/'))
    ensures UrlToPath(fs, page).Some? && UrlToPath(fs, page).value != []
    ensures
      var link := Link("", "", Join(parts, '/'), "", "");
      Choose(fs, StripSlashes(Rewrite(link, BaseName(fs, page)).path)) != Some(fs.docs + [f])
  {
    var source, link := Choose(fs, page).value, Link("", "", Join(parts, '/'), "", "");
    ChosenBelow(fs, page);
    AroundClimbs(fs.docs, f, parts);
    ClimbingTarget(fs, f, link.path, source);
    var depth := LinkResolution(fs, page, link, source, fs.docs + [f]);
  }

  // ---- absolute and idempotent ----

  /** A path that rewriting leaves alone on every page. */
  predicate Settled(r: string) {
    r != "" && r[0] == '/' && AsPage(r) == r
  }

  lemma SettledStays(r: string, other: string)
    requires Settled(r)
    ensures RewritePath(r, other) == r
  {
  }

  lemma PageFormStays(s: string)
    ensures AsPage(RStrip(s) + "/") == RStrip(s) + "/"
  {
    AfterSlash(RStrip(s), "");
    assert RStrip(s) + "/" + "" == RStrip(s) + "/";
    assert LastPart(RStrip(s) + "/") == "";
    RStripSlash(RStrip(s));
  }

  /** What a relative path becomes. */
  lemma RelativeRewrite(path: string, base: string) returns (n: seq<string>)
    requires AsPage(path) == "" || AsPage(path)[0] != '/'
    ensures GoodNames(n)
    ensures n == Norm([], Comps(Parent(StripSlashes(base))) + Comps(AsPage(path)))
    ensures
      var p := AsPage(path);
      RewritePath(path, base) ==
        if n != [] && p != "" && p[|p| - 1] == '/' then "/" + Join(n, '/') + "/" else "/" + Join(n, '/')
  {
    var cs := Comps(Parent(StripSlashes(base))) + Comps(AsPage(path));
    NormGood([], cs);
    n := Norm([], cs);
    if n != [] {
      LastSlashFree(n);
      assert |"/" + Join(n, '/')| > 1;
    } else {
      assert "/" + Join(n, '/') == "/";
    }
  }

  lemma PageLinkSettled(path: string, base: string)
    requires Ext(path) == "" || (Ext(path) == MD && |path| >= 3)
    ensures Settled(RewritePath(path, base))
  {
    var bare := if Ext(path) == "" then path else path[..|path| - 3];
    var p := AsPage(path);
    assert p == RStrip(bare) + "/";
    if p[0] == '/' {
      PageFormStays(bare);
    } else {
      var n := RelativeRewrite(path, base);
      var absolute := "/" + Join(n, '/');
      if n == [] {
        PageFormStays("");
        assert RStrip("") + "/" == "/";
        assert RewritePath(path, base) == "/";
      } else {
        LastSlashFree(n);
        assert absolute[|absolute| - 1] != '/';
        PageFormStays(absolute);
      }
    }
  }

  lemma ExtMeansName(seg: string)
    requires ExtOf(seg) != "" && '/' !in seg
    ensures GoodName(seg) && seg != ".."
  {
  }

  lemma AbsoluteExt(n: seq<string>, seg: string)
    requires '/' !in seg
    ensures Ext("/" + Join(n + [seg], '/')) == ExtOf(seg)
  {
    if n == [] {
      LastAfterSlash("", seg);
      assert n + [seg] == [seg];
      assert "/" + seg == "" + "/" + seg;
    } else {
      JoinSnoc(n, seg, '/');
      LastAfterSlash("/" + Join(n, '/'), seg);
      assert "/" + (Join(n, '/') + "/" + seg) == ("/" + Join(n, '/')) + "/" + seg;
    }
  }

  lemma OtherLink(path: string) returns (pre: seq<string>, seg: string)
    requires Ext(path) != ""
    ensures GoodNames(pre) && GoodName(seg) && seg != ".." && Ext(path) == ExtOf(seg)
    ensures Comps(path) == pre + [seg] && path != "" && path[|path| - 1] != '/'
  {
    Cut(path);
    pre, seg := Comps(DirPart(path)), LastPart(path);
    Recut(path, seg);
    ExtMeansName(seg);
    CompsOfName(seg);
    assert seg[|seg| - 1] in seg && path[|path| - 1] == seg[|seg| - 1];
  }

  lemma NormLast(cs: seq<string>, pre: seq<string>, seg: string)
    requires seg != ".."
    ensures Norm([], cs + (pre + [seg])) == Norm([], cs + pre) + [seg]
  {
    assert cs + (pre + [seg]) == (cs + pre) + [seg];
    NormConcat([], cs + pre, [seg]);
    assert Norm(Norm([], cs + pre), [seg]) == Norm(Push(Norm([], cs + pre), seg), []);
  }

  lemma ResolveFile(p: string, base: string, n: seq<string>)
    requires p != "" && p[0] != '/' && p[|p| - 1] != '/'
    requires n == Norm([], Comps(Parent(StripSlashes(base))) + Comps(p))
    ensures Resolve(p, base) == "/" + Join(n, '/')
  {
  }

  lemma OtherStays(path: string)
    requires Ext(path) != "" && Ext(path) != MD
    ensures AsPage(path) == path
  {
  }

  /** A relative link to some other kind of file becomes an absolute path to that file. */
  lemma OtherLinkForm(path: string, base: string) returns (m: seq<string>, seg: string)
    requires path != "" && path[0] != '/' && Ext(path) != "" && Ext(path) != MD
    ensures RewritePath(path, base) == "/" + Join(m + [seg], '/')
    ensures '/' !in seg && ExtOf(seg) == Ext(path)
  {
    var pre;
    pre, seg := OtherLink(path);
    var parent := Comps(Parent(StripSlashes(base)));
    NormLast(parent, pre, seg);
    m := Norm([], parent + pre);
    OtherStays(path);
    ResolveFile(path, base, m + [seg]);
  }

  lemma OtherLinkSettled(path: string, base: string)
    requires path != "" && Ext(path) != "" && Ext(path) != MD
    ensures Settled(RewritePath(path, base))
  {
    if path[0] != '/' {
      var m, seg := OtherLinkForm(path, base);
      AbsoluteExt(m, seg);
      var r := RewritePath(path, base);
      assert r[0] == '/' && Ext(r) == Ext(path);
    }
  }

  /** Every rewritten internal link is absolute, and rewriting it again, on whatever page, changes
      nothing. */
  lemma RewriteIdempotent(link: Link, base: string, other: string)
    requires Internal(link)
    ensures
      var r := Rewrite(link, base);
      && r.path != "" && r.path[0] == '/'
      && Rewrite(r, other) == r
  {
    if Ext(link.path) == "" {
      PageLinkSettled(link.path, base);
    } else if Ext(link.path) == MD {
      var pre, f := MarkdownLink(link.path);
      PageLinkSettled(link.path, base);
    } else {
      OtherLinkSettled(link.path, base);
    }
    SettledStays(RewritePath(link.path, base), other);
  }
}
