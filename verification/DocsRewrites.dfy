/** Whole links: which of them are rewritten, what is kept, and where links of every kind lead. */
module DocsRewrites {
  import opened Options
  import opened Paths
  import opened Strings
  import opened DocsTree
  import opened DocsPages
  import opened DocsLinks

  // ---- the parts of a link ----

  /** Scheme, host, query and fragment of a link are kept.  Mail links, links to another host and links
      without a path are left as they are, and every other link gets an absolute path. */
  lemma RewriteParts(link: Link, base: string)
    ensures
      var r := Rewrite(link, base);
      && r.scheme == link.scheme && r.netloc == link.netloc && r.query == link.query && r.fragment == link.fragment
      && (link.scheme == "mailto" || link.netloc != "" || link.path == "" ==> r == link)
      && (link.scheme != "mailto" && link.netloc == "" && link.path != "" ==> r.path != "" && r.path[0] == '/')
  {
    if Internal(link) {
      RewriteIdempotent(link, base, base);
    }
  }

  // ---- which links are to Markdown files and which to pages ----

  /** A path is a Markdown file's just if its last component is more than dots in front of ".md". */
  lemma MarkdownIff(path: string)
    ensures
      var f := LastPart(path);
      Ext(path) == ".md" <==> EndsWith(f, ".md") && exists i :: 0 <= i < |f| - 3 && f[i] != '.'
  {
    var f := LastPart(path);
    var d := LastDot(f);
    if EndsWith(f, ".md") {
      var e := f[|f| - 3..];
      assert e[0] == f[|f| - 3] && e[1] == f[|f| - 2] && e[2] == f[|f| - 1];
      assert d == |f| - 3;
    }
  }

  /** It has no extension just if no dot of its last component follows anything but dots. */
  lemma PageIff(path: string)
    ensures
      var f := LastPart(path);
      Ext(path) == "" <==> !exists i, j :: 0 <= i < j < |f| && f[i] != '.' && f[j] == '.'
  {
    var f := LastPart(path);
    var d := LastDot(f);
    if d >= 0 && exists i :: 0 <= i < d && f[i] != '.' {
      var i :| 0 <= i < d && f[i] != '.';
      assert f[i] != '.' && f[d] == '.';
    }
  }

  // ---- absolute links ----

  lemma NotBare(path: string)
    requires path != "" && path[|path| - 1] != '/'
    ensures RStrip(path) == path
  {
  }

  /** An absolute link keeps its place on every page: a Markdown file's loses its extension, a page's
      gets one final slash, and any other file's is not changed. */
  lemma AbsoluteLinks(path: string, base: string)
    requires path != "" && path[0] == '/'
    ensures Ext(path) == MD ==> |path| > 3 && RewritePath(path, base) == path[..|path| - 3] + "/"
    ensures Ext(path) == "" ==> RewritePath(path, base) == RStrip(path) + "/"
    ensures Ext(path) == "" && path[|path| - 1] != '/' ==> RewritePath(path, base) == path + "/"
    ensures Ext(path) != "" && Ext(path) != MD ==> RewritePath(path, base) == path
  {
    if Ext(path) == MD {
      var pre, f := MarkdownLink(path);
      NotBare(path[..|path| - 3]);
    }
  }

  // ---- where relative links lead ----

  /** What a link is taken to name: a page's file without its extension, or the path itself. */
  function Named(path: string): string {
    if Ext(path) == MD && |path| >= 3 then path[..|path| - 3] else path
  }

  lemma NamedComps(path: string)
    ensures Comps(AsPage(path)) == Comps(Named(path))
  {
    if Ext(path) == "" || (Ext(path) == MD && |path| >= 3) {
      CompsSlash(RStrip(Named(path)), AsPage(path));
      CompsRStrip(Named(path));
    }
  }

  lemma RStripStarts(path: string)
    requires path != "" && path[0] != '/'
    ensures RStrip(path) != "" && RStrip(path)[0] == path[0]
    decreases |path|
  {
    if path[|path| - 1] == '/' {
      RStripStarts(path[..|path| - 1]);
    }
  }

  lemma RelativeAsPage(path: string)
    requires path != "" && path[0] != '/'
    ensures AsPage(path) != "" && AsPage(path)[0] != '/'
  {
    if Ext(path) == MD {
      var pre, f := MarkdownLink(path);
      RStripStarts(path[..|path| - 3]);
    } else {
      RStripStarts(path);
    }
  }

  lemma AbsoluteComps(n: seq<string>)
    requires GoodNames(n)
    ensures Comps("/" + Join(n, '/')) == n && Comps("/" + Join(n, '/') + "/") == n
  {
    CompsJoin(n);
    CompsConcat("", Join(n, '/'));
    CompsOfNothing();
    assert "" + "/" + Join(n, '/') == "/" + Join(n, '/');
    assert [] + n == n;
    CompsSlash("/" + Join(n, '/'), "/" + Join(n, '/') + "/");
  }

  /** A relative link is rewritten to the place it names from the directory of the base page; it ends in
      a slash just if it is a page's or ended in one, and does not lead to the top. */
  lemma RelativeLinks(path: string, base: string)
    requires path != "" && path[0] != '/'
    ensures
      var r := RewritePath(path, base);
      var n := Norm([], Comps(Parent(StripSlashes(base))) + Comps(Named(path)));
      && Comps(r) == n && r != "" && r[0] == '/'
      && (n != [] ==> (r[|r| - 1] == '/' <==> Ext(path) == "" || Ext(path) == MD))
  {
    RelativeAsPage(path);
    NamedComps(path);
    var n := RelativeRewrite(path, base);
    AbsoluteComps(n);
    if n != [] {
      LastSlashFree(n);
    }
    if Ext(path) == MD {
      var pre, f := MarkdownLink(path);
    } else if Ext(path) != "" {
      var pre, seg := OtherLink(path);
    }
  }

  /** Following components from a directory below the top, against following them in paths that begin at
      the top. */
  lemma PlaceBelow(docs: seq<string>, d: seq<string>, cs: seq<string>)
    requires docs != [] && ".." !in d
    ensures docs + Norm([], d + cs) == Norm(docs + d, cs) <==> !Climbs(|d|, cs)
  {
    NormPlain([], d);
    NormConcat([], d, cs);
    assert [] + d == d;
    var kept := NormBelow(docs, d, cs);
    assert docs[..|docs|] == docs;
    assert |docs[..kept] + Norm(d, cs)| == kept + |Norm(d, cs)|;
  }

  /** On every page with a relative name: below the documentation directory, the rewritten path of a
      relative link that does not climb above that directory is the place that the link names, followed
      from the page's own source file. */
  lemma PlaceOfLink(fs: Site, page: string, link: Link, source: seq<string>) returns (depth: nat)
    requires ValidSite(fs) && Choose(fs, page) == Some(source) && source != [] && !Rooted(page)
    requires link.scheme != "mailto" && link.netloc == "" && link.path != "" && link.path[0] != '/'
    ensures UrlToPath(fs, page).Some? && UrlToPath(fs, page).value != [] && |source| == |fs.docs| + 1 + depth
    ensures
      fs.docs + Comps(Rewrite(link, BaseName(fs, page)).path) == Norm(source[..|source| - 1], Comps(Named(link.path))) <==>
      !Climbs(depth, Comps(Named(link.path)))
  {
    SourceDirectory(fs, page);
    depth := |LinkDirectory(fs, page)|;
    RelativeLinks(link.path, BaseName(fs, page));
    PlaceBelow(fs.docs, LinkDirectory(fs, page), Comps(Named(link.path)));
  }
}
