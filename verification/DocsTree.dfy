/** The documentation directory as a tree of files, and os.walk() over it. */
module DocsTree {
  import opened Options
  import opened Paths
  import opened Strings

  datatype Dir = Dir(files: seq<string>, subdirs: seq<Sub>)
  datatype Sub = Sub(name: string, dir: Dir)

  /** One item of os.walk(): a directory (relative to the top) with its subdirectories and files. */
  datatype Entry = Entry(at: seq<string>, dirs: seq<string>, files: seq<string>)

  const MD := ".md"
  const INDEX := "index.md"
  const README := "README.md"

  predicate Hidden(name: string) {
    name != "" && name[0] == '.'
  }

  // ---- lookups ----

  function Find(subs: seq<Sub>, name: string): Option<Dir> {
    if subs == [] then None
    else if subs[0].name == name then Some(subs[0].dir)
    else Find(subs[1..], name)
  }

  function DirAt(d: Dir, path: seq<string>): Option<Dir>
    decreases path
  {
    if path == [] then Some(d)
    else
      match Find(d.subdirs, path[0])
      case None => None
      case Some(sub) => DirAt(sub, path[1..])
  }

  predicate FileAt(d: Dir, path: seq<string>) {
    path != [] &&
    match DirAt(d, path[..|path| - 1])
    case None => false
    case Some(parent) => path[|path| - 1] in parent.files
  }

  // ---- well-formed trees ----

  /** A name the documentation may use: one component, not hidden. */
  predicate Visible(name: string) {
    GoodName(name) && !Hidden(name)
  }

  /** No hidden names, no directory that ends in .md, no two subdirectories of one name. */
  predicate WellFormed(d: Dir) {
    && (forall f :: f in d.files ==> Visible(f))
    && AllWellFormed(d.subdirs)
  }

  predicate AllWellFormed(subs: seq<Sub>) {
    subs != [] ==>
      && Visible(subs[0].name) && !EndsWith(subs[0].name, MD)
      && (forall i :: 1 <= i < |subs| ==> subs[i].name != subs[0].name)
      && WellFormed(subs[0].dir)
      && AllWellFormed(subs[1..])
  }

  lemma {:induction false} FoundWellFormed(subs: seq<Sub>, name: string)
    requires AllWellFormed(subs) && Find(subs, name).Some?
    ensures Visible(name) && !EndsWith(name, MD) && WellFormed(Find(subs, name).value)
  {
    if subs[0].name != name {
      FoundWellFormed(subs[1..], name);
    }
  }

  lemma {:induction false} DirAtWellFormed(d: Dir, path: seq<string>)
    requires WellFormed(d) && DirAt(d, path).Some?
    ensures WellFormed(DirAt(d, path).value)
    ensures forall i :: 0 <= i < |path| ==> Visible(path[i]) && !EndsWith(path[i], MD)
    decreases path
  {
    if path != [] {
      FoundWellFormed(d.subdirs, path[0]);
      DirAtWellFormed(Find(d.subdirs, path[0]).value, path[1..]);
      assert forall i :: 1 <= i < |path| ==> path[i] == path[1..][i - 1];
    }
  }

  lemma FileAtVisible(d: Dir, path: seq<string>)
    requires WellFormed(d) && FileAt(d, path)
    ensures forall i :: 0 <= i < |path| ==> Visible(path[i])
  {
    DirAtWellFormed(d, path[..|path| - 1]);
  }

  lemma {:induction false} DirAtConcat(d: Dir, p: seq<string>, q: seq<string>)
    ensures DirAt(d, p + q) == if DirAt(d, p).Some? then DirAt(DirAt(d, p).value, q) else None
    decreases p
  {
    if p == [] {
      assert p + q == q;
    } else {
      assert (p + q)[1..] == p[1..] + q;
      match Find(d.subdirs, p[0])
      case None =>
      case Some(sub) => DirAtConcat(sub, p[1..], q);
    }
  }

  // ---- os.walk(topdown=True) ----

  function Walk(d: Dir, at: seq<string>): seq<Entry>
    decreases d, 1
  {
    [Entry(at, seq(|d.subdirs|, i requires 0 <= i < |d.subdirs| => d.subdirs[i].name), d.files)]
    + WalkAll(d.subdirs, at)
  }

  function WalkAll(subs: seq<Sub>, at: seq<string>): seq<Entry>
    decreases subs, 0
  {
    if subs == [] then []
    else Walk(subs[0].dir, at + [subs[0].name]) + WalkAll(subs[1..], at)
  }

  /** An entry describes a directory of the tree. */
  ghost predicate Describes(d: Dir, at: seq<string>, e: Entry) {
    && at <= e.at
    && DirAt(d, e.at[|at|..]).Some?
    && DirAt(d, e.at[|at|..]).value.files == e.files
  }

  /** An entry of the walk below a list of subdirectories. */
  ghost predicate DescribesBelow(subs: seq<Sub>, at: seq<string>, e: Entry) {
    && |at| < |e.at| && at <= e.at
    && Find(subs, e.at[|at|]).Some?
    && DirAt(Find(subs, e.at[|at|]).value, e.at[|at| + 1..]).Some?
    && DirAt(Find(subs, e.at[|at|]).value, e.at[|at| + 1..]).value.files == e.files
  }

  lemma {:induction false} WalkDescribes(d: Dir, at: seq<string>)
    requires WellFormed(d)
    ensures forall e :: e in Walk(d, at) ==> Describes(d, at, e)
    decreases d, 1
  {
    WalkAllDescribes(d.subdirs, at);
    forall e | e in Walk(d, at) ensures Describes(d, at, e) {
      if e in WalkAll(d.subdirs, at) {
        assert DescribesBelow(d.subdirs, at, e);
        assert e.at[|at|..][1..] == e.at[|at| + 1..];
      } else {
        assert e == Walk(d, at)[0];
      }
    }
  }

  lemma {:induction false} WalkAllDescribes(subs: seq<Sub>, at: seq<string>)
    requires AllWellFormed(subs)
    ensures forall e :: e in WalkAll(subs, at) ==> DescribesBelow(subs, at, e)
    decreases subs, 0
  {
    if subs != [] {
      var first := at + [subs[0].name];
      WalkDescribes(subs[0].dir, first);
      WalkAllDescribes(subs[1..], at);
      forall e | e in WalkAll(subs, at) ensures DescribesBelow(subs, at, e) {
        if e in Walk(subs[0].dir, first) {
          assert Describes(subs[0].dir, first, e);
          assert e.at[|at|] == first[|at|];
        } else {
          assert DescribesBelow(subs[1..], at, e);
          assert subs[0].name != e.at[|at|] by {
            FoundLater(subs[1..], e.at[|at|]);
          }
        }
      }
    }
  }

  lemma {:induction false} FoundLater(subs: seq<Sub>, name: string)
    requires Find(subs, name).Some?
    ensures exists i :: 0 <= i < |subs| && subs[i].name == name
  {
    if subs[0].name != name {
      FoundLater(subs[1..], name);
      var i :| 0 <= i < |subs[1..]| && subs[1..][i].name == name;
      assert subs[i + 1].name == name;
    }
  }

  /** One of the first k entries is the directory's. */
  ghost predicate Before(entries: seq<Entry>, k: nat, dir: seq<string>) {
    exists j :: 0 <= j < k && j < |entries| && entries[j].at == dir
  }

  /** An entry of a directory whose parent is the given one or was walked before. */
  ghost predicate Follows(entries: seq<Entry>, k: nat, at: seq<string>)
    requires k < |entries|
  {
    var e := entries[k];
    e.at != [] && (e.at[..|e.at| - 1] == at || Before(entries, k, e.at[..|e.at| - 1]))
  }

  /** Every directory's entry comes after its parent's. */
  ghost predicate ParentsFirst(entries: seq<Entry>, at: seq<string>) {
    forall k :: 0 <= k < |entries| && entries[k].at != at ==>
      entries[k].at != [] && Before(entries, k, entries[k].at[..|entries[k].at| - 1])
  }

  /** The same for the entries below a directory whose own entry was already seen. */
  ghost predicate ParentsFirstBelow(entries: seq<Entry>, at: seq<string>) {
    forall k :: 0 <= k < |entries| ==> Follows(entries, k, at)
  }

  lemma BeforeLeft(a: seq<Entry>, b: seq<Entry>, k: nat, dir: seq<string>)
    requires Before(a, k, dir)
    ensures Before(a + b, k, dir)
  {
    var j :| 0 <= j < k && j < |a| && a[j].at == dir;
    assert (a + b)[j] == a[j];
  }

  lemma BeforeRight(a: seq<Entry>, b: seq<Entry>, k: nat, dir: seq<string>)
    requires Before(b, k, dir)
    ensures Before(a + b, |a| + k, dir)
  {
    var j :| 0 <= j < k && j < |b| && b[j].at == dir;
    assert (a + b)[|a| + j] == b[j];
  }

  lemma OwnEntryFirst(own: seq<Entry>, below: seq<Entry>, at: seq<string>, w: seq<Entry>)
    requires |own| == 1 && own[0].at == at && ParentsFirstBelow(below, at) && w == own + below
    ensures ParentsFirst(w, at)
  {
    forall k | 0 <= k < |w| && w[k].at != at
      ensures w[k].at != [] && Before(w, k, w[k].at[..|w[k].at| - 1])
    {
      assert w[0] == own[0] && w[k] == below[k - 1];
      assert Follows(below, k - 1, at);
      if w[k].at[..|w[k].at| - 1] == at {
        assert w[0].at == at;
      } else {
        BeforeRight(own, below, k - 1, w[k].at[..|w[k].at| - 1]);
      }
    }
  }

  lemma SiblingsBelow(a: seq<Entry>, b: seq<Entry>, first: seq<string>, at: seq<string>, w: seq<Entry>)
    requires first != [] && first[..|first| - 1] == at
    requires ParentsFirst(a, first) && ParentsFirstBelow(b, at) && w == a + b
    ensures ParentsFirstBelow(w, at)
  {
    forall k | 0 <= k < |w|
      ensures Follows(w, k, at)
    {
      if k < |a| {
        assert w[k] == a[k];
        if a[k].at != first {
          BeforeLeft(a, b, k, a[k].at[..|a[k].at| - 1]);
        }
      } else {
        assert w[k] == b[k - |a|];
        assert Follows(b, k - |a|, at);
        if b[k - |a|].at[..|b[k - |a|].at| - 1] != at {
          BeforeRight(a, b, k - |a|, w[k].at[..|w[k].at| - 1]);
        }
      }
    }
  }

  lemma {:induction false} WalkTopDown(d: Dir, at: seq<string>)
    ensures ParentsFirst(Walk(d, at), at)
    ensures Walk(d, at)[0].at == at
    decreases d, 1
  {
    WalkAllTopDown(d.subdirs, at);
    var own, below := Walk(d, at)[..1], WalkAll(d.subdirs, at);
    OwnEntryFirst(own, below, at, Walk(d, at));
  }

  lemma {:induction false} WalkAllTopDown(subs: seq<Sub>, at: seq<string>)
    ensures ParentsFirstBelow(WalkAll(subs, at), at)
    decreases subs, 0
  {
    if subs != [] {
      var first := at + [subs[0].name];
      WalkTopDown(subs[0].dir, first);
      WalkAllTopDown(subs[1..], at);
      SiblingsBelow(Walk(subs[0].dir, first), WalkAll(subs[1..], at), first, at, WalkAll(subs, at));
    }
  }

  /** Every directory of the tree has an entry. */
  lemma {:induction false} WalkComplete(d: Dir, at: seq<string>, path: seq<string>)
    requires DirAt(d, path).Some?
    ensures exists k :: 0 <= k < |Walk(d, at)| && Walk(d, at)[k].at == at + path
                        && Walk(d, at)[k].files == DirAt(d, path).value.files
    decreases d, 1
  {
    var w := Walk(d, at);
    if path == [] {
      assert w[0].at == at + path;
    } else {
      WalkAllComplete(d.subdirs, at, path);
      var below := WalkAll(d.subdirs, at);
      var k :| 0 <= k < |below| && below[k].at == at + path && below[k].files == DirAt(d, path).value.files;
      assert w[k + 1] == below[k];
    }
  }

  lemma {:induction false} WalkAllComplete(subs: seq<Sub>, at: seq<string>, path: seq<string>)
    requires path != [] && Find(subs, path[0]).Some? && DirAt(Find(subs, path[0]).value, path[1..]).Some?
    ensures exists k :: 0 <= k < |WalkAll(subs, at)| && WalkAll(subs, at)[k].at == at + path
                        && WalkAll(subs, at)[k].files == DirAt(Find(subs, path[0]).value, path[1..]).value.files
    decreases subs, 0
  {
    var w := WalkAll(subs, at);
    var first := at + [subs[0].name];
    var a: seq<Entry>, b: seq<Entry> := Walk(subs[0].dir, first), WalkAll(subs[1..], at);
    var files := DirAt(Find(subs, path[0]).value, path[1..]).value.files;
    if subs[0].name == path[0] {
      WalkComplete(subs[0].dir, first, path[1..]);
      assert first + path[1..] == at + path;
      var k :| 0 <= k < |a| && a[k].at == at + path && a[k].files == files;
      assert w[k] == a[k];
    } else {
      WalkAllComplete(subs[1..], at, path);
      var k :| 0 <= k < |b| && b[k].at == at + path && b[k].files == files;
      assert w[k + |a|] == b[k];
    }
  }
}
