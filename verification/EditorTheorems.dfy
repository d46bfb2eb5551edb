/** What a run of events makes of the editor's file tree. */
module EditorTheorems {
  import opened Options
  import opened Paths
  import opened EditorTree

  // ---- a single list ----

  lemma WithoutSorted(items: seq<Item>, i: nat)
    requires Sorted(items) && UniqueNames(items) && i < |items|
    ensures Sorted(WithoutAt(items, i)) && UniqueNames(WithoutAt(items, i))
  {
    var r := WithoutAt(items, i);
    forall a, b | 0 <= a < b < |r|
      ensures Precedes(r[a], r[b].folder, r[b].name) && r[a].name != r[b].name
    {
      var a', b' := if a < i then a else a + 1, if b < i then b else b + 1;
      assert r[a] == items[a'] && r[b] == items[b'];
    }
  }

  lemma WithoutOrdered(items: seq<Item>, i: nat)
    requires Ordered(items) && i < |items|
    ensures Ordered(WithoutAt(items, i))
  {
    WithoutSorted(items, i);
    var r := WithoutAt(items, i);
    forall j | 0 <= j < |r| ensures OrderedItem(r[j]) {
      assert r[j] == items[if j < i then j else j + 1];
    }
  }

  lemma ReplaceOrdered(items: seq<Item>, i: nat, x: Item)
    requires Ordered(items) && i < |items|
    requires x.name == items[i].name && x.folder == items[i].folder && OrderedItem(x)
    ensures Ordered(items[i := x])
  {
  }

  lemma PrecedesOrFollows(x: Item, folder: bool, name: string)
    ensures x.name != name || x.folder != folder ==> (Precedes(x, folder, name) <==> !Follows(x, folder, name))
  {
    BeforeTotal(x.name, name);
  }

  lemma FollowsLater(x: Item, y: Item, folder: bool, name: string)
    requires Follows(x, folder, name) && Precedes(x, y.folder, y.name)
    ensures Follows(y, folder, name)
  {
    if x.folder == y.folder == folder {
      BeforeTransitive(name, x.name, y.name);
    }
  }

  /** Everything in front of the insertion point precedes the new item and everything behind it
      follows. */
  lemma PlaceSplits(items: seq<Item>, x: Item, i: nat)
    requires Sorted(items) && i < |items| && items[i].name != x.name
    ensures i < Place(items, x.folder, x.name) ==> Precedes(items[i], x.folder, x.name)
    ensures i >= Place(items, x.folder, x.name) ==> Precedes(x, items[i].folder, items[i].name)
  {
    PrecedesOrFollows(items[i], x.folder, x.name);
    if i > Place(items, x.folder, x.name) {
      BehindPlace(items, x, Place(items, x.folder, x.name), i);
    }
  }

  lemma BehindPlace(items: seq<Item>, x: Item, p: nat, i: nat)
    requires Sorted(items) && p < i < |items| && Follows(items[p], x.folder, x.name)
    ensures Precedes(x, items[i].folder, items[i].name)
  {
    assert Precedes(items[p], items[i].folder, items[i].name);
    FollowsLater(items[p], items[i], x.folder, x.name);
  }

  lemma InsertSorted(items: seq<Item>, p: nat, x: Item)
    requires Sorted(items) && p <= |items|
    requires forall i :: 0 <= i < p ==> Precedes(items[i], x.folder, x.name)
    requires forall i :: p <= i < |items| ==> Precedes(x, items[i].folder, items[i].name)
    ensures Sorted(InsertAt(items, p, x))
  {
    var r := InsertAt(items, p, x);
    forall i, j | 0 <= i < j < |r|
      ensures Precedes(r[i], r[j].folder, r[j].name)
    {
      var a := if i < p then i else i - 1;
      var b := if j < p then j else j - 1;
    }
  }

  lemma InsertUnique(items: seq<Item>, p: nat, x: Item)
    requires UniqueNames(items) && p <= |items|
    requires forall i :: 0 <= i < |items| ==> items[i].name != x.name
    ensures UniqueNames(InsertAt(items, p, x))
  {
    var r := InsertAt(items, p, x);
    assert forall i :: 0 <= i < |r| ==> r[i] == if i < p then items[i] else if i == p then x else items[i - 1];
  }

  /** Inserting in front of the first item that follows keeps the list strictly sorted. */
  lemma InsertOrdered(items: seq<Item>, x: Item)
    requires Ordered(items) && OrderedItem(x) && IndexOf(items, x.name) < 0
    ensures Ordered(InsertItem(items, x))
  {
    var p := Place(items, x.folder, x.name);
    forall i | 0 <= i < |items|
      ensures i < p ==> Precedes(items[i], x.folder, x.name)
      ensures i >= p ==> Precedes(x, items[i].folder, items[i].name)
    {
      PlaceSplits(items, x, i);
    }
    InsertSorted(items, p, x);
    InsertUnique(items, p, x);
    InsertedItems(items, p, x);
  }

  lemma InsertedItems(items: seq<Item>, p: nat, x: Item)
    requires p <= |items| && OrderedItem(x)
    requires forall i :: 0 <= i < |items| ==> OrderedItem(items[i])
    ensures forall i :: 0 <= i < |items| + 1 ==> OrderedItem(InsertAt(items, p, x)[i])
  {
    var r := InsertAt(items, p, x);
    assert forall i :: 0 <= i < |r| ==> r[i] == if i < p then items[i] else if i == p then x else items[i - 1];
  }

  // ---- every event keeps the whole tree ordered ----

  /** A string comes before another if it is the beginning of it, or has the smaller character where the
      two first differ. */
  predicate ComesBefore(a: string, b: string) {
    a < b || exists k :: 0 <= k < |a| && k < |b| && a[..k] == b[..k] && a[k] < b[k]
  }

  lemma {:induction false} BeforeComesBefore(a: string, b: string)
    requires Before(a, b)
    ensures ComesBefore(a, b)
  {
    if a != "" && a[0] == b[0] {
      BeforeComesBefore(a[1..], b[1..]);
      if a[1..] < b[1..] {
        assert a == [a[0]] + a[1..] && b == [b[0]] + b[1..];
      } else {
        var k :| 0 <= k < |a[1..]| && k < |b[1..]| && a[1..][..k] == b[1..][..k] && a[1..][k] < b[1..][k];
        assert a[..k + 1] == [a[0]] + a[1..][..k] && b[..k + 1] == [b[0]] + b[1..][..k];
        assert a[k + 1] < b[k + 1];
      }
    } else if a != "" {
      assert a[..0] == b[..0];
    }
  }

  /** In every ordered list all folders come before all files, and within either kind the names come in
      the order of their characters. */
  lemma FoldersFirst(items: seq<Item>, i: nat, j: nat)
    requires Ordered(items) && i < j < |items|
    ensures items[j].folder ==> items[i].folder
    ensures items[i].folder == items[j].folder ==> ComesBefore(items[i].name, items[j].name)
  {
    assert Precedes(items[i], items[j].folder, items[j].name);
    if items[i].folder == items[j].folder {
      BeforeComesBefore(items[i].name, items[j].name);
    }
  }

  lemma {:induction false} BelowOrdered(items: seq<Item>, c: Element)
    requires Ordered(items) && IsElement(items, c)
    ensures Ordered(Below(items, c))
    decreases c
  {
    if c != [] {
      assert OrderedItem(items[c[0]]);
      BelowOrdered(items[c[0]].children, c[1..]);
    }
  }

  lemma {:induction false} PutBelowOrdered(items: seq<Item>, c: Element, list: seq<Item>)
    requires Ordered(items) && IsContainer(items, c)
    ensures Ordered(PutBelow(items, c, list)) <==> Ordered(list)
    decreases c
  {
    if c != [] {
      var x := items[c[0]];
      assert OrderedItem(x);
      PutBelowOrdered(x.children, c[1..], list);
      var y := x.(children := PutBelow(x.children, c[1..], list));
      if Ordered(list) {
        ReplaceOrdered(items, c[0], y);
      } else {
        assert !OrderedItem(PutBelow(items, c, list)[c[0]]);
      }
    }
  }

  lemma RemoveOrdered(items: seq<Item>, e: Element)
    requires Ordered(items) && IsElement(items, e)
    ensures Ordered(RemoveElement(items, e))
  {
    if e != [] {
      ElementInContainer(items, e);
      BelowOrdered(items, Up(e));
      WithoutOrdered(Below(items, Up(e)), Last(e));
      PutBelowOrdered(items, Up(e), WithoutAt(Below(items, Up(e)), Last(e)));
    }
  }

  lemma MarkOrdered(items: seq<Item>, e: Element, executable: bool)
    requires Ordered(items) && IsElement(items, e)
    ensures Ordered(Mark(items, e, executable))
  {
    if e != [] {
      ElementInContainer(items, e);
      BelowOrdered(items, Up(e));
      var list, i := Below(items, Up(e)), Last(e);
      assert OrderedItem(list[i]);
      ReplaceOrdered(list, i, list[i].(executable := executable));
      PutBelowOrdered(items, Up(e), list[i := list[i].(executable := executable)]);
    }
  }

  lemma ClearOrdered(items: seq<Item>, e: Element)
    requires Ordered(items) && IsElement(items, e)
    ensures Ordered(Clear(items, e))
  {
    if e != [] && IsContainer(items, e) {
      PutBelowOrdered(items, e, []);
    }
  }

  // ---- what the tree shows ----

  /** Whether an item is there, and if so whether it is a folder and marked executable. */
  datatype Shown = Shown(folder: bool, executable: bool)

  function Show(items: seq<Item>, parts: seq<string>): Option<Shown>
    requires parts != []
    decreases parts
  {
    var i := IndexOf(items, parts[0]);
    if i < 0 then None
    else if |parts| == 1 then Some(Shown(items[i].folder, items[i].executable))
    else if !items[i].folder then None
    else Show(items[i].children, parts[1..])
  }

  /** The root takes any item; elsewhere the parent has to be shown as a folder. */
  predicate HasParent(items: seq<Item>, parts: seq<string>)
    requires parts != []
  {
    |parts| == 1 || (Show(items, Up(parts)).Some? && Show(items, Up(parts)).value.folder)
  }

  lemma UpAndLast<T>(s: seq<T>)
    requires s != []
    ensures Up(s) + [Last(s)] == s
  {
  }

  lemma {:induction false} FollowIsShow(items: seq<Item>, parts: seq<string>)
    requires parts != []
    ensures Follow(items, parts).Some? <==> Show(items, parts).Some?
    decreases parts
  {
    var i := IndexOf(items, parts[0]);
    if |parts| > 1 && i >= 0 {
      FollowIsShow(items[i].children, parts[1..]);
    }
  }

  lemma {:induction false} NothingBelowNothing(items: seq<Item>, parts: seq<string>, q: seq<string>)
    requires parts != [] && parts <= q && Show(items, parts).None?
    ensures Show(items, q).None?
    decreases parts
  {
    var i := IndexOf(items, parts[0]);
    if |parts| > 1 && i >= 0 && items[i].folder {
      NothingBelowNothing(items[i].children, parts[1..], q[1..]);
    }
  }

  lemma IndexOfReplaced(items: seq<Item>, i: nat, x: Item, name: string)
    requires i < |items| && x.name == items[i].name
    ensures IndexOf(items[i := x], name) == IndexOf(items, name)
  {
    var k, k' := IndexOf(items, name), IndexOf(items[i := x], name);
    assert forall j :: 0 <= j < |items| ==> items[i := x][j].name == items[j].name;
  }

  /** A tree with other items in one container shows those items there and is otherwise the same. */
  lemma {:induction false} ShowPutBelow(items: seq<Item>, c: Element, list: seq<Item>, q: seq<string>)
    requires Ordered(items) && IsContainer(items, c) && q != []
    ensures
      NamesTo(items, c) < q ==>
        && Show(items, q) == Show(Below(items, c), q[|c|..])
        && Show(PutBelow(items, c, list), q) == Show(list, q[|c|..])
    ensures !(NamesTo(items, c) < q) ==> Show(PutBelow(items, c, list), q) == Show(items, q)
    decreases c
  {
    if c != [] {
      var x := items[c[0]];
      var y := x.(children := PutBelow(x.children, c[1..], list));
      assert OrderedItem(x);
      assert IndexOf(items, x.name) == c[0];
      IndexOfReplaced(items, c[0], y, q[0]);
      if |q| > 1 {
        ShowPutBelow(x.children, c[1..], list, q[1..]);
        assert |q| > |c| ==> q[1..][|c| - 1..] == q[|c|..];
        NamesBelow(items, c, q);
      }
    }
  }

  lemma NamesBelow(items: seq<Item>, c: Element, q: seq<string>)
    requires IsElement(items, c) && c != [] && |q| > 1
    ensures
      (NamesTo(items, c) < q) <==> (q[0] == items[c[0]].name && NamesTo(items[c[0]].children, c[1..]) < q[1..])
  {
    var names, rest := NamesTo(items, c), NamesTo(items[c[0]].children, c[1..]);
    assert names == [items[c[0]].name] + rest;
    if names < q {
      assert rest == names[1..] == q[1..|names|] == q[1..][..|rest|];
    }
    if q[0] == items[c[0]].name && rest < q[1..] {
      assert q[..|names|] == [q[0]] + q[1..][..|rest|];
    }
  }

  // ---- one name of one container ----

  lemma PrefixSnoc(names: seq<string>, name: string, q: seq<string>)
    ensures names + [name] <= q <==> (names < q && q[|names|] == name)
    ensures names + [name] <= q ==> q[|names|..] == [name] + q[|names| + 1..]
  {
  }

  /** Changing what one container shows for one name changes the tree at that path and below it. */
  lemma ShowPutOne(items: seq<Item>, c: Element, list: seq<Item>, name: string, q: seq<string>)
    requires Ordered(items) && IsContainer(items, c) && q != []
    requires forall r: seq<string> :: r != [] && r[0] != name ==> Show(list, r) == Show(Below(items, c), r)
    ensures
      var parts := NamesTo(items, c) + [name];
      if parts <= q then Show(PutBelow(items, c, list), q) == Show(list, q[|c|..])
      else Show(PutBelow(items, c, list), q) == Show(items, q)
  {
    var names := NamesTo(items, c);
    ShowPutBelow(items, c, list, q);
    PrefixSnoc(names, name, q);
  }

  lemma NameFound(items: seq<Item>, i: nat)
    requires UniqueNames(items) && i < |items|
    ensures IndexOf(items, items[i].name) == i
  {
  }

  lemma IndexOfWithout(items: seq<Item>, i: nat, name: string)
    requires Ordered(items) && i < |items|
    ensures
      var j := IndexOf(WithoutAt(items, i), name);
      if name == items[i].name || IndexOf(items, name) < 0 then j < 0
      else j >= 0 && WithoutAt(items, i)[j] == items[IndexOf(items, name)]
  {
    var r, k := WithoutAt(items, i), IndexOf(items, name);
    var j := IndexOf(r, name);
    NameFound(items, i);
    if name != items[i].name && k >= 0 {
      assert r[if k < i then k else k - 1] == items[k];
    }
    if j >= 0 {
      var was := if j < i then j else j + 1;
      assert r[j] == items[was];
      NameFound(items, was);
    }
  }

  lemma ShowWithout(items: seq<Item>, i: nat, q: seq<string>)
    requires Ordered(items) && i < |items| && q != []
    ensures Show(WithoutAt(items, i), q) == if q[0] == items[i].name then None else Show(items, q)
  {
    IndexOfWithout(items, i, q[0]);
  }

  lemma InsertedFirst(items: seq<Item>, p: nat, x: Item, name: string)
    requires p <= |items| && IndexOf(items, x.name) < 0 && IndexOf(items, name) >= 0
    ensures
      var k := IndexOf(items, name);
      IndexOf(InsertAt(items, p, x), name) == if k < p then k else k + 1
  {
    var r, k := InsertAt(items, p, x), IndexOf(items, name);
    var j := IndexOf(r, name);
    assert forall i :: 0 <= i < |r| ==> r[i] == if i < p then items[i] else if i == p then x else items[i - 1];
    assert r[if k < p then k else k + 1] == items[k];
  }

  lemma IndexOfInserted(items: seq<Item>, x: Item, name: string)
    requires IndexOf(items, x.name) < 0
    ensures
      var r, j := InsertItem(items, x), IndexOf(InsertItem(items, x), name);
      if name == x.name then j >= 0 && r[j] == x
      else if IndexOf(items, name) < 0 then j < 0
      else j >= 0 && r[j] == items[IndexOf(items, name)]
  {
    var p := Place(items, x.folder, x.name);
    if IndexOf(items, name) >= 0 {
      InsertedFirst(items, p, x, name);
    } else {
      InsertedOnly(items, p, x, name);
    }
  }

  lemma InsertedOnly(items: seq<Item>, p: nat, x: Item, name: string)
    requires p <= |items| && IndexOf(items, name) < 0
    ensures IndexOf(InsertAt(items, p, x), name) == if name == x.name then p else -1
  {
    var r := InsertAt(items, p, x);
    assert r[p] == x;
    forall i | 0 <= i < |r| && i != p ensures r[i].name != name {
      assert r[i] == if i < p then items[i] else items[i - 1];
    }
  }

  lemma ShowInserted(items: seq<Item>, x: Item, q: seq<string>)
    requires IndexOf(items, x.name) < 0 && q != []
    ensures Show(InsertItem(items, x), q) == if q[0] == x.name then Show([x], [x.name] + q[1..]) else Show(items, q)
  {
    IndexOfInserted(items, x, q[0]);
    assert IndexOf([x], x.name) == 0;
    assert ([x.name] + q[1..])[1..] == q[1..];
  }

  // ---- the effect of every event ----

  /** A tree does not show what it does not contain, nor anything below that. */
  lemma ShowMissing(items: seq<Item>, parts: seq<string>, q: seq<string>)
    requires parts != [] && Follow(items, parts).None? && parts <= q
    ensures Show(items, q).None?
  {
    FollowIsShow(items, parts);
    NothingBelowNothing(items, parts, q);
  }

  lemma RemoveShows(items: seq<Item>, parts: seq<string>, q: seq<string>)
    requires Ordered(items) && parts != [] && q != []
    ensures Ordered(RemoveAt(items, parts))
    ensures Show(RemoveAt(items, parts), q) == if parts <= q then None else Show(items, q)
  {
    if Follow(items, parts).None? {
      if parts <= q {
        ShowMissing(items, parts, q);
      }
    } else {
      var e := Follow(items, parts).value;
      RemoveOrdered(items, e);
      NamesFollowed(items, parts);
      ElementInContainer(items, e);
      BelowOrdered(items, Up(e));
      var list, i := Below(items, Up(e)), Last(e);
      var name := list[i].name;
      forall r: seq<string> | r != []
        ensures Show(WithoutAt(list, i), r) == if r[0] == name then None else Show(list, r)
      {
        ShowWithout(list, i, r);
      }
      ShowPutOne(items, Up(e), WithoutAt(list, i), name, q);
      PrefixSnoc(NamesTo(items, Up(e)), name, q);
    }
  }

  /** The item that is found at a path is the one the tree shows there. */
  lemma {:induction false} FollowShows(items: seq<Item>, parts: seq<string>)
    requires Ordered(items) && parts != [] && Follow(items, parts).Some?
    ensures
      var e := Follow(items, parts).value;
      && IsElement(items, Up(e)) && Last(e) < |Below(items, Up(e))|
      && Below(items, Up(e))[Last(e)].name == Last(parts)
      && NamesTo(items, Up(e)) == Up(parts)
      && Show(items, parts) == Some(Shown(Below(items, Up(e))[Last(e)].folder, Below(items, Up(e))[Last(e)].executable))
  {
    var e := Follow(items, parts).value;
    NamesFollowed(items, parts);
    ElementInContainer(items, e);
    ShownInContainer(items, Up(e), Last(e), parts);
  }

  /** What the tree shows at the path of an item of a container. */
  lemma ShownInContainer(items: seq<Item>, c: Element, i: nat, parts: seq<string>)
    requires Ordered(items) && IsContainer(items, c) && i < |Below(items, c)|
    requires parts == NamesTo(items, c) + [Below(items, c)[i].name]
    ensures Show(items, parts) == Some(Shown(Below(items, c)[i].folder, Below(items, c)[i].executable))
  {
    var list := Below(items, c);
    BelowOrdered(items, c);
    ShowPutBelow(items, c, list, parts);
    assert parts[|c|..] == [list[i].name];
    NameFound(list, i);
  }

  function Remark(s: Option<Shown>, executable: bool): Option<Shown> {
    if s.None? then None else Some(s.value.(executable := executable))
  }

  lemma ItemMarked(list: seq<Item>, i: nat, executable: bool, r: seq<string>)
    requires Ordered(list) && i < |list| && r != []
    ensures
      Show(list[i := list[i].(executable := executable)], r) ==
      if r == [list[i].name] then Remark(Show(list, r), executable) else Show(list, r)
  {
    NameFound(list, i);
    IndexOfReplaced(list, i, list[i].(executable := executable), r[0]);
    assert |r| == 1 ==> r == [r[0]];
  }

  lemma MarkShows(items: seq<Item>, parts: seq<string>, executable: bool, q: seq<string>)
    requires Ordered(items) && parts != [] && q != [] && Follow(items, parts).Some?
    ensures
      Show(Mark(items, Follow(items, parts).value, executable), q) ==
      if q == parts then Remark(Show(items, q), executable) else Show(items, q)
  {
    var e := Follow(items, parts).value;
    FollowShows(items, parts);
    ElementInContainer(items, e);
    var c, list, i := Up(e), Below(items, Up(e)), Last(e);
    BelowOrdered(items, c);
    ShowPutBelow(items, c, list[i := list[i].(executable := executable)], q);
    assert parts == NamesTo(items, c) + [list[i].name];
    PrefixSnoc(NamesTo(items, c), list[i].name, q);
    if NamesTo(items, c) < q {
      ItemMarked(list, i, executable, q[|c|..]);
      SuffixIsName(NamesTo(items, c), list[i].name, q);
    }
  }

  lemma SuffixIsName(names: seq<string>, name: string, q: seq<string>)
    requires names < q
    ensures q[|names|..] == [name] <==> q == names + [name]
  {
    assert q == names + q[|names|..];
  }

  lemma ClearShows(items: seq<Item>, parts: seq<string>, q: seq<string>)
    requires Ordered(items) && parts != [] && q != [] && Follow(items, parts).Some?
    ensures
      Show(Clear(items, Follow(items, parts).value), q) == if parts < q then None else Show(items, q)
  {
    var e := Follow(items, parts).value;
    NamesFollowed(items, parts);
    if IsContainer(items, e) {
      ShowPutBelow(items, e, [], q);
    } else if parts < q {
      NotContainer(items, parts, q);
    }
  }

  /** Nothing is shown below an item that is not a folder. */
  lemma {:induction false} NotContainer(items: seq<Item>, parts: seq<string>, q: seq<string>)
    requires Follow(items, parts).Some? && !IsContainer(items, Follow(items, parts).value) && parts < q
    ensures Show(items, q).None?
    decreases parts
  {
    if parts != [] {
      var i := IndexOf(items, parts[0]);
      if items[i].folder {
        var e := Follow(items, parts).value;
        assert e[1..] == Follow(items[i].children, parts[1..]).value;
        NotContainer(items[i].children, parts[1..], q[1..]);
      }
    }
  }

  // ---- creation ----

  lemma LastPart(fname: string)
    requires fname != "" && Last(fname) != '/'
    ensures
      var (parent, base) := SplitPath(fname);
      && base != "" && '/' !in base
      && (if LastSlash(fname) < 0 then parent == "" && base == fname else fname == parent + "/" + base)
  {
  }

  lemma CompsOfPart(base: string)
    requires base != "" && '/' !in base
    ensures if base == "." then Comps(base) == [] else GoodName(base) && Comps(base) == [base]
  {
    CompsOfNothing();
    if base != "." {
      CompsOfName(base);
    }
  }

  /** The components of a path are those of its parent path and its last part, unless that part
      only says "here". */
  lemma SplitPathComps(fname: string)
    requires fname != "" && Last(fname) != '/'
    ensures Comps(fname) == Comps(SplitPath(fname).0) + Comps(SplitPath(fname).1)
    ensures Comps(SplitPath(fname).1) == if SplitPath(fname).1 == "." then [] else [SplitPath(fname).1]
    ensures SplitPath(fname).1 != "." ==> GoodName(SplitPath(fname).1)
  {
    LastPart(fname);
    CompsOfPart(SplitPath(fname).1);
    CompsOfNothing();
    if LastSlash(fname) >= 0 {
      CompsConcat(SplitPath(fname).0, SplitPath(fname).1);
    }
  }

  lemma {:induction false} FolderIsContainer(items: seq<Item>, parts: seq<string>)
    requires parts != [] && Follow(items, parts).Some?
    ensures Show(items, parts).Some? && (Show(items, parts).value.folder <==> IsContainer(items, Follow(items, parts).value))
    decreases parts
  {
    var i := IndexOf(items, parts[0]);
    var e := Follow(items, parts).value;
    assert e[1..] == Follow(items[i].children, parts[1..]).value;
    if |parts| > 1 {
      FolderIsContainer(items[i].children, parts[1..]);
    }
  }

  /** addItem() finds a container for the new item just when the tree shows the parent as a folder. */
  lemma ParentFound(items: seq<Item>, parts: seq<string>)
    requires parts != []
    ensures
      HasParent(items, parts) <==>
      (Follow(items, Up(parts)).Some? && IsContainer(items, Follow(items, Up(parts)).value))
  {
    if |parts| > 1 {
      FollowIsShow(items, Up(parts));
      if Follow(items, Up(parts)).Some? {
        FolderIsContainer(items, Up(parts));
      }
    }
  }

  lemma RemovalKeepsParent(items: seq<Item>, parts: seq<string>)
    requires Ordered(items) && parts != []
    ensures HasParent(RemoveAt(items, parts), parts) <==> HasParent(items, parts)
  {
    if |parts| > 1 {
      RemoveShows(items, parts, Up(parts));
    }
  }

  lemma NameIsFree(items: seq<Item>, c: Element, name: string, parts: seq<string>)
    requires Ordered(items) && IsContainer(items, c)
    requires parts == NamesTo(items, c) + [name] && Show(items, parts).None?
    ensures IndexOf(Below(items, c), name) < 0
  {
    ShowPutBelow(items, c, [], parts);
    assert parts[|c|..] == [name];
  }

  lemma InsertKeepsOrder(items: seq<Item>, c: Element, x: Item)
    requires Ordered(items) && IsContainer(items, c) && OrderedItem(x)
    requires IndexOf(Below(items, c), x.name) < 0
    ensures Ordered(PutBelow(items, c, InsertItem(Below(items, c), x)))
  {
    BelowOrdered(items, c);
    InsertOrdered(Below(items, c), x);
    PutBelowOrdered(items, c, InsertItem(Below(items, c), x));
  }

  /** A new item in a container that has none of its name. */
  lemma InsertShows(items: seq<Item>, c: Element, x: Item, q: seq<string>)
    requires Ordered(items) && IsContainer(items, c) && q != [] && x.children == []
    requires IndexOf(Below(items, c), x.name) < 0
    ensures
      var parts := NamesTo(items, c) + [x.name];
      Show(PutBelow(items, c, InsertItem(Below(items, c), x)), q) ==
      if q == parts then Some(Shown(x.folder, x.executable)) else if parts <= q then None else Show(items, q)
  {
    var list, names := Below(items, c), NamesTo(items, c);
    forall r: seq<string> | r != [] && r[0] != x.name
      ensures Show(InsertItem(list, x), r) == Show(list, r)
    {
      ShowInserted(list, x, r);
    }
    ShowPutOne(items, c, InsertItem(list, x), x.name, q);
    if names + [x.name] <= q {
      PrefixSnoc(names, x.name, q);
      SuffixIsName(names, x.name, q);
      ShowInserted(list, x, q[|c|..]);
      SingleShows(x, q[|c|..]);
    }
  }

  lemma SingleShows(x: Item, r: seq<string>)
    requires r != [] && r[0] == x.name && x.children == []
    ensures Show([x], [x.name] + r[1..]) == if r == [x.name] then Some(Shown(x.folder, x.executable)) else None
  {
    assert r == [x.name] + r[1..];
    assert IndexOf([x], x.name) == 0;
    if |r| > 1 {
      assert ([x.name] + r[1..])[1..] == r[1..];
      assert Show(x.children, r[1..]).None?;
    }
  }

  /** The path names something, and its last part is not ".". */
  predicate Adds(fname: string) {
    Comps(fname) != [] && SplitPath(RStrip(fname)).1 != "."
  }

  /** Where addItem() puts a new item, once the old one is gone. */
  lemma AddPlace(rest: seq<Item>, parts: seq<string>)
    requires Ordered(rest) && parts != [] && Show(rest, parts).None? && HasParent(rest, parts)
    ensures Follow(rest, Up(parts)).Some?
    ensures
      var c := Follow(rest, Up(parts)).value;
      IsContainer(rest, c) && NamesTo(rest, c) + [Last(parts)] == parts && IndexOf(Below(rest, c), Last(parts)) < 0
  {
    ParentFound(rest, parts);
    NamesFollowed(rest, Up(parts));
    UpAndLast(parts);
    NameIsFree(rest, Follow(rest, Up(parts)).value, Last(parts), parts);
  }

  /** addItem() once the old item is gone: there is room for the new one just if it has a parent. */
  lemma AddShows(rest: seq<Item>, parts: seq<string>, x: Item, q: seq<string>, c: Element)
    requires Ordered(rest) && parts != [] && q != [] && Show(rest, parts).None? && HasParent(rest, parts)
    requires OrderedItem(x) && x.children == [] && x.name == Last(parts)
    requires Follow(rest, Up(parts)) == Some(c)
    ensures IsContainer(rest, c)
    ensures
      var after := PutBelow(rest, c, InsertItem(Below(rest, c), x));
      && Ordered(after)
      && Show(after, q) == if q == parts then Some(Shown(x.folder, x.executable)) else if parts <= q then None else Show(rest, q)
  {
    AddPlace(rest, parts);
    InsertKeepsOrder(rest, c, x);
    InsertShows(rest, c, x, q);
  }

  /** addItem() when it cannot add: the last part is ".", or there is no parent to take the item. */
  lemma AddAborts(rest: seq<Item>, parts: seq<string>)
    requires parts != [] && Show(rest, parts).None?
    ensures Follow(rest, parts).None?
    ensures !HasParent(rest, parts) ==>
              (Follow(rest, Up(parts)).None? || !IsContainer(rest, Follow(rest, Up(parts)).value))
  {
    FollowIsShow(rest, parts);
    ParentFound(rest, parts);
  }

  lemma CreateSplits(fname: string)
    requires Comps(fname) != []
    ensures
      var (parent, base) := SplitPath(RStrip(fname));
      if Adds(fname) then GoodName(base) && base == Last(Comps(fname)) && Comps(parent) == Up(Comps(fname))
      else Comps(parent) == Comps(fname)
  {
    CompsRStrip(fname);
    CompsOfNothing();
    SplitPathComps(RStrip(fname));
  }

  /** addItem() with its lookups resolved: what is at the path goes, and the new item comes if it has
      a name and a parent. */
  lemma AddResolved(items: seq<Item>, fname: string, folder: bool, executable: bool)
    requires Ordered(items) && Comps(fname) != []
    ensures
      var parts, rest := Comps(fname), RemoveAt(items, Comps(fname));
      var c := Follow(rest, Up(parts));
      AddItem(items, RStrip(fname), folder, executable) ==
      if Adds(fname) && c.Some? && IsContainer(rest, c.value)
      then PutBelow(rest, c.value, InsertItem(Below(rest, c.value), Item(Last(parts), folder, executable, [])))
      else rest
  {
    var parts := Comps(fname);
    CompsRStrip(fname);
    CreateSplits(fname);
    RemoveShows(items, parts, parts);
    AddAborts(RemoveAt(items, parts), parts);
  }

  /** The tree without the old item. */
  lemma OldItemGone(items: seq<Item>, parts: seq<string>, q: seq<string>)
    requires Ordered(items) && parts != [] && q != []
    ensures
      var rest := RemoveAt(items, parts);
      && Ordered(rest) && Show(rest, parts).None? && (HasParent(rest, parts) <==> HasParent(items, parts))
      && Show(rest, q) == (if parts <= q then None else Show(items, q))
  {
    RemoveShows(items, parts, parts);
    RemoveShows(items, parts, q);
    RemovalKeepsParent(items, parts);
  }

  lemma CreateShows(items: seq<Item>, fname: string, folder: bool, executable: bool, q: seq<string>)
    requires Ordered(items) && Comps(fname) != [] && q != []
    ensures Ordered(AddItem(items, RStrip(fname), folder, executable))
    ensures
      var parts := Comps(fname);
      Show(AddItem(items, RStrip(fname), folder, executable), q) ==
      if q == parts && HasParent(items, parts) && Adds(fname) then Some(Shown(folder, executable))
      else if parts <= q then None
      else Show(items, q)
  {
    var parts := Comps(fname);
    AddResolved(items, fname, folder, executable);
    var rest := RemoveAt(items, parts);
    OldItemGone(items, parts, q);
    ParentFound(rest, parts);
    if Adds(fname) && HasParent(rest, parts) {
      assert GoodName(Last(parts));
      AddShows(rest, parts, Item(Last(parts), folder, executable, []), q, Follow(rest, Up(parts)).value);
    }
  }
}
