/** The file tree of the site editor: items inserted, removed and looked up as file events arrive,
    possibly more than once. */
module EditorTree {
  import opened Options
  import opened Paths

  /** One item element: its name, whether it is a folder, whether it is marked executable, and the
      elements in its children container. */
  datatype Item = Item(name: string, folder: bool, executable: bool, children: seq<Item>)

  // ---- order ----

  /** JavaScript's < on strings. */
  predicate Before(a: string, b: string) {
    if b == "" then false
    else if a == "" then true
    else a[0] < b[0] || (a[0] == b[0] && Before(a[1..], b[1..]))
  }

  lemma {:induction false} BeforeTotal(a: string, b: string)
    ensures a == b || Before(a, b) || Before(b, a)
    ensures !(Before(a, b) && Before(b, a)) && !Before(a, a)
  {
    if a != "" && b != "" {
      BeforeTotal(a[1..], b[1..]);
      assert a == [a[0]] + a[1..] && b == [b[0]] + b[1..];
    }
    if a != "" {
      BeforeTotal(a[1..], a[1..]);
    }
  }

  lemma {:induction false} BeforeTransitive(a: string, b: string, c: string)
    requires Before(a, b) && Before(b, c)
    ensures Before(a, c)
  {
    if a != "" && a[0] == b[0] == c[0] {
      BeforeTransitive(a[1..], b[1..], c[1..]);
    }
  }

  /** getItemTypeSortOrder() */
  function SortOrder(folder: bool): nat {
    if folder then 0 else 1
  }

  /** Folders first, then by name. */
  predicate Precedes(x: Item, folder: bool, name: string) {
    SortOrder(x.folder) < SortOrder(folder) || (x.folder == folder && Before(x.name, name))
  }

  /** The test by which addItem() stops: the new item goes in front of this one. */
  predicate Follows(x: Item, folder: bool, name: string) {
    SortOrder(x.folder) > SortOrder(folder) || (x.folder == folder && Before(name, x.name))
  }

  predicate Sorted(items: seq<Item>) {
    forall i, j :: 0 <= i < j < |items| ==> Precedes(items[i], items[j].folder, items[j].name)
  }

  predicate UniqueNames(items: seq<Item>) {
    forall i, j :: 0 <= i < j < |items| ==> items[i].name != items[j].name
  }

  /** Every children list of the tree is strictly sorted and free of duplicate names, only folders
      have children, and every name can be a path component. */
  predicate Ordered(items: seq<Item>) {
    && Sorted(items) && UniqueNames(items)
    && forall i :: 0 <= i < |items| ==> OrderedItem(items[i])
  }

  predicate OrderedItem(x: Item) {
    && GoodName(x.name)
    && (!x.folder ==> x.children == [])
    && Ordered(x.children)
  }

  // ---- followPath() ----

  /** Position of the first item with the name, or -1. */
  function IndexOf(items: seq<Item>, name: string): (i: int)
    ensures -1 <= i < |items|
    ensures i >= 0 ==> items[i].name == name
    ensures i < 0 ==> forall j :: 0 <= j < |items| ==> items[j].name != name
    ensures forall j :: 0 <= j < i ==> items[j].name != name
  {
    if items == [] then -1
    else if items[0].name == name then 0
    else
      var i := IndexOf(items[1..], name);
      assert forall j :: 1 <= j < |items| ==> items[j] == items[1..][j - 1];
      if i < 0 then -1 else i + 1
  }

  /** An element, by the positions that lead to it from the items container. */
  type Element = seq<nat>

  predicate IsElement(items: seq<Item>, e: Element) {
    e == [] || (e[0] < |items| && IsElement(items[e[0]].children, e[1..]))
  }

  function Follow(items: seq<Item>, parts: seq<string>): (e: Option<Element>)
    ensures e.Some? ==> IsElement(items, e.value) && |e.value| == |parts|
    decreases parts
  {
    if parts == [] then Some([])
    else
      var i := IndexOf(items, parts[0]);
      if i < 0 || (|parts| > 1 && !items[i].folder) then None
      else
        match Follow(items[i].children, parts[1..])
        case None => None
        case Some(e) => Some([i] + e)
  }

  /** followPath() */
  function FollowPath(items: seq<Item>, path: string): Option<Element> {
    Follow(items, Comps(path))
  }

  // ---- getElemPath() ----

  function NamesTo(items: seq<Item>, e: Element): (names: seq<string>)
    requires IsElement(items, e)
    ensures |names| == |e|
    decreases e
  {
    if e == [] then [] else [items[e[0]].name] + NamesTo(items[e[0]].children, e[1..])
  }

  /** getElemPath() */
  function ElemPath(items: seq<Item>, e: Element): string
    requires IsElement(items, e)
  {
    Join(NamesTo(items, e), '/')
  }

  lemma {:induction false} NamesGood(items: seq<Item>, e: Element)
    requires Ordered(items) && IsElement(items, e)
    ensures GoodNames(NamesTo(items, e))
    decreases e
  {
    if e != [] {
      assert OrderedItem(items[e[0]]);
      NamesGood(items[e[0]].children, e[1..]);
    }
  }

  lemma {:induction false} FollowNames(items: seq<Item>, e: Element)
    requires Ordered(items) && IsElement(items, e)
    ensures Follow(items, NamesTo(items, e)) == Some(e)
    decreases e
  {
    if e != [] {
      var x := items[e[0]];
      assert OrderedItem(x);
      FollowNames(x.children, e[1..]);
      var names := NamesTo(items, e);
      assert names[1..] == NamesTo(x.children, e[1..]);
      assert IndexOf(items, x.name) == e[0];
      assert [e[0]] + e[1..] == e;
    }
  }

  lemma {:induction false} NamesFollowed(items: seq<Item>, parts: seq<string>)
    requires Follow(items, parts).Some?
    ensures NamesTo(items, Follow(items, parts).value) == parts
    decreases parts
  {
    if parts != [] {
      var i := IndexOf(items, parts[0]);
      NamesFollowed(items[i].children, parts[1..]);
      var e := Follow(items, parts).value;
      assert e[1..] == Follow(items[i].children, parts[1..]).value;
      assert [parts[0]] + parts[1..] == parts;
    }
  }

  /** followPath() and getElemPath() are inverse to each other: following an element's path finds
      that element, and the path of what a path leads to is the same path in its canonical
      spelling. */
  lemma FollowElemInverse(items: seq<Item>, e: Element, path: string)
    requires Ordered(items) && IsElement(items, e)
    ensures FollowPath(items, ElemPath(items, e)) == Some(e)
    ensures FollowPath(items, path).Some? ==> Comps(ElemPath(items, FollowPath(items, path).value)) == Comps(path)
    ensures FollowPath(items, path).Some? && Canonical(path) ==> ElemPath(items, FollowPath(items, path).value) == path
  {
    NamesGood(items, e);
    CompsJoin(NamesTo(items, e));
    FollowNames(items, e);
    if FollowPath(items, path).Some? {
      NamesFollowed(items, Comps(path));
      CompsJoin(Comps(path));
    }
  }

  // ---- containers ----

  /** An element with a children container that items can be put into: the root or a folder. */
  predicate IsContainer(items: seq<Item>, c: Element)
    ensures IsContainer(items, c) ==> IsElement(items, c)
    decreases c
  {
    c == [] || (c[0] < |items| && items[c[0]].folder && IsContainer(items[c[0]].children, c[1..]))
  }

  /** The items in a container. */
  function Below(items: seq<Item>, c: Element): seq<Item>
    requires IsElement(items, c)
    decreases c
  {
    if c == [] then items else Below(items[c[0]].children, c[1..])
  }

  /** The tree with other items in one container. */
  function PutBelow(items: seq<Item>, c: Element, list: seq<Item>): seq<Item>
    requires IsElement(items, c)
    decreases c
  {
    if c == [] then list
    else items[c[0] := items[c[0]].(children := PutBelow(items[c[0]].children, c[1..], list))]
  }

  function Up<T>(s: seq<T>): seq<T>
    requires s != []
  {
    s[..|s| - 1]
  }

  function Last<T>(s: seq<T>): T
    requires s != []
  {
    s[|s| - 1]
  }

  /** An element is an item in the container above it. */
  lemma {:induction false} ElementInContainer(items: seq<Item>, e: Element)
    requires IsElement(items, e) && e != []
    ensures IsElement(items, Up(e)) && Last(e) < |Below(items, Up(e))|
    ensures NamesTo(items, e) == NamesTo(items, Up(e)) + [Below(items, Up(e))[Last(e)].name]
    ensures Ordered(items) ==> IsContainer(items, Up(e))
    decreases e
  {
    if |e| > 1 {
      var x := items[e[0]];
      ElementInContainer(x.children, e[1..]);
      assert Up(e)[1..] == Up(e[1..]);
      assert Ordered(items) ==> OrderedItem(x);
    }
  }

  // ---- removing ----

  function WithoutAt(items: seq<Item>, i: nat): seq<Item>
    requires i < |items|
  {
    items[..i] + items[i + 1..]
  }

  /** elem.remove().  Removing the root only detaches it from the page; the tree in it stays. */
  function RemoveElement(items: seq<Item>, e: Element): seq<Item>
    requires IsElement(items, e)
  {
    if e == [] then items
    else
      ElementInContainer(items, e);
      PutBelow(items, Up(e), WithoutAt(Below(items, Up(e)), Last(e)))
  }

  /** The tree without whatever a path leads to. */
  function RemoveAt(items: seq<Item>, parts: seq<string>): seq<Item> {
    match Follow(items, parts)
    case None => items
    case Some(e) => RemoveElement(items, e)
  }

  // ---- inserting ----

  /** Where addItem() inserts: before the first item that follows the new one, or at the end. */
  function Place(items: seq<Item>, folder: bool, name: string): (p: nat)
    ensures p <= |items|
    ensures forall i :: 0 <= i < p ==> !Follows(items[i], folder, name)
    ensures p < |items| ==> Follows(items[p], folder, name)
  {
    if items == [] || Follows(items[0], folder, name) then 0
    else
      var p := Place(items[1..], folder, name);
      assert forall i :: 1 <= i < |items| ==> items[i] == items[1..][i - 1];
      p + 1
  }

  function InsertAt(items: seq<Item>, p: nat, x: Item): seq<Item>
    requires p <= |items|
  {
    items[..p] + [x] + items[p..]
  }

  function InsertItem(items: seq<Item>, x: Item): seq<Item> {
    InsertAt(items, Place(items, x.folder, x.name), x)
  }

  // ---- the events ----

  /** What reaches the pane: three kinds of message, and the user opening or closing a folder. */
  datatype Event =
    | Create(fname: string, folder: bool, executable: bool)
    | Delete(fname: string)
    | Update(fname: string, executable: bool)
    | Toggle(fname: string)

  function LastSlash(path: string): (i: int)
    ensures -1 <= i < |path|
    ensures i >= 0 ==> path[i] == '/'
    ensures forall j :: i < j < |path| ==> path[j] != '/'
  {
    if path == "" then -1
    else if path[|path| - 1] == '/' then |path| - 1
    else LastSlash(path[..|path| - 1])
  }

  /** splitPath() */
  function SplitPath(path: string): (string, string) {
    var i := LastSlash(path);
    if i < 0 then ("", path) else (path[..i], path[i + 1..])
  }

  /** addItem().  An element that is not a folder has no children container, and appending to it
      changes nothing. */
  function AddItem(items: seq<Item>, fname: string, folder: bool, executable: bool): seq<Item> {
    var (parentPath, basename) := SplitPath(fname);
    var rest := RemoveAt(items, Comps(fname));
    match FollowPath(rest, parentPath)
    case None => rest
    case Some(e) =>
      if IsContainer(rest, e) then
        PutBelow(rest, e, InsertItem(Below(rest, e), Item(basename, folder, executable, [])))
      else rest
  }

  /** updateItem() */
  function Mark(items: seq<Item>, e: Element, executable: bool): seq<Item>
    requires IsElement(items, e)
  {
    if e == [] then items
    else
      ElementInContainer(items, e);
      var list, i := Below(items, Up(e)), Last(e);
      PutBelow(items, Up(e), list[i := list[i].(executable := executable)])
  }

  /** toggleDir(): a folder that is opened or closed starts over with no children. */
  function Clear(items: seq<Item>, e: Element): seq<Item>
    requires IsElement(items, e)
  {
    if e == [] || !IsContainer(items, e) then items else PutBelow(items, e, [])
  }

  /** The event switch of wsMessage(), which first trims trailing slashes, and toggleDir(). */
  function OnEvent(items: seq<Item>, event: Event): seq<Item> {
    var fname := RStrip(event.fname);
    match event
    case Create(_, folder, executable) => AddItem(items, fname, folder, executable)
    case Delete(_) => RemoveAt(items, Comps(fname))
    case Update(_, executable) =>
      (match FollowPath(items, fname)
       case None => items
       case Some(e) => Mark(items, e, executable))
    case Toggle(_) =>
      (match FollowPath(items, fname)
       case None => items
       case Some(e) => Clear(items, e))
  }

  function AfterEvents(events: seq<Event>): seq<Item> {
    if events == [] then []
    else OnEvent(AfterEvents(events[..|events| - 1]), events[|events| - 1])
  }
}
