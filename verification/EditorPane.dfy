/** The site editor's file pane as it works: one tree, changed in place by searches over children
    lists. */
module EditorPane {
  import opened Options
  import opened Paths
  import opened EditorTree
  import opened EditorTheorems
  import opened EditorRuns

  function Prepend(c: Element, rest: Option<Element>): Option<Element> {
    if rest.None? then None else Some(c + rest.value)
  }

  /** Where the walk of followPath() can still end, from the element it has reached. */
  function Remaining(items: seq<Item>, c: Element, parts: seq<string>): Option<Element>
    requires IsElement(items, c)
  {
    if parts != [] && !IsContainer(items, c) then None else Prepend(c, Follow(Below(items, c), parts))
  }

  lemma {:induction false} ContainerGrows(items: seq<Item>, c: Element, i: nat)
    requires IsContainer(items, c) && i < |Below(items, c)|
    ensures IsElement(items, c + [i])
    ensures Below(items, c + [i]) == Below(items, c)[i].children
    ensures IsContainer(items, c + [i]) <==> Below(items, c)[i].folder
    decreases c
  {
    if c == [] {
      assert ([] + [i])[1..] == [];
    } else {
      ContainerGrows(items[c[0]].children, c[1..], i);
      assert (c + [i])[1..] == c[1..] + [i];
    }
  }

  lemma WalkStep(items: seq<Item>, c: Element, parts: seq<string>, i: int)
    requires IsContainer(items, c) && parts != [] && i == IndexOf(Below(items, c), parts[0])
    ensures i < 0 ==> Remaining(items, c, parts).None?
    ensures i >= 0 ==> IsElement(items, c + [i]) && Remaining(items, c, parts) == Remaining(items, c + [i], parts[1..])
  {
    if i >= 0 {
      ContainerGrows(items, c, i);
      var rest := Follow(Below(items, c)[i].children, parts[1..]);
      assert rest.Some? ==> c + ([i] + rest.value) == (c + [i]) + rest.value;
    }
  }

  class FilesPane {
    var items: seq<Item>

    constructor ()
      ensures items == []
    {
      items := [];
    }

    /** The search of followPath() among the children of one element. */
    method ChildNamed(list: seq<Item>, name: string) returns (found: int)
      ensures found == IndexOf(list, name)
    {
      var i := 0;
      while i < |list|
        invariant 0 <= i <= |list|
        invariant forall j :: 0 <= j < i ==> list[j].name != name
      {
        if list[i].name == name {
          return i;
        }
        i := i + 1;
      }
      return -1;
    }

    method FindPath(path: string) returns (elem: Option<Element>)
      ensures elem == FollowPath(items, path)
    {
      var parts := Comps(path);
      var current: Element := [];
      assert Follow(items, parts).Some? ==> [] + Follow(items, parts).value == Follow(items, parts).value;
      while parts != []
        invariant IsElement(items, current)
        invariant FollowPath(items, path) == Remaining(items, current, parts)
        decreases |parts|
      {
        if !IsContainer(items, current) {
          return None;
        }
        var i := ChildNamed(Below(items, current), parts[0]);
        WalkStep(items, current, parts, i);
        if i < 0 {
          return None;
        }
        current, parts := current + [i], parts[1..];
      }
      assert current + [] == current;
      return Some(current);
    }

    /** The search of addItem() for the item to insert before. */
    method PlaceFor(list: seq<Item>, folder: bool, name: string) returns (p: nat)
      ensures p == Place(list, folder, name)
    {
      p := 0;
      while p < |list|
        invariant p <= |list|
        invariant forall j :: 0 <= j < p ==> !Follows(list[j], folder, name)
      {
        if SortOrder(list[p].folder) > SortOrder(folder) {
          break;
        } else if SortOrder(list[p].folder) == SortOrder(folder) {
          if Before(name, list[p].name) {
            break;
          }
        }
        p := p + 1;
      }
      assert Place(list, folder, name) == p;
    }

    method Remove(path: string)
      modifies this
      ensures items == RemoveAt(old(items), Comps(path))
    {
      var elem := FindPath(path);
      if elem.Some? {
        items := RemoveElement(items, elem.value);
      }
    }

    method Add(fname: string, folder: bool, executable: bool)
      modifies this
      ensures items == AddItem(old(items), fname, folder, executable)
    {
      Remove(fname);
      var parentPath, basename := SplitPath(fname).0, SplitPath(fname).1;
      var parent := FindPath(parentPath);
      if parent.Some? {
        if IsContainer(items, parent.value) {
          var list := Below(items, parent.value);
          var p := PlaceFor(list, folder, basename);
          items := PutBelow(items, parent.value, InsertAt(list, p, Item(basename, folder, executable, [])));
        }
      }
    }

    /** One message, or one folder opened or closed: the tree becomes the one the event calls for, and
        stays in order unless the event creates a path that names nothing. */
    method Handle(event: Event)
      modifies this
      ensures items == OnEvent(old(items), event)
      ensures Ordered(old(items)) ==> (Ordered(items) <==> !(event.Create? && Comps(event.fname) == []))
    {
      if Ordered(items) {
        EventKeepsOrder(items, event);
      }
      var fname := RStrip(event.fname);
      match event
      case Create(_, folder, executable) =>
        Add(fname, folder, executable);
      case Delete(_) =>
        Remove(fname);
      case Update(_, executable) =>
        var elem := FindPath(fname);
        if elem.Some? {
          items := Mark(items, elem.value, executable);
        }
      case Toggle(_) =>
        var elem := FindPath(fname);
        if elem.Some? {
          items := Clear(items, elem.value);
        }
    }
  }
}
