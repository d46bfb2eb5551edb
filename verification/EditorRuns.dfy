/** The editor's file tree over whole runs of events: always in order, the same for every order of
    arrival that shows the same items, and not disturbed by repeated events. */
module EditorRuns {
  import opened Options
  import opened Paths
  import opened EditorTree
  import opened EditorTheorems

  // ---- one event ----

  /** What the tree is to show at a path after an event, given what it showed before. */
  function Expected(items: seq<Item>, event: Event, q: seq<string>): Option<Shown>
    requires Comps(event.fname) != [] && q != []
  {
    var parts := Comps(event.fname);
    match event
    case Create(fname, folder, executable) =>
      if q == parts && HasParent(items, parts) && Adds(fname) then Some(Shown(folder, executable))
      else if parts <= q then None
      else Show(items, q)
    case Delete(_) => if parts <= q then None else Show(items, q)
    case Update(_, executable) => if q == parts then Remark(Show(items, q), executable) else Show(items, q)
    case Toggle(_) => if parts < q then None else Show(items, q)
  }

  /** An event changes what is shown at its own path and below it, as its kind says, and nothing
      else. */
  lemma EventEffect(items: seq<Item>, event: Event, q: seq<string>)
    requires Ordered(items) && Comps(event.fname) != [] && q != []
    ensures Ordered(OnEvent(items, event))
    ensures Show(OnEvent(items, event), q) == Expected(items, event, q)
  {
    var parts := Comps(event.fname);
    CompsRStrip(event.fname);
    FollowIsShow(items, parts);
    match event
    case Create(fname, folder, executable) =>
      CreateShows(items, fname, folder, executable, q);
    case Delete(_) =>
      RemoveShows(items, parts, q);
    case Update(_, executable) =>
      if Follow(items, parts).Some? {
        MarkShows(items, parts, executable, q);
        MarkOrdered(items, Follow(items, parts).value, executable);
      }
    case Toggle(_) =>
      if Follow(items, parts).Some? {
        ClearShows(items, parts, q);
        ClearOrdered(items, Follow(items, parts).value);
      } else if parts < q {
        ShowMissing(items, parts, q);
      }
  }

  lemma SplitOfNothing(fname: string)
    requires Comps(fname) == []
    ensures Comps(RStrip(fname)) == [] && Comps(SplitPath(RStrip(fname)).0) == []
    ensures !GoodName(SplitPath(RStrip(fname)).1)
  {
    CompsRStrip(fname);
    CompsOfNothing();
    if RStrip(fname) != "" {
      SplitPathComps(RStrip(fname));
    }
  }

  /** An event on a path that names nothing: only a creation does anything to the tree. */
  lemma EventOnRoot(items: seq<Item>, event: Event)
    requires Comps(event.fname) == []
    ensures !event.Create? ==> OnEvent(items, event) == items
    ensures event.Create? ==> OnEvent(items, event) == InsertItem(items, Brought(event))
    ensures event.Create? ==> !OrderedItem(Brought(event))
  {
    SplitOfNothing(event.fname);
    assert Follow(items, []) == Some([]);
    assert IsContainer(items, []);
  }

  /** The item that a creation brings in. */
  function Brought(event: Event): Item
    requires event.Create?
  {
    Item(SplitPath(RStrip(event.fname)).1, event.folder, event.executable, [])
  }

  /** The tree stays strictly sorted and free of duplicate and unusable names under every event,
      except exactly the creation of a path without components, such as ".". */
  lemma EventKeepsOrder(items: seq<Item>, event: Event)
    requires Ordered(items)
    ensures Ordered(OnEvent(items, event)) <==> !(event.Create? && Comps(event.fname) == [])
  {
    if Comps(event.fname) != [] {
      EventEffect(items, event, Comps(event.fname));
    } else {
      EventOnRoot(items, event);
      if event.Create? {
        var x := Brought(event);
        assert InsertItem(items, x)[Place(items, x.folder, x.name)] == x;
      }
    }
  }

  // ---- whole runs ----

  predicate NoEmptyCreation(events: seq<Event>) {
    forall i :: 0 <= i < |events| ==> events[i].Create? ==> Comps(events[i].fname) != []
  }

  lemma {:induction false} RunOrdered(events: seq<Event>)
    requires NoEmptyCreation(events)
    ensures Ordered(AfterEvents(events))
  {
    if events != [] {
      RunOrdered(events[..|events| - 1]);
      EventKeepsOrder(AfterEvents(events[..|events| - 1]), Last(events));
    }
  }

  lemma RunStep(events: seq<Event>, i: nat)
    requires i < |events|
    ensures AfterEvents(events[..i + 1]) == OnEvent(AfterEvents(events[..i]), events[i])
  {
    assert events[..i + 1][..i] == events[..i];
  }

  lemma RunBreaks(events: seq<Event>, i: nat)
    requires i < |events| && events[i].Create? && Comps(events[i].fname) == []
    ensures !Ordered(AfterEvents(events[..i])) || !Ordered(AfterEvents(events[..i + 1]))
  {
    var before := AfterEvents(events[..i]);
    RunStep(events, i);
    if Ordered(before) {
      EventKeepsOrder(before, events[i]);
    }
  }

  /** Over a whole run the tree is in order after every event just if no creation has a path without
      components. */
  lemma RunAlwaysOrdered(events: seq<Event>)
    ensures (forall k :: 0 <= k <= |events| ==> Ordered(AfterEvents(events[..k]))) <==> NoEmptyCreation(events)
  {
    if NoEmptyCreation(events) {
      forall k | 0 <= k <= |events|
        ensures Ordered(AfterEvents(events[..k]))
      {
        RunOrdered(events[..k]);
      }
    } else {
      var i :| 0 <= i < |events| && events[i].Create? && Comps(events[i].fname) == [];
      RunBreaks(events, i);
    }
  }

  /** In every children list of every tree that such a run reaches, folders come before files, and
      within either kind the names come in the order of their characters. */
  lemma RunFoldersFirst(events: seq<Event>, c: Element, i: nat, j: nat)
    requires NoEmptyCreation(events) && IsElement(AfterEvents(events), c)
    requires i < j < |Below(AfterEvents(events), c)|
    ensures
      var list := Below(AfterEvents(events), c);
      && (list[j].folder ==> list[i].folder)
      && (list[i].folder == list[j].folder ==> ComesBefore(list[i].name, list[j].name))
  {
    RunOrdered(events);
    BelowOrdered(AfterEvents(events), c);
    FoldersFirst(Below(AfterEvents(events), c), i, j);
  }

  /** followPath() and getElemPath() are mutually inverse in every tree that a run can reach. */
  lemma LookupsInverse(events: seq<Event>, e: Element, path: string)
    requires NoEmptyCreation(events) && IsElement(AfterEvents(events), e)
    ensures
      var items := AfterEvents(events);
      && FollowPath(items, ElemPath(items, e)) == Some(e)
      && (FollowPath(items, path) == Some(e) <==> Comps(path) == Comps(ElemPath(items, e)))
      && (FollowPath(items, path) == Some(e) && Canonical(path) ==> ElemPath(items, e) == path)
  {
    RunOrdered(events);
    FollowElemInverse(AfterEvents(events), e, path);
  }

  lemma DotIsHere(event: Event)
    requires event.Create? && (event.fname == "." || event.fname == "./")
    ensures Comps(event.fname) == [] && Brought(event).name == "."
  {
    CompsOfNothing();
    assert RStrip(".") == ".";
    assert "./"[..1] == ".";
    assert RStrip("./") == ".";
    CompsRStrip("./");
    assert SplitPath(".").1 == ".";
  }

  lemma InsertTwice(x: Item, y: Item)
    requires x.name == y.name && x.folder == y.folder
    ensures InsertItem(InsertItem([], x), y) == [x, y]
  {
    BeforeTotal(x.name, y.name);
    assert InsertItem([], x) == [x];
    assert Place([x], y.folder, y.name) == 1;
  }

  lemma TwoEvents(first: Event, second: Event)
    ensures AfterEvents([first, second]) == OnEvent(OnEvent([], first), second)
  {
    assert [first, second][..1] == [first];
    assert [first][..0] == [];
    assert AfterEvents([]) == [];
  }

  /** Two creations of "." leave two items of the same name, and looking that name up finds neither
      but the root. */
  lemma DotTwice(first: Event, second: Event)
    requires first == Create(".", false, false) && second == Create("./", false, true)
    ensures
      var items := AfterEvents([first, second]);
      && |items| == 2 && items[0].name == items[1].name == "."
      && FollowPath(items, ".") == Some([])
  {
    TwoEvents(first, second);
    DotIsHere(first);
    DotIsHere(second);
    EventOnRoot([], first);
    EventOnRoot(OnEvent([], first), second);
    InsertTwice(Brought(first), Brought(second));
    CompsOfNothing();
  }

  // ---- the order of arrival ----

  ghost predicate SameShow(a: seq<Item>, b: seq<Item>) {
    forall q: seq<string> :: q != [] ==> Show(a, q) == Show(b, q)
  }

  /** The first item of one list is the first item of another that shows the same. */
  lemma SameFirst(a: seq<Item>, b: seq<Item>)
    requires Ordered(a) && Ordered(b) && SameShow(a, b) && a != []
    ensures b != [] && a[0].name == b[0].name
    ensures a[0].folder == b[0].folder && a[0].executable == b[0].executable
  {
    var x := a[0];
    assert Show(a, [x.name]) == Show(b, [x.name]);
    var j := IndexOf(b, x.name);
    var y := b[0];
    assert Show(a, [y.name]) == Show(b, [y.name]);
    var k := IndexOf(a, y.name);
    KeyOrder(a, b, j, k);
  }

  /** Two different items cannot each come first. */
  lemma KeyOrder(a: seq<Item>, b: seq<Item>, j: nat, k: nat)
    requires Sorted(a) && Sorted(b) && k < |a| && j < |b|
    requires a[0].name == b[j].name && a[0].folder == b[j].folder
    requires a[k].name == b[0].name && a[k].folder == b[0].folder
    ensures j == 0
  {
    BeforeTotal(b[0].name, b[j].name);
  }

  lemma TailOrdered(items: seq<Item>)
    requires Ordered(items) && items != []
    ensures Ordered(items[1..]) && OrderedItem(items[0])
    ensures IndexOf(items[1..], items[0].name) < 0
  {
    assert items[1..] == WithoutAt(items, 0);
    WithoutOrdered(items, 0);
    IndexOfWithout(items, 0, items[0].name);
  }

  lemma SameTails(a: seq<Item>, b: seq<Item>)
    requires Ordered(a) && Ordered(b) && SameShow(a, b) && a != [] && b != [] && a[0].name == b[0].name
    ensures SameShow(a[1..], b[1..])
  {
    assert a[1..] == WithoutAt(a, 0) && b[1..] == WithoutAt(b, 0);
    forall q: seq<string> | q != []
      ensures Show(a[1..], q) == Show(b[1..], q)
    {
      ShowWithout(a, 0, q);
      ShowWithout(b, 0, q);
    }
  }

  lemma SameChildren(a: seq<Item>, b: seq<Item>)
    requires Ordered(a) && Ordered(b) && SameShow(a, b) && a != [] && b != []
    requires a[0].name == b[0].name && a[0].folder == b[0].folder
    ensures SameShow(a[0].children, b[0].children)
  {
    assert OrderedItem(a[0]) && OrderedItem(b[0]);
    forall q: seq<string> | q != []
      ensures Show(a[0].children, q) == Show(b[0].children, q)
    {
      var below := [a[0].name] + q;
      assert below[1..] == q;
      assert Show(a, below) == Show(b, below);
    }
  }

  /** What a tree shows determines it: there is only one ordered tree for it. */
  lemma {:induction false} ShowDetermines(a: seq<Item>, b: seq<Item>)
    requires Ordered(a) && Ordered(b) && SameShow(a, b)
    ensures a == b
    decreases a
  {
    if a == [] {
      if b != [] {
        SameFirst(b, a);
      }
    } else {
      SameFirst(a, b);
      TailOrdered(a);
      TailOrdered(b);
      SameTails(a, b);
      ShowDetermines(a[1..], b[1..]);
      SameChildren(a, b);
      ShowDetermines(a[0].children, b[0].children);
      assert a == [a[0]] + a[1..] && b == [b[0]] + b[1..];
    }
  }

  /** An event does not take away or bring in the parent its own path needs. */
  lemma ParentKept(items: seq<Item>, event: Event)
    requires Ordered(items) && Comps(event.fname) != []
    ensures HasParent(OnEvent(items, event), Comps(event.fname)) <==> HasParent(items, Comps(event.fname))
  {
    if |Comps(event.fname)| > 1 {
      EventEffect(items, event, Up(Comps(event.fname)));
    }
  }

  lemma ExpectedTwice(items: seq<Item>, once: seq<Item>, event: Event, q: seq<string>)
    requires Comps(event.fname) != [] && q != [] && Show(once, q) == Expected(items, event, q)
    requires HasParent(once, Comps(event.fname)) <==> HasParent(items, Comps(event.fname))
    ensures Expected(once, event, q) == Show(once, q)
  {
  }

  /** An event that is delivered twice leaves the tree that one delivery leaves. */
  lemma DuplicateHarmless(items: seq<Item>, event: Event)
    requires Ordered(items) && Comps(event.fname) != []
    ensures OnEvent(OnEvent(items, event), event) == OnEvent(items, event)
  {
    var once := OnEvent(items, event);
    var twice := OnEvent(once, event);
    EventKeepsOrder(items, event);
    EventKeepsOrder(once, event);
    ParentKept(items, event);
    forall q: seq<string> | q != []
      ensures Show(twice, q) == Show(once, q)
    {
      EventEffect(items, event, q);
      EventEffect(once, event, q);
      ExpectedTwice(items, once, event, q);
    }
    ShowDetermines(twice, once);
  }

  /** Events on unrelated paths can arrive in either order. */
  lemma UnrelatedCommute(items: seq<Item>, e: Event, f: Event)
    requires Ordered(items) && Comps(e.fname) != [] && Comps(f.fname) != []
    requires !(Comps(e.fname) <= Comps(f.fname)) && !(Comps(f.fname) <= Comps(e.fname))
    ensures OnEvent(OnEvent(items, e), f) == OnEvent(OnEvent(items, f), e)
  {
    var ef, fe := OnEvent(OnEvent(items, e), f), OnEvent(OnEvent(items, f), e);
    BothOrdered(items, e, f);
    BothOrdered(items, f, e);
    forall q: seq<string> | q != []
      ensures Show(ef, q) == Show(fe, q)
    {
      CommuteShow(items, e, f, q);
    }
    ShowDetermines(ef, fe);
  }

  lemma BothOrdered(items: seq<Item>, e: Event, f: Event)
    requires Ordered(items) && Comps(e.fname) != [] && Comps(f.fname) != []
    ensures Ordered(OnEvent(OnEvent(items, e), f))
  {
    EventKeepsOrder(items, e);
    EventKeepsOrder(OnEvent(items, e), f);
  }

  lemma CommuteShow(items: seq<Item>, e: Event, f: Event, q: seq<string>)
    requires Ordered(items) && Comps(e.fname) != [] && Comps(f.fname) != [] && q != []
    requires !(Comps(e.fname) <= Comps(f.fname)) && !(Comps(f.fname) <= Comps(e.fname))
    ensures Show(OnEvent(OnEvent(items, e), f), q) == Show(OnEvent(OnEvent(items, f), e), q)
  {
    CommuteAt(items, e, f, q);
    CommuteAt(items, f, e, q);
    NotBoth(Comps(e.fname), Comps(f.fname), q);
    if !(Comps(e.fname) <= q) {
      Untouched(items, e, q);
    } else {
      EventEffect(items, e, q);
    }
    if !(Comps(f.fname) <= q) {
      Untouched(items, f, q);
    } else {
      EventEffect(items, f, q);
    }
  }

  lemma Untouched(items: seq<Item>, e: Event, q: seq<string>)
    requires Ordered(items) && Comps(e.fname) != [] && q != [] && !(Comps(e.fname) <= q)
    ensures Show(OnEvent(items, e), q) == Show(items, q)
  {
    EventEffect(items, e, q);
  }

  lemma SameExpected(a: seq<Item>, b: seq<Item>, f: Event, q: seq<string>)
    requires Comps(f.fname) != [] && q != [] && Show(a, q) == Show(b, q)
    requires |Comps(f.fname)| > 1 ==> Show(a, Up(Comps(f.fname))) == Show(b, Up(Comps(f.fname)))
    ensures Expected(a, f, q) == Expected(b, f, q)
  {
  }

  /** After an event, an unrelated event has the effect it would have had before. */
  lemma EffectUnmoved(items: seq<Item>, e: Event, f: Event, q: seq<string>)
    requires Ordered(items) && Comps(e.fname) != [] && Comps(f.fname) != [] && q != []
    requires !(Comps(e.fname) <= Comps(f.fname)) && !(Comps(e.fname) <= q)
    ensures Expected(OnEvent(items, e), f, q) == Expected(items, f, q)
  {
    Untouched(items, e, q);
    if |Comps(f.fname)| > 1 {
      Untouched(items, e, Up(Comps(f.fname)));
    }
    SameExpected(OnEvent(items, e), items, f, q);
  }

  lemma CommuteAt(items: seq<Item>, e: Event, f: Event, q: seq<string>)
    requires Ordered(items) && Comps(e.fname) != [] && Comps(f.fname) != [] && q != []
    requires !(Comps(e.fname) <= Comps(f.fname)) && !(Comps(f.fname) <= Comps(e.fname))
    ensures
      Show(OnEvent(OnEvent(items, e), f), q) ==
      if Comps(f.fname) <= q then Expected(items, f, q) else Show(OnEvent(items, e), q)
  {
    EventEffect(items, e, q);
    EventEffect(OnEvent(items, e), f, q);
    if Comps(f.fname) <= q {
      NotBoth(Comps(e.fname), Comps(f.fname), q);
      EffectUnmoved(items, e, f, q);
    }
  }

  lemma NotBoth(a: seq<string>, b: seq<string>, q: seq<string>)
    requires !(a <= b) && !(b <= a)
    ensures !(a <= q && b <= q)
  {
  }
}
