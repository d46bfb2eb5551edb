/** The two maps of monitor_cmd between watched directories and inotify descriptors, and the
    removal of a directory together with everything below it. */
module WatchTable {
  import opened Paths

  /** wds_by_fname and fnames_by_wd. */
  datatype Table = Table(wds: map<string, nat>, names: map<nat, string>)

  const EMPTY := Table(map[], map[])

  predicate Absolute(p: string) {
    p != "" && p[0] == '/'
  }

  function CommonPrefix(a: seq<string>, b: seq<string>): (c: seq<string>)
    ensures c <= a && c <= b
    ensures a <= b ==> c == a
  {
    if a == [] || b == [] || a[0] != b[0] then []
    else
      assert a == [a[0]] + a[1..] && b == [b[0]] + b[1..];
      assert a <= b ==> a[1..] <= b[1..];
      [a[0]] + CommonPrefix(a[1..], b[1..])
  }

  function Spell(absolute: bool, parts: seq<string>): string {
    (if absolute then "/" else "") + Join(parts, '/')
  }

  /** os.path.commonpath([p, q]), which raises ValueError on a mix of absolute and relative. */
  function CommonPath(p: string, q: string): string
    requires Absolute(p) == Absolute(q)
  {
    Spell(Absolute(p), CommonPrefix(Comps(p), Comps(q)))
  }

  /** The test by which remove_watch_and_subwatches() selects entries. */
  predicate Selects(fname: string, other: string)
    requires Absolute(fname) == Absolute(other)
  {
    CommonPath(fname, other) == fname
  }

  predicate Normal(p: string) {
    p == Spell(Absolute(p), Comps(p))
  }

  lemma CompsSpell(absolute: bool, parts: seq<string>)
    requires GoodNames(parts)
    ensures Comps(Spell(absolute, parts)) == parts
  {
    CompsJoin(parts);
    if absolute {
      CompsConcat("", Join(parts, '/'));
      CompsOfNothing();
      assert "" + "/" + Join(parts, '/') == Spell(true, parts);
      assert [] + parts == parts;
    } else {
      assert Spell(false, parts) == Join(parts, '/');
    }
  }

  /** What is selected is exactly what lies at or below the name, component by component; a name
      not in its normal spelling selects nothing at all. */
  lemma SelectsIff(fname: string, other: string)
    requires Absolute(fname) == Absolute(other)
    ensures Selects(fname, other) <==> Normal(fname) && Comps(fname) <= Comps(other)
  {
    var c := CommonPrefix(Comps(fname), Comps(other));
    assert GoodNames(c);
    CompsSpell(Absolute(fname), c);
    if Comps(fname) <= Comps(other) {
      assert c == Comps(fname);
    }
  }

  /** commonpath never raises while this name is compared with the table. */
  predicate Comparable(t: Table, fname: string) {
    forall wd :: wd in t.names ==> Absolute(t.names[wd]) == Absolute(fname)
  }

  /** The table after remove_watch_and_subwatches(fname). */
  ghost function Removed(t: Table, fname: string): Table
    requires Comparable(t, fname)
  {
    Table(
      map n | n in t.wds && !(exists wd :: wd in t.names && t.names[wd] == n && Selects(fname, n)) :: t.wds[n],
      map wd | wd in t.names && !Selects(fname, t.names[wd]) :: t.names[wd])
  }

  ghost predicate Hit(t: Table, fname: string, wd: nat) {
    wd in t.names && Absolute(t.names[wd]) == Absolute(fname) && Selects(fname, t.names[wd])
  }

  /** The loop of remove_watch_and_subwatches() after the given descriptors. */
  ghost function RemovedUpTo(t: Table, fname: string, items: seq<nat>): Table {
    if items == [] then t
    else
      var r, wd := RemovedUpTo(t, fname, items[..|items| - 1]), items[|items| - 1];
      if Hit(t, fname, wd) then Table(r.wds - {t.names[wd]}, r.names - {wd}) else r
  }

  /** No comparison of the loop has raised so far. */
  ghost predicate ComparableUpTo(t: Table, fname: string, items: seq<nat>) {
    items != [] ==>
      var wd := items[|items| - 1];
      && ComparableUpTo(t, fname, items[..|items| - 1])
      && wd in t.names && Absolute(t.names[wd]) == Absolute(fname)
  }

  lemma RemovedNext(t: Table, fname: string, items: seq<nat>, k: nat)
    requires k < |items| && items[k] in t.names
    ensures ComparableUpTo(t, fname, items[..k + 1]) <==>
              ComparableUpTo(t, fname, items[..k]) && Absolute(t.names[items[k]]) == Absolute(fname)
    ensures
      var r, wd := RemovedUpTo(t, fname, items[..k]), items[k];
      RemovedUpTo(t, fname, items[..k + 1]) ==
        if Hit(t, fname, wd) then Table(r.wds - {t.names[wd]}, r.names - {wd}) else r
  {
    assert items[..k + 1][..k] == items[..k];
  }

  lemma {:induction false} RemovedUpToIs(t: Table, fname: string, items: seq<nat>)
    ensures
      var r := RemovedUpTo(t, fname, items);
      && r.wds == (map n | n in t.wds && !(exists wd :: wd in items && Hit(t, fname, wd) && t.names[wd] == n) :: t.wds[n])
      && r.names == (map wd | wd in t.names && !(wd in items && Hit(t, fname, wd)) :: t.names[wd])
  {
    if items != [] {
      var init, wd := items[..|items| - 1], items[|items| - 1];
      RemovedUpToIs(t, fname, init);
      assert items == init + [wd];
    }
  }

  lemma {:induction false} AllComparable(t: Table, fname: string, items: seq<nat>)
    requires ComparableUpTo(t, fname, items)
    ensures forall wd :: wd in items ==> wd in t.names && Absolute(t.names[wd]) == Absolute(fname)
  {
    if items != [] {
      AllComparable(t, fname, items[..|items| - 1]);
      assert items == items[..|items| - 1] + [items[|items| - 1]];
    }
  }

  /** The loop over every live descriptor, in any order, removes what the name selects. */
  lemma RemovedAll(t: Table, fname: string, items: seq<nat>)
    requires ComparableUpTo(t, fname, items) && forall wd :: wd in items <==> wd in t.names
    ensures Comparable(t, fname) && RemovedUpTo(t, fname, items) == Removed(t, fname)
  {
    AllComparable(t, fname, items);
    RemovedUpToIs(t, fname, items);
  }

  function Added(t: Table, fname: string, wd: nat): Table {
    Table(t.wds[fname := wd], t.names[wd := fname])
  }

  /** Every live descriptor's name is a key. */
  ghost predicate NamesAreKeys(t: Table) {
    forall wd :: wd in t.names ==> t.names[wd] in t.wds
  }

  /** The two maps are inverse to each other. */
  ghost predicate Inverse(t: Table) {
    && (forall wd :: wd in t.names ==> t.names[wd] in t.wds && t.wds[t.names[wd]] == wd)
    && (forall n :: n in t.wds ==> t.wds[n] in t.names && t.names[t.wds[n]] == n)
  }

  /** The kernel answers a name it already watches with the same descriptor, and any other name
      with a descriptor not in use. */
  predicate OneDescriptorPerName(t: Table, fname: string, wd: nat) {
    if fname in t.wds then t.wds[fname] == wd else wd !in t.names
  }

  lemma AddKeeps(t: Table, fname: string, wd: nat)
    requires NamesAreKeys(t)
    ensures NamesAreKeys(Added(t, fname, wd))
    ensures Inverse(t) && OneDescriptorPerName(t, fname, wd) ==> Inverse(Added(t, fname, wd))
  {
  }

  lemma RemoveKeeps(t: Table, fname: string)
    requires NamesAreKeys(t) && Comparable(t, fname)
    ensures NamesAreKeys(Removed(t, fname))
    ensures Inverse(t) ==> Inverse(Removed(t, fname))
  {
    var r := Removed(t, fname);
    forall n | Inverse(t) && n in r.wds ensures r.wds[n] in r.names && r.names[r.wds[n]] == n {
      var wd := t.wds[n];
      assert wd in t.names && t.names[wd] == n;
    }
  }

  lemma SelectedWatch(t: Table, fname: string, n: string)
    requires Inverse(t) && Comparable(t, fname) && n in t.wds
    ensures Absolute(n) == Absolute(fname)
    ensures n in Removed(t, fname).wds <==> !Selects(fname, n)
  {
    var wd := t.wds[n];
    assert wd in t.names && t.names[wd] == n;
  }

  /** Removal deletes exactly the watches at or below the name, provided the name is in its normal
      spelling, and none otherwise: "a" does not touch "ab", "a/" touches nothing, and the empty name
      removes everything. */
  lemma RemovalIsSubtree(t: Table, fname: string)
    requires Inverse(t) && Comparable(t, fname)
    ensures forall n :: n in Removed(t, fname).wds <==> n in t.wds && !(Normal(fname) && Comps(fname) <= Comps(n))
    ensures forall n :: n in Removed(t, fname).wds ==> Removed(t, fname).wds[n] == t.wds[n]
    ensures fname == "" ==> Removed(t, fname) == EMPTY
  {
    var r := Removed(t, fname);
    forall n | n in t.wds ensures n in r.wds <==> !(Normal(fname) && Comps(fname) <= Comps(n)) {
      SelectedWatch(t, fname, n);
      SelectsIff(fname, n);
    }
    if fname == "" {
      CompsOfNothing();
      forall wd | wd in t.names ensures Selects(fname, t.names[wd]) {
        SelectsIff(fname, t.names[wd]);
      }
      assert r.wds.Keys == {};
      assert r.names.Keys == {};
    }
  }
}
