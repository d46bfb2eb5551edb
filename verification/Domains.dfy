/** Domain reconciliation: the edit_site_names task makes a site own the domains that were asked
    for, the balancer is sent the active ones, and certbot is told to forget all others. */
module Domains {

  import opened Options

  datatype Status = Active | Inactive | Deleted | Blocked

  datatype Row = Row(site: Option<nat>, domain: string, status: Status)

  /** The Domain rows by id. */
  type Rows = map<nat, Row>

  ghost predicate UniqueNames(rows: Rows) {
    forall i, j :: i in rows && j in rows && rows[i].domain == rows[j].domain ==> i == j
  }

  /** Only deleted or blocked domains are without a site, and blocked ones always are. */
  predicate RowOk(r: Row) {
    && (r.site.None? ==> r.status.Deleted? || r.status.Blocked?)
    && (r.status.Blocked? ==> r.site.None?)
  }

  ghost predicate TableOk(rows: Rows, next: nat) {
    && UniqueNames(rows)
    && (forall i :: i in rows ==> i < next && RowOk(rows[i]))
  }

  ghost predicate Known(rows: Rows, name: string) {
    exists i :: i in rows && rows[i].domain == name
  }

  // ---- the loop body and the loop ----

  /** Whether the loop leaves a row alone. */
  predicate Unavailable(r: Row, site: nat) {
    r.status.Blocked? || (r.site.Some? && r.site != Some(site))
  }

  /** A row once the site has asked for the given names. */
  function Taken(r: Row, site: nat, names: seq<string>): Row {
    if r.domain in names && !Unavailable(r, site) then Row(Some(site), r.domain, Active) else r
  }

  /** One iteration: the row with that name, if there is one, is claimed unless unavailable. */
  ghost function ClaimOne(rows: Rows, next: nat, site: nat, name: string): (Rows, nat) {
    if Known(rows, name) then
      (map i | i in rows :: Taken(rows[i], site, [name]), next)
    else (rows[next := Row(Some(site), name, Active)], next + 1)
  }

  ghost function Claim(rows: Rows, next: nat, site: nat, names: seq<string>): (Rows, nat) {
    if names == [] then (rows, next)
    else
      var (rows', next') := Claim(rows, next, site, names[..|names| - 1]);
      ClaimOne(rows', next', site, names[|names| - 1])
  }

  /** site.domain_set.exclude(domain__in=names).update(site=None, status="deleted") */
  function DropOthers(rows: Rows, site: nat, names: seq<string>): Rows {
    map i | i in rows ::
      if rows[i].site == Some(site) && rows[i].domain !in names then rows[i].(site := None, status := Deleted)
      else rows[i]
  }

  ghost function Reconcile(rows: Rows, next: nat, site: nat, names: seq<string>): (Rows, nat) {
    var (rows', next') := Claim(rows, next, site, names);
    (DropOthers(rows', site, names), next')
  }

  // ---- what the loop does to each row ----

  /** What the claims amount to: every row keeps its name; an available row with a requested name
      is the site's and active, any other is as before; and the new rows are exactly the requested
      names that were unknown, one row each. */
  ghost predicate Claimed(rows: Rows, rows': Rows, next: nat, next': nat, site: nat, names: seq<string>) {
    && (forall i :: i in rows ==> i in rows' && rows'[i] == Taken(rows[i], site, names))
    && (forall i :: i in rows' && i !in rows ==> NewRow(rows, rows'[i], site, names) && next <= i)
    && (forall n :: n in names ==> Known(rows', n))
  }

  ghost predicate NewRow(rows: Rows, r: Row, site: nat, names: seq<string>) {
    r == Row(Some(site), r.domain, Active) && r.domain in names && !Known(rows, r.domain)
  }

  lemma TakenTwice(r: Row, site: nat, names: seq<string>, name: string)
    ensures Taken(Taken(r, site, names), site, [name]) == Taken(r, site, names + [name])
  {
  }

  lemma ClaimOneOk(rows: Rows, next: nat, site: nat, name: string)
    requires TableOk(rows, next)
    ensures var (rows', next') := ClaimOne(rows, next, site, name); TableOk(rows', next') && next <= next'
    ensures forall n :: Known(ClaimOne(rows, next, site, name).0, n) <==> Known(rows, n) || n == name
  {
    var (rows', next') := ClaimOne(rows, next, site, name);
    assert forall i :: i in rows ==> i in rows' && rows'[i].domain == rows[i].domain;
    if !Known(rows, name) {
      assert next in rows' && rows'[next].domain == name;
      assert forall i :: i in rows' <==> i in rows || i == next;
    }
    forall n ensures Known(rows', n) <==> Known(rows, n) || n == name {
      if Known(rows, n) {
        var k :| k in rows && rows[k].domain == n;
        assert k in rows' && rows'[k].domain == n;
      }
    }
  }

  lemma NamesKept(rows: Rows, rows': Rows, next: nat, next': nat, site: nat, names: seq<string>)
    requires Claimed(rows, rows', next, next', site, names)
    ensures forall n :: Known(rows, n) ==> Known(rows', n)
  {
    forall n | Known(rows, n) ensures Known(rows', n) {
      var k :| k in rows && rows[k].domain == n;
      assert k in rows' && rows'[k].domain == n;
    }
  }

  lemma ClaimKnown(rows: Rows, rows': Rows, next: nat, next': nat, site: nat, names: seq<string>, name: string)
    requires Claimed(rows, rows', next, next', site, names) && Known(rows', name)
    ensures
      var (rows'', next'') := ClaimOne(rows', next', site, name);
      && (forall i :: i in rows ==> i in rows'' && rows''[i] == Taken(rows[i], site, names + [name]))
      && (forall i :: i in rows'' && i !in rows ==> NewRow(rows, rows''[i], site, names + [name]) && next <= i)
  {
    var rows'' := ClaimOne(rows', next', site, name).0;
    forall i | i in rows ensures i in rows'' && rows''[i] == Taken(rows[i], site, names + [name]) {
      TakenTwice(rows[i], site, names, name);
    }
    forall i | i in rows'' && i !in rows ensures NewRow(rows, rows''[i], site, names + [name]) && next <= i {
      assert NewRow(rows, rows'[i], site, names);
    }
  }

  lemma ClaimNew(rows: Rows, rows': Rows, next: nat, next': nat, site: nat, names: seq<string>, name: string)
    requires Claimed(rows, rows', next, next', site, names) && !Known(rows', name) && !Known(rows, name)
    requires next <= next' && next' !in rows'
    ensures
      var (rows'', next'') := ClaimOne(rows', next', site, name);
      && (forall i :: i in rows ==> i in rows'' && rows''[i] == Taken(rows[i], site, names + [name]))
      && (forall i :: i in rows'' && i !in rows ==> NewRow(rows, rows''[i], site, names + [name]) && next <= i)
  {
    var rows'' := ClaimOne(rows', next', site, name).0;
    assert rows'' == rows'[next' := Row(Some(site), name, Active)];
    forall i | i in rows ensures i in rows'' && rows''[i] == Taken(rows[i], site, names + [name]) {
      assert i in rows' && rows'[i] == Taken(rows[i], site, names);
      assert rows[i].domain != name;
    }
    forall i | i in rows'' && i !in rows ensures NewRow(rows, rows''[i], site, names + [name]) && next <= i {
      assert i != next' ==> NewRow(rows, rows'[i], site, names);
    }
  }

  lemma ClaimOneMore(rows: Rows, rows': Rows, next: nat, next': nat, site: nat, names: seq<string>, name: string)
    requires TableOk(rows', next') && next <= next'
    requires Claimed(rows, rows', next, next', site, names)
    ensures
      var (rows'', next'') := ClaimOne(rows', next', site, name);
      TableOk(rows'', next'') && next <= next'' && Claimed(rows, rows'', next, next'', site, names + [name])
  {
    ClaimOneOk(rows', next', site, name);
    NamesKept(rows, rows', next, next', site, names);
    if Known(rows', name) {
      ClaimKnown(rows, rows', next, next', site, names, name);
    } else {
      ClaimNew(rows, rows', next, next', site, names, name);
    }
  }

  lemma {:induction false} ClaimIs(rows: Rows, next: nat, site: nat, names: seq<string>)
    requires TableOk(rows, next)
    ensures
      var (rows', next') := Claim(rows, next, site, names);
      TableOk(rows', next') && next <= next' && Claimed(rows, rows', next, next', site, names)
  {
    if names != [] {
      var init := names[..|names| - 1];
      ClaimIs(rows, next, site, init);
      var (rows', next') := Claim(rows, next, site, init);
      ClaimOneMore(rows, rows', next, next', site, init, names[|names| - 1]);
      assert names == init + [names[|names| - 1]];
    }
  }

  // ---- reconciliation ----

  predicate AnothersRow(r: Row, site: nat) {
    r.site.Some? && r.site.value != site
  }

  /** A requested name the task ignores: it is blocked, or another site has it. */
  ghost predicate Ignored(rows: Rows, site: nat, name: string) {
    exists i :: i in rows && rows[i].domain == name && (rows[i].status.Blocked? || AnothersRow(rows[i], site))
  }

  /** After the task the site owns exactly the requested names that are neither blocked nor another
      site's, all of them active; the domains it dropped are ownerless and deleted; every other
      row is untouched; and the table's invariants hold again. */
  lemma ReconcileIs(rows: Rows, next: nat, site: nat, names: seq<string>)
    requires TableOk(rows, next)
    ensures
      var (rows', next') := Reconcile(rows, next, site, names);
      && TableOk(rows', next')
      && (forall name :: Owns(rows', site, name) <==> name in names && !Ignored(rows, site, name))
      && (forall i :: i in rows' && rows'[i].site == Some(site) ==> rows'[i].status.Active?)
      && (forall i :: i in rows && rows[i].site == Some(site) && rows[i].domain !in names ==>
            i in rows' && rows'[i] == Row(None, rows[i].domain, Deleted))
      && (forall i :: i in rows && (rows[i].status.Blocked? || AnothersRow(rows[i], site)) ==>
            i in rows' && rows'[i] == rows[i])
      && (forall i :: i in rows && rows[i].site != Some(site) && rows[i].domain !in names ==>
            i in rows' && rows'[i] == rows[i])
      && (forall i :: i in rows ==> i in rows' && rows'[i].domain == rows[i].domain)
      && (forall name :: Known(rows', name) <==> Known(rows, name) || name in names)
  {
    ClaimIs(rows, next, site, names);
    var (mid, next') := Claim(rows, next, site, names);
    DropOthersOk(mid, next', site, names);
    RowsAfterwards(rows, mid, next, next', site, names);
    forall name
      ensures Owns(DropOthers(mid, site, names), site, name) <==> name in names && !Ignored(rows, site, name)
      ensures Known(DropOthers(mid, site, names), name) <==> Known(rows, name) || name in names
    {
      NameAfterwards(rows, mid, next, next', site, names, name);
    }
  }

  ghost predicate Owns(rows: Rows, site: nat, name: string) {
    exists i :: i in rows && rows[i].domain == name && rows[i].site == Some(site)
  }

  lemma DropOthersOk(rows: Rows, next: nat, site: nat, names: seq<string>)
    requires TableOk(rows, next)
    ensures TableOk(DropOthers(rows, site, names), next)
  {
    var rows' := DropOthers(rows, site, names);
    assert forall i :: i in rows' ==> i in rows && rows'[i].domain == rows[i].domain;
  }

  lemma RowsAfterwards(rows: Rows, mid: Rows, next: nat, next': nat, site: nat, names: seq<string>)
    requires TableOk(rows, next) && Claimed(rows, mid, next, next', site, names)
    ensures
      var rows' := DropOthers(mid, site, names);
      && (forall i :: i in rows' && rows'[i].site == Some(site) ==> rows'[i].status.Active?)
      && (forall i :: i in rows && rows[i].site == Some(site) && rows[i].domain !in names ==>
            i in rows' && rows'[i] == Row(None, rows[i].domain, Deleted))
      && (forall i :: i in rows && (rows[i].status.Blocked? || AnothersRow(rows[i], site)) ==>
            i in rows' && rows'[i] == rows[i])
      && (forall i :: i in rows && rows[i].site != Some(site) && rows[i].domain !in names ==>
            i in rows' && rows'[i] == rows[i])
      && (forall i :: i in rows ==> i in rows' && rows'[i].domain == rows[i].domain)
  {
    var rows' := DropOthers(mid, site, names);
    forall i | i in rows' && rows'[i].site == Some(site) ensures rows'[i].status.Active? {
      if i in rows {
        assert mid[i] == Taken(rows[i], site, names) && RowOk(rows[i]);
      } else {
        assert NewRow(rows, mid[i], site, names);
      }
    }
  }

  lemma OfName(rows: Rows, i: nat, site: nat)
    requires UniqueNames(rows) && i in rows
    ensures Owns(rows, site, rows[i].domain) <==> rows[i].site == Some(site)
    ensures Ignored(rows, site, rows[i].domain) <==> Unavailable(rows[i], site)
    ensures Known(rows, rows[i].domain)
  {
  }

  /** A row that was there before, or came in by a claim. */
  lemma RowAfterwards(rows: Rows, mid: Rows, next: nat, next': nat, site: nat, names: seq<string>, i: nat)
    requires TableOk(rows, next) && TableOk(mid, next') && i in mid
    requires Claimed(rows, mid, next, next', site, names)
    ensures
      var rows' := DropOthers(mid, site, names);
      && i in rows' && rows'[i].domain == mid[i].domain
      && (rows'[i].site == Some(site) <==> mid[i].domain in names && !Ignored(rows, site, mid[i].domain))
  {
    if i in rows {
      assert mid[i] == Taken(rows[i], site, names);
      OfName(rows, i, site);
    } else {
      assert NewRow(rows, mid[i], site, names);
    }
  }

  lemma NameAfterwards(rows: Rows, mid: Rows, next: nat, next': nat, site: nat, names: seq<string>, name: string)
    requires TableOk(rows, next) && TableOk(mid, next')
    requires Claimed(rows, mid, next, next', site, names)
    ensures
      var rows' := DropOthers(mid, site, names);
      && (Owns(rows', site, name) <==> name in names && !Ignored(rows, site, name))
      && (Known(rows', name) <==> Known(rows, name) || name in names)
  {
    var rows' := DropOthers(mid, site, names);
    NamesKept(rows, mid, next, next', site, names);
    if Known(mid, name) {
      var i :| i in mid && mid[i].domain == name;
      DropOthersOk(mid, next', site, names);
      RowAfterwards(rows, mid, next, next', site, names, i);
      OfName(rows', i, site);
      KnownBefore(rows, mid, next, next', site, names, i);
    } else {
      assert forall i :: i in rows' ==> i in mid && rows'[i].domain == mid[i].domain;
    }
  }

  lemma KnownBefore(rows: Rows, mid: Rows, next: nat, next': nat, site: nat, names: seq<string>, i: nat)
    requires Claimed(rows, mid, next, next', site, names) && i in mid
    ensures Known(rows, mid[i].domain) || mid[i].domain in names
  {
    if i in rows {
      assert rows[i].domain == mid[i].domain;
    } else {
      assert NewRow(rows, mid[i], site, names);
    }
  }

  // ---- the views' check before a task is queued ----

  /** edit_names_view refuses when a requested name is in a row that is neither this site's nor
      deleted. */
  ghost predicate AlreadyInUse(rows: Rows, site: nat, names: seq<string>) {
    exists i :: i in rows && rows[i].domain in names && rows[i].site != Some(site) && !rows[i].status.Deleted?
  }

  ghost predicate DeletedAreOwnerless(rows: Rows) {
    forall i :: i in rows && rows[i].status.Deleted? ==> rows[i].site.None?
  }

  /** Reconciliation only ever deletes by dropping, and what it claims is active. */
  lemma DeletedStayOwnerless(rows: Rows, next: nat, site: nat, names: seq<string>)
    requires TableOk(rows, next) && DeletedAreOwnerless(rows)
    ensures DeletedAreOwnerless(Reconcile(rows, next, site, names).0)
  {
    ClaimIs(rows, next, site, names);
    var mid := Claim(rows, next, site, names).0;
    assert forall i :: i in mid && i !in rows ==> NewRow(rows, mid[i], site, names);
  }

  /** The name's row is deleted but still another site's, which the check overlooks. */
  ghost predicate Overlooked(rows: Rows, site: nat, name: string) {
    exists i :: i in rows && rows[i].domain == name && rows[i].status.Deleted? && rows[i].site.Some? && rows[i].site != Some(site)
  }

  /** The check passes on the table the task works on exactly when every name that the task will ignore
      is one it overlooks.  There is none of these while deleted rows have no site; then the check
      passes exactly when the task ignores no name, and the site ends up with what was asked for. */
  lemma CheckIsExact(rows: Rows, next: nat, site: nat, names: seq<string>)
    requires TableOk(rows, next)
    ensures
      !AlreadyInUse(rows, site, names) <==>
      forall name :: name in names && Ignored(rows, site, name) ==> Overlooked(rows, site, name)
    ensures DeletedAreOwnerless(rows) ==> forall name :: !Overlooked(rows, site, name)
    ensures DeletedAreOwnerless(rows) && !AlreadyInUse(rows, site, names) ==>
      var (rows', _) := Reconcile(rows, next, site, names);
      forall name :: Owns(rows', site, name) <==> name in names
  {
    ReconcileIs(rows, next, site, names);
    if AlreadyInUse(rows, site, names) {
      var i :| i in rows && rows[i].domain in names && rows[i].site != Some(site) && !rows[i].status.Deleted?;
      assert Unavailable(rows[i], site);
      assert Ignored(rows, site, rows[i].domain);
      OnlyRow(rows, i, site);
    }
  }

  lemma OnlyRow(rows: Rows, i: nat, site: nat)
    requires UniqueNames(rows) && i in rows && !rows[i].status.Deleted?
    ensures !Overlooked(rows, site, rows[i].domain)
  {
  }

  // ---- who is told about a domain ----

  /** serialize_for_balancer(): the site's active domains. */
  ghost predicate OnBalancerList(rows: Rows, site: nat, name: string) {
    exists i :: i in rows && rows[i].domain == name && rows[i].site == Some(site) && rows[i].status.Active?
  }

  /** update_balancer_certbot(): the domains that are not active. */
  ghost predicate OnRemovalList(rows: Rows, name: string) {
    exists i :: i in rows && rows[i].domain == name && !rows[i].status.Active?
  }

  datatype Request = Request(site: nat, names: seq<string>)

  ghost function History(rows: Rows, next: nat, requests: seq<Request>): (Rows, nat) {
    if requests == [] then (rows, next)
    else
      var (rows', next') := History(rows, next, requests[..|requests| - 1]);
      var r := requests[|requests| - 1];
      Reconcile(rows', next', r.site, r.names)
  }

  lemma {:induction false} HistoryOk(rows: Rows, next: nat, requests: seq<Request>)
    requires TableOk(rows, next)
    ensures var (rows', next') := History(rows, next, requests); TableOk(rows', next')
  {
    if requests != [] {
      HistoryOk(rows, next, requests[..|requests| - 1]);
      var (rows', next') := History(rows, next, requests[..|requests| - 1]);
      var r := requests[|requests| - 1];
      ReconcileIs(rows', next', r.site, r.names);
    }
  }

  /** After any sequence of reconciliations by any sites, every known domain is on exactly one list:
      one site's balancer list, or the removal list. */
  lemma DomainPartition(rows: Rows, next: nat, requests: seq<Request>, name: string)
    requires TableOk(rows, next)
    requires Known(History(rows, next, requests).0, name)
    ensures
      var rows' := History(rows, next, requests).0;
      && (OnRemovalList(rows', name) <==> !exists site :: OnBalancerList(rows', site, name))
      && (forall site, other :: OnBalancerList(rows', site, name) && OnBalancerList(rows', other, name) ==> site == other)
  {
    HistoryOk(rows, next, requests);
    var rows' := History(rows, next, requests).0;
    var i :| i in rows' && rows'[i].domain == name;
    assert RowOk(rows'[i]);
    if rows'[i].status.Active? {
      assert OnBalancerList(rows', rows'[i].site.value, name);
    }
  }

  // ---- two tasks at once ----

  /** What Domain.objects.get() brings back: no row, or a copy of one. */
  datatype Fetched = Absent | Present(id: nat, row: Row)

  ghost predicate Fetches(rows: Rows, name: string, f: Fetched) {
    match f
    case Absent => !Known(rows, name)
    case Present(id, r) => id in rows && rows[id] == r && r.domain == name
  }

  /** The rest of the iteration, which decides by the fetched copy. */
  function ClaimWith(rows: Rows, next: nat, site: nat, name: string, f: Fetched): (Rows, nat) {
    match f
    case Absent => (rows[next := Row(Some(site), name, Active)], next + 1)
    case Present(id, r) => (if Unavailable(r, site) then rows else rows[id := Row(Some(site), name, Active)], next)
  }

  /** With nothing in between, fetching and deciding is the whole iteration. */
  lemma FetchThenClaim(rows: Rows, next: nat, site: nat, name: string, f: Fetched)
    requires TableOk(rows, next) && Fetches(rows, name, f)
    ensures ClaimWith(rows, next, site, name, f) == ClaimOne(rows, next, site, name)
  {
    if f.Present? {
      assert Known(rows, name);
      var after, claimed := ClaimWith(rows, next, site, name, f).0, ClaimOne(rows, next, site, name).0;
      assert forall i :: i in rows && i != f.id ==> rows[i].domain != name;
      assert forall i :: i in after <==> i in claimed;
      assert forall i :: i in claimed ==> claimed[i] == after[i];
      assert after == claimed;
    }
  }

  /** The schema does not make names unique.  When two sites' tasks both fetch a name before either
      goes on, the table keeps unique names just if the name was known; a new name ends up on both
      sites' balancer lists. */
  lemma InterleavedClaims(rows: Rows, next: nat, site: nat, other: nat, name: string, f: Fetched)
    requires TableOk(rows, next) && Fetches(rows, name, f) && site != other
    ensures
      var (rows', next') := ClaimWith(rows, next, site, name, f);
      var (rows'', _) := ClaimWith(rows', next', other, name, f);
      && (UniqueNames(rows'') <==> Known(rows, name))
      && (!Known(rows, name) ==> OnBalancerList(rows'', site, name) && OnBalancerList(rows'', other, name))
  {
    var (rows', next') := ClaimWith(rows, next, site, name, f);
    var (rows'', _) := ClaimWith(rows', next', other, name, f);
    if f.Absent? {
      assert next in rows'' && next' in rows'';
      assert rows''[next].domain == rows''[next'].domain;
    } else {
      assert Known(rows, name);
      assert forall i :: i in rows'' <==> i in rows;
      assert forall i :: i in rows ==> rows''[i].domain == rows[i].domain;
    }
  }

  class DomainTable {
    var rows: Rows
    var next: nat

    constructor (rows: Rows, next: nat)
      ensures this.rows == rows && this.next == next
    {
      this.rows, this.next := rows, next;
    }

    /** Domain.objects.get(domain=name), over a table with unique names. */
    method Get(name: string) returns (id: Option<nat>)
      requires TableOk(rows, next)
      ensures id.Some? ==> id.value in rows && rows[id.value].domain == name
      ensures id.None? ==> !Known(rows, name)
    {
      for i := 0 to next
        invariant forall j :: 0 <= j < i && j in rows ==> rows[j].domain != name
      {
        if i in rows && rows[i].domain == name {
          return Some(i);
        }
      }
      id := None;
    }

    /** One requested name. */
    method ClaimDomain(site: nat, name: string)
      requires TableOk(rows, next)
      modifies this
      ensures (rows, next) == old(ClaimOne(rows, next, site, name))
    {
      var id := Get(name);
      if id.Some? {
        var r := rows[id.value];
        ghost var claimed := ClaimOne(rows, next, site, name).0;
        assert Known(rows, name);
        if !r.status.Blocked? && !(r.site.Some? && r.site.value != site) {
          rows := rows[id.value := Row(Some(site), name, Active)];
        }
        assert forall i :: i in claimed <==> i in rows;
        assert forall i :: i in claimed ==> claimed[i] == rows[i];
        assert claimed == rows;
      } else {
        rows := rows[next := Row(Some(site), name, Active)];
        next := next + 1;
      }
    }

    /** change_site_domains() */
    method ChangeSiteDomains(site: nat, names: seq<string>)
      requires TableOk(rows, next)
      modifies this
      ensures (rows, next) == old(Reconcile(rows, next, site, names))
      ensures TableOk(rows, next)
    {
      for k := 0 to |names|
        invariant (rows, next) == old(Claim(rows, next, site, names[..k]))
        invariant TableOk(rows, next)
      {
        ClaimOneOk(rows, next, site, names[k]);
        assert names[..k + 1][..k] == names[..k];
        ClaimDomain(site, names[k]);
      }
      assert names[..|names|] == names;
      DropOthersOk(rows, next, site, names);
      rows := DropOthers(rows, site, names);
    }
  }
}
