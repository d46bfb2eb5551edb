/** What becomes of a consumer: when it closes, when it is initialised, and that every backend it
    reaches catches up. */
module MonitorLiveness {
  import opened Seqs
  import opened MonitorConsumer

  // ---- closing ----

  /** Somebody closes, a send meets a lost connection, no backend was reached, or the last one is
      lost. */
  predicate Closes<T>(s: State<T>, e: Event<T>) {
    match e
    case Close => true
    case SendNext => s.handler.Sending? && s.handler.rest != [] && s.handler.rest[0] in s.dead
    case Finish => s.opener.Opening? && s.websocks == []
    case Prune(ws) => ws in s.dead && s.websocks == [ws]
    case _ => false
  }

  lemma PrunedLast(q: seq<nat>, x: nat)
    requires Distinct(q) && x in q
    ensures Without(q, x) == [] <==> q == [x]
  {
    var r := Without(q, x);
    if |q| > 1 {
      assert q[0] in q && q[1] in q && q[0] != q[1];
      assert (if q[0] == x then q[1] else q[0]) in r;
    }
    if r != [] {
      assert r[0] in r;
    }
  }

  /** In every interleaving a connected consumer closes at exactly these events. */
  lemma ClosesExactly<T>(events: seq<Event<T>>, e: Event<T>)
    requires After(events).connected
    ensures !Step(After(events), e).connected <==> Closes(After(events), e)
  {
    Reachable(events);
    var s := After(events);
    match e
    case Prune(ws) => if ws in s.websocks { PrunedLast(s.websocks, ws); }
    case _ =>
  }

  lemma AfterSnoc<T>(events: seq<Event<T>>, e: Event<T>)
    ensures After(events + [e]) == Step(After(events), e)
  {
    assert (events + [e])[..|events|] == events;
  }

  lemma OneMoreAfter<T>(events: seq<Event<T>>, more: seq<Event<T>>, e: Event<T>, longer: seq<Event<T>>)
    requires longer == more + [e]
    ensures After(events + longer) == Step(After(events + more), e)
  {
    assert events + longer == (events + more) + [e];
    AfterSnoc(events + more, e);
  }

  // ---- what the browser and the backends gain ----

  /** A message of the browser is heard while the handler is idle, and nothing else is. */
  lemma BrowserHeard<T>(events: seq<Event<T>>, e: Event<T>)
    ensures
      var s := After(events);
      Step(s, e).browser ==
      if e.Receive? && s.connected && s.handler.Idle? then s.browser + [e.data] else s.browser
  {
  }

  /** Until the consumer is initialised the queue holds every message, and from then on none. */
  lemma QueueIs<T>(events: seq<Event<T>>)
    requires After(events).connected
    ensures
      var s := After(events);
      s.pending == if s.initialized then [] else Iota(|s.browser|)
    ensures After(events).initialized <==> After(events).opener.Opened?
  {
    Reachable(events);
  }

  /** Once every appserver was tried and a backend is left, the consumer is initialised: it stays
      connected, keeps its backends and what they were sent, and its queue is empty. */
  lemma Initialises<T>(events: seq<Event<T>>, e: Event<T>)
    requires After(events).connected && After(events).opener.Opening? && e.Finish?
    ensures
      var s, s' := After(events), Step(After(events), e);
      s.websocks != [] ==>
        && s'.connected && s'.initialized && s'.pending == []
        && s'.websocks == s.websocks && s'.received == s.received && s'.dead == s.dead
        && s'.browser == s.browser && s'.handler == s.handler
  {
  }

  /** It stays initialised. */
  lemma StaysInitialised<T>(events: seq<Event<T>>, e: Event<T>)
    requires After(events).initialized
    ensures Step(After(events), e).initialized
  {
  }

  /** A backend is lost exactly when its connection drops, and stays lost. */
  lemma LostByDrop<T>(events: seq<Event<T>>, e: Event<T>, ws: nat)
    ensures
      ws in Step(After(events), e).dead <==>
      ws in After(events).dead || (e == Event.Drop(ws) && After(events).connected && ws in After(events).received)
  {
  }

  /** A lost backend leaves the list when its loss is noticed, and only then; none other leaves it. */
  lemma LeavesByPrune<T>(events: seq<Event<T>>, e: Event<T>, ws: nat)
    requires After(events).connected && ws in After(events).websocks
    ensures
      ws !in Step(After(events), e).websocks <==> e == Event.Prune(ws) && ws in After(events).dead
  {
  }

  /** A lost connection was in use. */
  lemma {:induction false} LostWereOpen<T>(events: seq<Event<T>>)
    ensures forall ws :: ws in After(events).dead ==> ws in After(events).received
  {
    if events != [] {
      LostWereOpen(events[..|events| - 1]);
    }
  }

  // ---- catching up ----

  /** A backend in use whose connection stands. */
  predicate Live<T>(s: State<T>, ws: nat) {
    s.connected && ws in s.received && ws !in s.dead
  }

  /** The message on its way to the backend has to get past a lost connection. */
  predicate Behind(rest: seq<nat>, dead: set<nat>, ws: nat) {
    exists i, j :: 0 <= i < j < |rest| && rest[i] in dead && rest[j] == ws
  }

  predicate Blocked<T>(s: State<T>, ws: nat) {
    s.handler.Sending? && Behind(s.handler.rest, s.dead, ws)
  }

  /** Sends and replay steps, the two things the consumer does of itself. */
  predicate Working<T>(more: seq<Event<T>>) {
    forall i :: 0 <= i < |more| ==> more[i].SendNext? || more[i].ReplayNext?
  }

  /** The browser, the backends and the message on its way are what they were. */
  ghost predicate SameBackends<T>(s: State<T>, s': State<T>) {
    && s'.connected == s.connected && s'.browser == s.browser && s'.handler == s.handler && s'.dead == s.dead
    && s'.websocks == s.websocks && s'.received.Keys == s.received.Keys && s'.initialized == s.initialized
  }

  lemma ReplayStep<T>(s: State<T>)
    requires s.connected && s.opener.Replaying? && s.opener.ws in s.received
    ensures
      var s' := Step(s, Event.ReplayNext);
      && SameBackends(s, s') && s'.pending == s.pending
      && (s'.opener.Opening? || (s.opener.next < |s.pending| && s'.opener == Replaying(s.opener.ws, s.opener.next + 1)))
  {
  }

  function StepsLeft<T>(s: State<T>): nat {
    if !s.opener.Replaying? then 0 else if s.opener.next < |s.pending| then |s.pending| - s.opener.next + 1 else 1
  }

  /** A replay comes to its end. */
  lemma {:induction false} ReplayEnds<T>(events: seq<Event<T>>, more: seq<Event<T>>) returns (longer: seq<Event<T>>)
    requires After(events + more).connected && Working(more)
    ensures Working(longer) && SameBackends(After(events + more), After(events + longer))
    ensures !After(events + longer).opener.Replaying?
    ensures !After(events + more).opener.Replaying? ==> After(events + longer).opener == After(events + more).opener
    ensures After(events + more).opener.Replaying? ==> After(events + longer).opener.Opening?
    decreases StepsLeft(After(events + more))
  {
    longer := more;
    if After(events + more).opener.Replaying? {
      Reachable(events + more);
      ReplayStep(After(events + more));
      longer := more + [Event.ReplayNext];
      OneMoreAfter(events, more, Event.ReplayNext, longer);
      longer := ReplayEnds(events, longer);
    }
  }

  /** From every connected state in which some backend is left, the consumer gets initialised by
      replaying and going on to the end of its list of appservers. */
  lemma GetsInitialised<T>(events: seq<Event<T>>) returns (more: seq<Event<T>>)
    requires After(events).connected && !After(events).initialized && After(events).websocks != []
    ensures Working(more)
    ensures
      var s, s' := After(events), After(events + (more + [Event.Finish]));
      && s'.connected && s'.initialized && s'.pending == []
      && s'.websocks == s.websocks && s'.browser == s.browser
  {
    QueueIs(events);
    assert events + [] == events;
    more := ReplayEnds(events, []);
    OneMoreAfter(events, more, Event.Finish, more + [Event.Finish]);
  }

  predicate Awaited<T>(s: State<T>, ws: nat) {
    s.handler.Sending? && ws in s.handler.rest
  }

  /** A lost connection comes first, or further on. */
  lemma BehindFirst(rest: seq<nat>, dead: set<nat>, ws: nat)
    requires rest != []
    ensures Behind(rest, dead, ws) <==> (rest[0] in dead && ws in rest[1..]) || Behind(rest[1..], dead, ws)
  {
    if Behind(rest, dead, ws) {
      var i, j :| 0 <= i < j < |rest| && rest[i] in dead && rest[j] == ws;
      assert rest[1..][j - 1] == ws;
      assert i > 0 ==> rest[1..][i - 1] in dead;
    }
    if rest[0] in dead && ws in rest[1..] {
      var j :| 0 <= j < |rest[1..]| && rest[1..][j] == ws;
      assert rest[j + 1] == ws;
    }
    if Behind(rest[1..], dead, ws) {
      var i, j :| 0 <= i < j < |rest[1..]| && rest[1..][i] in dead && rest[1..][j] == ws;
      assert rest[i + 1] in dead && rest[j + 1] == ws;
    }
  }

  lemma SendStep<T>(s: State<T>, ws: nat)
    requires Live(s, ws) && Awaited(s, ws) && !Blocked(s, ws)
    requires s.handler.rest[0] in s.received
    ensures
      var s' := Step(s, Event.SendNext);
      && Live(s', ws) && !Blocked(s', ws) && s'.opener == s.opener && s'.pending == s.pending
      && (Awaited(s', ws) ==> |s'.handler.rest| < |s.handler.rest|)
  {
    BehindFirst(s.handler.rest, s.dead, ws);
  }

  /** A message on its way to a live backend gets there if no lost connection comes first. */
  lemma {:induction false} SendEnds<T>(events: seq<Event<T>>, more: seq<Event<T>>, ws: nat) returns (longer: seq<Event<T>>)
    requires Live(After(events + more), ws) && !Blocked(After(events + more), ws) && Working(more)
    ensures
      var s, s' := After(events + more), After(events + longer);
      Working(longer) && Live(s', ws) && !Awaited(s', ws) && s'.opener == s.opener && s'.pending == s.pending
    decreases if Awaited(After(events + more), ws) then |After(events + more).handler.rest| else 0
  {
    var s := After(events + more);
    if Awaited(s, ws) {
      Reachable(events + more);
      assert s.handler.rest[0] in s.handler.rest;
      longer := more + [Event.SendNext];
      OneMoreAfter(events, more, Event.SendNext, longer);
      SendStep(s, ws);
      longer := SendEnds(events, longer, ws);
    } else {
      longer := more;
    }
  }

  /** A live backend can always be brought up to date by what the consumer does of itself, unless a
      lost connection stands before it in the send loop. */
  lemma CatchesUp<T>(events: seq<Event<T>>, ws: nat) returns (more: seq<Event<T>>)
    requires Live(After(events), ws) && !Blocked(After(events), ws)
    ensures Working(more) && Quiet(After(events + more), ws)
  {
    assert events + [] == events;
    more := SendEnds(events, [], ws);
    more := ReplayEnds(events, more);
  }

  // ---- the exception ----

  /** No event gets a blocked backend past the lost connection. */
  predicate Lost<T>(s: State<T>, ws: nat) {
    !s.connected || ws in s.dead || Blocked(s, ws)
  }

  lemma LostStays<T>(s: State<T>, e: Event<T>, ws: nat)
    requires Lost(s, ws)
    ensures Lost(Step(s, e), ws)
  {
    if Enabled(s, e) && Blocked(s, ws) && ws !in s.dead {
      if e.SendNext? {
        if s.handler.rest[0] !in s.dead {
          BehindFirst(s.handler.rest, s.dead, ws);
        }
      } else {
        var i, j :| 0 <= i < j < |s.handler.rest| && s.handler.rest[i] in s.dead && s.handler.rest[j] == ws;
        assert Step(s, e).connected ==> Behind(Step(s, e).handler.rest, Step(s, e).dead, ws);
      }
    }
  }

  lemma {:induction false} LostForever<T>(events: seq<Event<T>>, more: seq<Event<T>>, ws: nat)
    requires Lost(After(events), ws)
    ensures Lost(After(events + more), ws)
  {
    if more == [] {
      assert events + more == events;
    } else {
      var init, e := more[..|more| - 1], more[|more| - 1];
      LostForever(events, init, ws);
      OneMoreAfter(events, init, e, more);
      LostStays(After(events + init), e, ws);
    }
  }

  lemma BlockedAwaits<T>(s: State<T>, ws: nat)
    requires Blocked(s, ws)
    ensures Awaited(s, ws)
  {
  }

  /** Some continuation brings a live backend up to date exactly when it is not blocked; a blocked
      one is never up to date again, whatever happens. */
  lemma CatchesUpIff<T>(events: seq<Event<T>>, ws: nat)
    requires Live(After(events), ws)
    ensures (exists more: seq<Event<T>> :: Quiet(After(events + more), ws)) <==> !Blocked(After(events), ws)
  {
    if Blocked(After(events), ws) {
      forall more: seq<Event<T>> ensures !Quiet(After(events + more), ws) {
        LostForever(events, more, ws);
        if Blocked(After(events + more), ws) {
          BlockedAwaits(After(events + more), ws);
        }
      }
    } else {
      var more := CatchesUp(events, ws);
    }
  }

  lemma {:induction false} WorkingHearsNothing<T>(events: seq<Event<T>>, more: seq<Event<T>>)
    requires Working(more)
    ensures After(events + more).browser == After(events).browser
  {
    if more == [] {
      assert events + more == events;
    } else {
      var init, e := more[..|more| - 1], more[|more| - 1];
      WorkingHearsNothing(events, init);
      OneMoreAfter(events, init, e, more);
    }
  }

  lemma Opens<T>(events: seq<Event<T>>, ws: nat)
    requires After(events).connected && After(events).opener.Opening? && ws !in After(events).received
    ensures
      var s, s' := After(events), After(events + [Event.Open(ws)]);
      && s'.connected && s'.websocks == s.websocks + [ws] && s'.received == s.received[ws := []]
      && s'.browser == s.browser && s'.initialized == s.initialized
    ensures Live(After(events + [Event.Open(ws)]), ws) && !Blocked(After(events + [Event.Open(ws)]), ws)
  {
    AfterSnoc(events, Event.Open(ws));
    LostWereOpen(events);
    Reachable(events);
  }

  /** Every backend that is opened joins the list with nothing sent to it, and can be brought up to
      date with everything the browser has said so far. */
  lemma OpenedCatchesUp<T>(events: seq<Event<T>>, ws: nat) returns (more: seq<Event<T>>)
    requires After(events).connected && After(events).opener.Opening? && ws !in After(events).received
    ensures After(events + [Event.Open(ws)]).websocks == After(events).websocks + [ws]
    ensures Working(more)
    ensures
      var s' := After(events + [Event.Open(ws)] + more);
      && Quiet(s', ws) && s'.browser == After(events).browser
      && OrderedUpTo(s'.received[ws], |After(events).browser|)
  {
    var withIt := events + [Event.Open(ws)];
    Opens(events, ws);
    more := CatchesUp(withIt, ws);
    WorkingHearsNothing(withIt, more);
    DeliveryOrder(withIt + more, ws);
  }
}
