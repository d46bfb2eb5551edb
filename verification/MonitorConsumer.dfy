/** SiteMonitorConsumer: one browser socket fanned out to one websocket per appserver, opened
    while the browser is already talking.

    Messages are identified by their arrival number (0, 1, 2, ...); the consumer forwards them
    without looking inside, so nothing here branches on one.  Each event below is the code
    between two scheduling points of the asyncio tasks that share the consumer's fields. */
module MonitorConsumer {
  import opened Seqs

  /** The task running open_monitor_connections: waiting for the next connection, replaying the
      queue to a fresh one (index of the next queue element), or finished. */
  datatype Opener = Opening | Replaying(ws: nat, next: nat) | Opened

  /** The browser handler: idle, or inside the send loop of receive() with the sockets left. */
  datatype Handler = Idle | Sending(tag: nat, rest: seq<nat>)

  datatype State<T> = State(
    connected: bool,
    browser: seq<T>,              // all browser messages so far, by arrival number
    pending: seq<nat>,            // self.pending_browser_messages
    websocks: seq<nat>,           // self.monitor_websocks
    initialized: bool,            // self.monitor_connections_initialized
    opener: Opener,
    handler: Handler,
    received: map<nat, seq<nat>>, // what each websocket opened so far was sent
    dead: set<nat>)               // websockets whose connection has dropped

  datatype Event<T> =
    | Receive(data: T)   // receive() starts: queue the message, copy the socket list
    | SendNext           // receive() sends to the next socket of its copy
    | Open(ws: nat)      // a connection attempt succeeds
    | OpenFails          // a connection attempt fails or times out
    | ReplayNext         // the replay loop takes one more step
    | Finish             // every appserver was tried
    | Drop(ws: nat)      // an appserver's connection is lost
    | Prune(ws: nat)     // its monitor_mainloop notices
    | Close              // disconnect, timer, permission change

  ghost predicate Enabled<T>(s: State<T>, e: Event<T>) {
    s.connected &&
    match e
    case Receive(_) => s.handler.Idle?
    case SendNext => s.handler.Sending? && s.handler.rest != [] && s.handler.rest[0] in s.received
    case Open(ws) => s.opener.Opening? && ws !in s.received
    case OpenFails => s.opener.Opening?
    case ReplayNext => s.opener.Replaying? && s.opener.ws in s.received
    case Finish => s.opener.Opening?
    case Drop(ws) => ws in s.received
    case Prune(ws) => ws in s.dead && ws in s.websocks
    case Close => true
  }

  function Resume(tag: nat, rest: seq<nat>): Handler {
    if rest == [] then Idle else Sending(tag, rest)
  }

  /** The effect of one event; an event that is not enabled changes nothing. */
  ghost function Step<T>(s: State<T>, e: Event<T>): State<T> {
    if !Enabled(s, e) then s else
    match e
    case Receive(data) =>
      var tag := |s.browser|;
      s.(browser := s.browser + [data],
         pending := if s.initialized then s.pending else s.pending + [tag],
         handler := Resume(tag, s.websocks))
    case SendNext =>
      var ws := s.handler.rest[0];
      if ws in s.dead then s.(connected := false, handler := Idle)
      else s.(received := s.received[ws := s.received[ws] + [s.handler.tag]],
              handler := Resume(s.handler.tag, s.handler.rest[1..]))
    case Open(ws) =>
      s.(websocks := s.websocks + [ws], received := s.received[ws := []], opener := Replaying(ws, 0))
    case OpenFails => s
    case ReplayNext =>
      var ws, i := s.opener.ws, s.opener.next;
      if i >= |s.pending| || ws in s.dead then s.(opener := Opening)
      else s.(received := s.received[ws := s.received[ws] + [s.pending[i]]],
              opener := Replaying(ws, i + 1))
    case Finish =>
      if s.websocks != [] then s.(opener := Opened, initialized := true, pending := [])
      else s.(connected := false)
    case Drop(ws) => s.(dead := s.dead + {ws})
    case Prune(ws) =>
      var left := Without(s.websocks, ws);
      s.(websocks := left, connected := left != [])
    case Close => s.(connected := false)
  }

  ghost function Start<T>(): State<T> {
    State(true, [], [], [], false, Opening, Idle, map[], {})
  }

  /** The state after any interleaving of events, from an accepted browser connection. */
  ghost function After<T>(events: seq<Event<T>>): State<T> {
    if events == [] then Start()
    else Step(After(events[..|events| - 1]), events[|events| - 1])
  }

  // ---- delivery order ----

  /** Position of the last occurrence of a message in a stream, or -1. */
  function LastPos(t: seq<nat>, k: nat): (p: int)
    ensures -1 <= p < |t|
    ensures p >= 0 ==> t[p] == k
    ensures forall i :: p < i < |t| ==> t[i] != k
  {
    if t == [] then -1
    else if t[|t| - 1] == k then |t| - 1
    else LastPos(t[..|t| - 1], k)
  }

  /** The first m messages all occur, and their last occurrences come in arrival order. */
  ghost predicate OrderedUpTo(t: seq<nat>, m: nat) {
    && (forall i :: 0 <= i < m ==> LastPos(t, i) >= 0)
    && (forall i, j :: 0 <= i < j < m ==> LastPos(t, i) < LastPos(t, j))
  }

  lemma LastPosAppend(t: seq<nat>, k: nat, i: nat)
    ensures LastPos(t + [k], i) == if i == k then |t| else LastPos(t, i)
  {
    assert (t + [k])[..|t|] == t;
  }

  lemma OrderedAppend(t: seq<nat>, m: nat, k: nat)
    requires OrderedUpTo(t, m) && k + 1 >= m
    ensures OrderedUpTo(t + [k], m)
    ensures k == m ==> OrderedUpTo(t + [k], m + 1)
  {
    forall i: nat ensures LastPos(t + [k], i) == if i == k then |t| else LastPos(t, i) {
      LastPosAppend(t, k, i);
    }
  }

  function Iota(n: nat): (r: seq<nat>)
    ensures |r| == n && forall i :: 0 <= i < n ==> r[i] == i
  {
    if n == 0 then [] else Iota(n - 1) + [n - 1]
  }

  /** How many messages receive() has finished sending to a websocket that it knows. */
  ghost function Direct<T>(s: State<T>, ws: nat): int {
    if s.handler.Sending? && ws in s.handler.rest then |s.browser| - 1 else |s.browser|
  }

  /** How many messages a live websocket is guaranteed to have, in order. */
  ghost function Settled<T>(s: State<T>, ws: nat): int {
    if s.opener.Replaying? && s.opener.ws == ws then s.opener.next else Direct(s, ws)
  }

  /** The most copies of a message a websocket can hold: one replayed, one sent directly. */
  ghost function MaxCopies<T>(s: State<T>, ws: nat, k: nat): int {
    (if s.opener.Replaying? && s.opener.ws == ws && k >= s.opener.next then 0 else 1)
    + (if k < Direct(s, ws) then 1 else 0)
  }

  ghost predicate StreamOk<T>(s: State<T>, ws: nat)
    requires ws in s.received
  {
    var t := s.received[ws];
    && (forall k :: k in t ==> k < |s.browser|)
    && 0 <= Settled(s, ws) <= |s.browser|
    && OrderedUpTo(t, Settled(s, ws))
    && CopiesOk(s, ws)
  }

  ghost predicate CopiesOk<T>(s: State<T>, ws: nat)
    requires ws in s.received
  {
    forall k: nat :: multiset(s.received[ws])[k] <= MaxCopies(s, ws, k)
  }

  /** What the fields of the consumer agree on, leaving the streams aside. */
  ghost predicate Shape<T>(s: State<T>) {
    && Distinct(s.websocks)
    && (forall ws :: ws in s.websocks ==> ws in s.received)
    && (forall ws :: ws in s.received && ws !in s.dead ==> ws in s.websocks)
    && s.pending == (if s.initialized then [] else Iota(|s.browser|))
    && (s.initialized <==> s.opener.Opened?)
    && (s.opener.Replaying? ==> s.opener.ws in s.received && s.opener.next <= |s.browser|)
    && (s.handler.Sending? ==>
          && s.handler.tag == |s.browser| - 1
          && s.handler.rest != []
          && Distinct(s.handler.rest)
          && forall ws :: ws in s.handler.rest ==> ws in s.received)
  }

  ghost predicate Inv<T>(s: State<T>) {
    && Shape(s)
    && forall ws :: ws in s.received && ws !in s.dead ==> StreamOk(s, ws)
  }

  lemma ShapeKeeps<T>(s: State<T>, e: Event<T>)
    requires Shape(s) && Enabled(s, e)
    ensures Step(s, e).connected ==> Shape(Step(s, e))
  {
    if e.SendNext? {
      DistinctTail(s.handler.rest);
    } else if e.Open? {
      DistinctAppend(s.websocks, e.ws);
    }
  }

  lemma CopiesAppend(t: seq<nat>, k: nat)
    ensures forall i: nat :: multiset(t + [k])[i] == multiset(t)[i] + if i == k then 1 else 0
  {
  }

  /** The socket a direct send goes to. */
  lemma SentHere<T>(s: State<T>, ws: nat)
    requires Shape(s) && Enabled(s, SendNext) && s.handler.rest[0] == ws && ws !in s.dead && StreamOk(s, ws)
    ensures StreamOk(Step(s, SendNext), ws)
  {
    var s' := Step(s, SendNext);
    DistinctTail(s.handler.rest);
    assert s'.received[ws] == s.received[ws] + [s.handler.tag];
    OrderedAppend(s.received[ws], Settled(s, ws), s.handler.tag);
    CopiesAppend(s.received[ws], s.handler.tag);
    assert Direct(s', ws) == |s.browser|;
  }

  /** Any other socket. */
  lemma SentElsewhere<T>(s: State<T>, ws: nat)
    requires Shape(s) && Enabled(s, SendNext) && s.handler.rest[0] != ws && s.handler.rest[0] !in s.dead
    requires ws in s.received && StreamOk(s, ws)
    ensures ws in Step(s, SendNext).received && StreamOk(Step(s, SendNext), ws)
  {
    DistinctTail(s.handler.rest);
    assert Direct(Step(s, SendNext), ws) == Direct(s, ws);
  }

  lemma SentTo<T>(s: State<T>, ws: nat)
    requires Inv(s) && Enabled(s, SendNext) && ws in s.received && ws !in s.dead
    ensures var s' := Step(s, SendNext); s'.connected ==> ws in s'.received && StreamOk(s', ws)
  {
    if Step(s, SendNext).connected {
      if s.handler.rest[0] == ws {
        SentHere(s, ws);
      } else {
        SentElsewhere(s, ws);
      }
    }
  }

  lemma ReplayedHere<T>(s: State<T>, ws: nat)
    requires Shape(s) && Enabled(s, ReplayNext) && ws == s.opener.ws && ws !in s.dead && StreamOk(s, ws)
    ensures StreamOk(Step(s, ReplayNext), ws)
  {
    var k, s' := s.opener.next, Step(s, ReplayNext);
    if k < |s.pending| {
      OrderedAppend(s.received[ws], k, k);
      assert s'.received[ws] == s.received[ws] + [k];
      assert Settled(s', ws) == k + 1;
      ReplayedCopies(s, ws);
    }
  }

  lemma ReplayedCopies<T>(s: State<T>, ws: nat)
    requires Shape(s) && Enabled(s, ReplayNext) && ws == s.opener.ws && ws !in s.dead && CopiesOk(s, ws)
    requires s.opener.next < |s.pending|
    ensures CopiesOk(Step(s, ReplayNext), ws)
  {
    CopiesAppend(s.received[ws], s.opener.next);
  }

  lemma ReplayedTo<T>(s: State<T>, ws: nat)
    requires Inv(s) && Enabled(s, ReplayNext) && ws in s.received && ws !in s.dead
    ensures StreamOk(Step(s, ReplayNext), ws)
  {
    assert StreamOk(s, ws);
    if ws == s.opener.ws {
      ReplayedHere(s, ws);
    } else {
      assert Settled(Step(s, ReplayNext), ws) == Settled(s, ws);
    }
  }

  /** Every other event leaves the streams alone and moves no bound past what they hold. */
  lemma Untouched<T>(s: State<T>, e: Event<T>, ws: nat)
    requires Inv(s) && Enabled(s, e) && !e.SendNext? && !e.ReplayNext?
    requires ws in Step(s, e).received && ws !in Step(s, e).dead && Step(s, e).connected
    ensures StreamOk(Step(s, e), ws)
  {
    var s' := Step(s, e);
    if ws in s.received {
      assert StreamOk(s, ws) && ws in s.websocks;
      assert Settled(s', ws) == Settled(s, ws);
    } else {
      assert s'.received[ws] == [] && Settled(s', ws) == 0;
    }
  }

  lemma StepKeeps<T>(s: State<T>, e: Event<T>)
    requires s.connected ==> Inv(s)
    ensures Step(s, e).connected ==> Inv(Step(s, e))
  {
    var s' := Step(s, e);
    if Enabled(s, e) && s'.connected {
      ShapeKeeps(s, e);
      forall ws | ws in s'.received && ws !in s'.dead ensures StreamOk(s', ws) {
        if e.SendNext? {
          SentTo(s, ws);
        } else if e.ReplayNext? {
          ReplayedTo(s, ws);
        } else {
          Untouched(s, e, ws);
        }
      }
    }
  }

  lemma {:induction false} Reachable<T>(events: seq<Event<T>>)
    ensures After(events).connected ==> Inv(After(events))
  {
    if events != [] {
      Reachable(events[..|events| - 1]);
      StepKeeps(After(events[..|events| - 1]), events[|events| - 1]);
    }
  }

  /** A websocket that is in use, whose connection still stands, whose replay is over and that
      no browser message is on its way to. */
  ghost predicate Quiet<T>(s: State<T>, ws: nat) {
    && s.connected
    && ws in s.received && ws !in s.dead
    && !(s.opener.Replaying? && s.opener.ws == ws)
    && !(s.handler.Sending? && ws in s.handler.rest)
  }

  /** In every interleaving, a quiet websocket has been sent every browser message, once or
      twice, nothing else, and the last copies of the messages came in browser order. */
  lemma DeliveryOrder<T>(events: seq<Event<T>>, ws: nat)
    requires Quiet(After(events), ws)
    ensures
      var s := After(events);
      && OrderedUpTo(s.received[ws], |s.browser|)
      && (forall k :: k in s.received[ws] ==> k < |s.browser|)
      && (forall k :: 0 <= k < |s.browser| ==> 1 <= multiset(s.received[ws])[k] <= 2)
  {
    Reachable(events);
    var s := After(events);
    var t := s.received[ws];
    assert StreamOk(s, ws);
    forall k: nat | k < |s.browser| ensures 1 <= multiset(t)[k] <= 2 {
      assert t[LastPos(t, k)] == k;
    }
  }

  /** While the replay to a websocket is still running, what it already holds of the queue is
      in order too, however many newer messages have overtaken the replay. */
  lemma ReplayOrder<T>(events: seq<Event<T>>)
    requires
      var s := After(events);
      s.connected && s.opener.Replaying? && s.opener.ws !in s.dead
    ensures
      var s := After(events);
      && s.opener.ws in s.received
      && s.opener.next <= |s.browser| == |s.pending|
      && OrderedUpTo(s.received[s.opener.ws], s.opener.next)
  {
    Reachable(events);
    assert StreamOk(After(events), After(events).opener.ws);
  }

  // ---- the consumer object ----

  /** The consumer's fields, and the locals of its two running tasks.  Every method is one
      event of the machine above. */
  class SiteMonitorConsumer<T> {
    var connected: bool
    var monitorWebsocks: seq<nat>
    var pendingBrowserMessages: seq<nat>
    var monitorConnectionsInitialized: bool
    var opener: Opener
    var handler: Handler
    ghost var browser: seq<T>
    var sent: map<nat, seq<nat>>
    var lost: set<nat>

    ghost function View(): State<T>
      reads this
    {
      State(connected, browser, pendingBrowserMessages, monitorWebsocks,
            monitorConnectionsInitialized, opener, handler, sent, lost)
    }

    constructor ()
      ensures View() == Start()
    {
      connected, monitorWebsocks, pendingBrowserMessages := true, [], [];
      monitorConnectionsInitialized := false;
      opener, handler, browser, sent, lost := Opening, Idle, [], map[], {};
    }

    /** receive(), up to its first send. */
    method Receive(tag: nat, ghost data: T)
      requires tag == |browser| && Enabled(View(), Event.Receive(data))
      modifies this
      ensures View() == Step(old(View()), Event.Receive(data))
    {
      browser := browser + [data];
      if !monitorConnectionsInitialized {
        pendingBrowserMessages := pendingBrowserMessages + [tag];
      }
      handler := Resume(tag, monitorWebsocks);
    }

    /** One send of the loop in receive(); a closed connection closes the consumer. */
    method SendNext()
      requires Enabled(View(), Event.SendNext)
      modifies this
      ensures View() == Step(old(View()), Event.SendNext)
    {
      var ws := handler.rest[0];
      if ws in lost {
        connected := false;
        handler := Idle;
      } else {
        sent := sent[ws := sent[ws] + [handler.tag]];
        handler := Resume(handler.tag, handler.rest[1..]);
      }
    }

    /** A connection attempt in open_monitor_connections() succeeded. */
    method Opened(ws: nat)
      requires Enabled(View(), Event.Open(ws))
      modifies this
      ensures View() == Step(old(View()), Event.Open(ws))
    {
      monitorWebsocks := monitorWebsocks + [ws];
      sent := sent[ws := []];
      opener := Replaying(ws, 0);
    }

    /** One iteration of the replay loop, which sees elements appended meanwhile. */
    method ReplayNext()
      requires Enabled(View(), Event.ReplayNext)
      modifies this
      ensures View() == Step(old(View()), Event.ReplayNext)
    {
      var ws, i := opener.ws, opener.next;
      if i < |pendingBrowserMessages| && ws !in lost {
        sent := sent[ws := sent[ws] + [pendingBrowserMessages[i]]];
        opener := Replaying(ws, i + 1);
      } else {
        opener := Opening;
      }
    }

    /** The rest of initialize_monitor_connections(). */
    method Finish()
      requires Enabled(View(), Event.Finish)
      modifies this
      ensures View() == Step(old(View()), Event.Finish)
    {
      if monitorWebsocks != [] {
        monitorConnectionsInitialized := true;
        pendingBrowserMessages := [];
        opener := Opener.Opened;
      } else {
        connected := false;
      }
    }

    /** monitor_mainloop() found its connection closed. */
    method Prune(ws: nat)
      requires Enabled(View(), Event.Prune(ws))
      modifies this
      ensures View() == Step(old(View()), Event.Prune(ws))
    {
      monitorWebsocks := Without(monitorWebsocks, ws);
      if monitorWebsocks == [] {
        connected := false;
      }
    }
  }
}
