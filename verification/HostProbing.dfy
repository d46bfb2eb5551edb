/** Trying appservers in turn, starting from the one a site hashes to and wrapping around.  The
    manager and the shell server each have a copy of this loop. */
module HostProbing {
  import opened Options

  /** The i-th host in cyclic order from the starting one. */
  function Turn(start: int, n: nat, i: nat): (h: nat)
    requires n > 0
    ensures h < n
  {
    (start + i) % n
  }

  lemma TurnNext(start: int, n: nat, i: nat)
    requires n > 0
    ensures Turn(start, n, i + 1) == (Turn(start, n, i) + 1) % n
  {
    var q := (start + i) / n;
    assert start + i == q * n + Turn(start, n, i);
    ModUnique(start + i + 1, n, if Turn(start, n, i) + 1 == n then q + 1 else q, (Turn(start, n, i) + 1) % n);
  }

  lemma ModUnique(x: int, n: nat, q: int, r: nat)
    requires n > 0 && x == q * n + r && r < n
    ensures x % n == r
  {
    var d := x / n - q;
    assert x == (x / n) * n + x % n;
    assert d * n == r - x % n by {
      assert (x / n - q) * n == (x / n) * n - q * n;
    }
    MultipleSize(d, n);
  }

  lemma MultipleSize(d: int, n: nat)
    ensures d >= 1 ==> d * n >= n
    ensures d <= -1 ==> d * n + n <= 0
  {
    if d >= 1 {
      assert d * n == (d - 1) * n + n;
    } else if d <= -1 {
      assert d * n + n == (d + 1) * n;
    }
  }

  /** Within one round no host has two turns. */
  lemma TurnsDistinct(start: int, n: nat, i: nat, j: nat)
    requires i < j < n
    ensures Turn(start, n, i) != Turn(start, n, j)
  {
    var q := (start + i) / n;
    var r := Turn(start, n, i);
    assert start + i == q * n + r;
    if r + (j - i) < n {
      ModUnique(start + j, n, q, r + (j - i));
    } else {
      assert (q + 1) * n == q * n + n;
      ModUnique(start + j, n, q + 1, r + (j - i) - n);
    }
  }

  /** Every host has a turn within one round. */
  lemma TurnOf(start: int, n: nat, h: nat) returns (i: nat)
    requires h < n
    ensures i < n && Turn(start, n, i) == h
  {
    var q, r := start / n, start % n;
    assert start == q * n + r;
    if h >= r {
      i := h - r;
      ModUnique(start + i, n, q, h);
    } else {
      i := h + n - r;
      assert (q + 1) * n == q * n + n;
      ModUnique(start + i, n, q + 1, h);
    }
  }

  /** What probing has to do: the hosts are tried in cyclic order, up to the first that can be
      reached or once around. */
  predicate Probed(start: int, reachable: seq<bool>, tried: seq<nat>, found: Option<nat>)
    requires reachable != []
  {
    var n := |reachable|;
    && |tried| <= n
    && (forall i :: 0 <= i < |tried| ==> tried[i] == Turn(start, n, i))
    && (forall i :: 0 <= i < |tried| - 1 ==> !reachable[Turn(start, n, i)])
    && tried != []
    && (if reachable[Turn(start, n, |tried| - 1)] then found == Some(tried[|tried| - 1])
        else found == None && |tried| == n)
  }

  /** No host is tried twice; probing gives up just when no host can be reached; and otherwise it
      ends at a reachable host, before which in cyclic order there is no other. */
  lemma ProbingCorrect(start: int, reachable: seq<bool>, tried: seq<nat>, found: Option<nat>)
    requires reachable != [] && Probed(start, reachable, tried, found)
    ensures forall i, j :: 0 <= i < j < |tried| ==> tried[i] != tried[j]
    ensures found.None? <==> forall h :: 0 <= h < |reachable| ==> !reachable[h]
    ensures
      found.Some? ==>
        && found.value < |reachable| && reachable[found.value]
        && forall i, k :: 0 <= i < k < |reachable| && Turn(start, |reachable|, k) == found.value ==>
             !reachable[Turn(start, |reachable|, i)]
  {
    var n := |reachable|;
    forall i, j | 0 <= i < j < |tried|
      ensures tried[i] != tried[j]
    {
      TurnsDistinct(start, n, i, j);
    }
    if found.None? {
      forall h | 0 <= h < n
        ensures !reachable[h]
      {
        var i := TurnOf(start, n, h);
        assert !reachable[Turn(start, n, i)];
      }
    } else {
      forall i, k | 0 <= i < k < n && Turn(start, n, k) == found.value
        ensures !reachable[Turn(start, n, i)]
      {
        OnlyTurn(start, n, k, |tried| - 1);
      }
    }
  }

  /** The first host is the hash modulo the number of hosts, each next one is the next in the ring, and
      as long as tries fail they go on. */
  lemma TriesInRing(start: int, reachable: seq<bool>, tried: seq<nat>, found: Option<nat>)
    requires reachable != [] && Probed(start, reachable, tried, found)
    ensures tried != [] && tried[0] == start % |reachable|
    ensures forall i :: 0 <= i < |tried| - 1 ==> tried[i] < |reachable| && tried[i + 1] == (tried[i] + 1) % |reachable|
    ensures forall i :: 0 <= i < |tried| - 1 ==> !reachable[tried[i]]
    ensures tried[|tried| - 1] < |reachable|
    ensures if reachable[tried[|tried| - 1]] then found == Some(tried[|tried| - 1]) else found == None && |tried| == |reachable|
  {
    forall i | 0 <= i < |tried| - 1
      ensures tried[i] < |reachable| && tried[i + 1] == (tried[i] + 1) % |reachable|
    {
      TurnNext(start, |reachable|, i);
    }
  }

  lemma OnlyTurn(start: int, n: nat, i: nat, j: nat)
    requires i < n && j < n && Turn(start, n, i) == Turn(start, n, j)
    ensures i == j
  {
    if i < j {
      TurnsDistinct(start, n, i, j);
    } else if j < i {
      TurnsDistinct(start, n, j, i);
    }
  }

  /** The two copies of the loop make the same tries and reach the same host. */
  lemma ProbingDetermined(
    start: int, reachable: seq<bool>, tried: seq<nat>, found: Option<nat>, tried': seq<nat>, found': Option<nat>)
    requires reachable != []
    requires Probed(start, reachable, tried, found) && Probed(start, reachable, tried', found')
    ensures tried == tried' && found == found'
  {
    var n := |reachable|;
    var last, last' := reachable[Turn(start, n, |tried| - 1)], reachable[Turn(start, n, |tried'| - 1)];
  }

  /** The next host, and whether that completes the round. */
  lemma NextTurn(start: int, n: nat, i: nat)
    requires i < n
    ensures Turn(start, n, i + 1) == (Turn(start, n, i) + 1) % n
    ensures Turn(start, n, i + 1) == Turn(start, n, 0) <==> i + 1 == n
  {
    TurnNext(start, n, i);
    if i + 1 < n {
      TurnsDistinct(start, n, 0, i + 1);
    } else {
      assert start == (start / n) * n + start % n;
      assert (start / n + 1) * n == (start / n) * n + n;
      ModUnique(start + n, n, start / n + 1, start % n);
    }
  }

  /** The state of either loop before a try. */
  predicate Trying(start: int, reachable: seq<bool>, tried: seq<nat>, host: nat)
    requires reachable != []
  {
    && |tried| < |reachable| && host == Turn(start, |reachable|, |tried|)
    && forall i :: 0 <= i < |tried| ==> tried[i] == Turn(start, |reachable|, i) && !reachable[tried[i]]
  }

  lemma TryEnds(start: int, reachable: seq<bool>, tried: seq<nat>, host: nat)
    requires reachable != [] && Trying(start, reachable, tried, host)
    ensures reachable[host] ==> Probed(start, reachable, tried + [host], Some(host))
    ensures !reachable[host] && |tried| + 1 == |reachable| ==> Probed(start, reachable, tried + [host], None)
  {
  }

  lemma TryAgain(start: int, reachable: seq<bool>, tried: seq<nat>, host: nat)
    requires reachable != [] && Trying(start, reachable, tried, host) && !reachable[host]
    ensures
      var next := (host + 1) % |reachable|;
      if next == Turn(start, |reachable|, 0) then |tried| + 1 == |reachable|
      else Trying(start, reachable, tried + [host], next)
  {
    NextTurn(start, |reachable|, |tried|);
  }

  /** The loop in SiteTerminalConsumer.open_terminal_connection().  Each host is asked at most once,
      so what matters is whether it can be reached when its turn comes. */
  method OpenTerminalConnection(hash: int, reachable: seq<bool>) returns (tried: seq<nat>, found: Option<nat>)
    requires reachable != []
    ensures Probed(hash, reachable, tried, found)
  {
    var n := |reachable|;
    var appserver: nat := hash % n;
    var first := appserver;
    tried := [];
    while true
      invariant Trying(hash, reachable, tried, appserver) && first == Turn(hash, n, 0)
      decreases n - |tried|
    {
      TryEnds(hash, reachable, tried, appserver);
      if reachable[appserver] {
        return tried + [appserver], Some(appserver);
      }
      TryAgain(hash, reachable, tried, appserver);
      tried := tried + [appserver];
      appserver := (appserver + 1) % n;
      if appserver == first {
        return tried, None;
      }
    }
  }

  /** The loop in the shell server's connect_websock(), over its own table of hosts. */
  method ConnectWebsock(hash: int, hosts: seq<string>, reachable: seq<bool>)
    returns (tried: seq<nat>, found: Option<nat>, host: Option<string>)
    requires hosts != [] && |reachable| == |hosts|
    ensures Probed(hash, reachable, tried, found)
    ensures host == if found.Some? then Some(hosts[found.value]) else None
  {
    var n := |hosts|;
    var appserver: nat := hash % n;
    var first := appserver;
    tried := [];
    while true
      invariant Trying(hash, reachable, tried, appserver) && first == Turn(hash, n, 0)
      decreases n - |tried|
    {
      var candidate := hosts[appserver];
      TryEnds(hash, reachable, tried, appserver);
      if reachable[appserver] {
        return tried + [appserver], Some(appserver), Some(candidate);
      }
      TryAgain(hash, reachable, tried, appserver);
      tried := tried + [appserver];
      appserver := (appserver + 1) % n;
      if appserver == first {
        return tried, None, None;
      }
    }
  }
}
