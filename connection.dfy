/** The connection state machine of the serial bridge, as values.

    `connected` is set by the radio stack's connect and disconnect callbacks;
    `wasConnected` is the state the application loop saw on its previous
    pass; `advertisements` counts how often advertising has been started. */
module Connection {

  datatype Link = Link(connected: bool, wasConnected: bool, advertisements: nat)

  /** The loop has yet to see a disconnect: it will restart advertising on its next pass. */
  predicate DisconnectPending(l: Link)
  {
    !l.connected && l.wasConnected
  }

  /** The connect callback. */
  function Attach(l: Link): (r: Link)
    ensures r.connected && r.wasConnected == l.wasConnected && r.advertisements == l.advertisements
  {
    l.(connected := true)
  }

  /** The disconnect callback. */
  function Detach(l: Link): (r: Link)
    ensures !r.connected && r.wasConnected == l.wasConnected && r.advertisements == l.advertisements
  {
    l.(connected := false)
  }

  /** The edge-detecting part of one pass of the application loop: on a
      disconnect edge advertising is restarted; on either edge the previous
      state catches up with the current one. After a pass the two agree,
      and advertising was restarted exactly when a disconnect was pending. */
  function Poll(l: Link): (r: Link)
    ensures r.connected == l.connected && r.wasConnected == r.connected
    ensures r.advertisements == l.advertisements + (if DisconnectPending(l) then 1 else 0)
  {
    var l1 := if !l.connected && l.wasConnected
      then Link(l.connected, l.connected, l.advertisements + 1)
      else l;
    if l1.connected && !l1.wasConnected then l1.(wasConnected := l1.connected) else l1
  }

  datatype Event = Connect | Disconnect | Tick

  function Apply(l: Link, e: Event): Link
  {
    match e
    case Connect => Attach(l)
    case Disconnect => Detach(l)
    case Tick => Poll(l)
  }

  /** The state after a sequence of callbacks and loop passes, in order. */
  function Run(l: Link, es: seq<Event>): Link
    decreases |es|
  {
    if es == [] then l else Run(Apply(l, es[0]), es[1..])
  }

  function Ticks(n: nat): (es: seq<Event>)
    ensures |es| == n && forall i :: 0 <= i < n ==> es[i] == Tick
  {
    seq(n, _ => Tick)
  }

  /** Number of disconnect callbacks in a run. */
  function Disconnects(es: seq<Event>): nat
    decreases |es|
  {
    if es == [] then 0 else (if es[0] == Disconnect then 1 else 0) + Disconnects(es[1..])
  }

  lemma {:induction false} RunAppend(l: Link, a: seq<Event>, b: seq<Event>)
    ensures Run(l, a + b) == Run(Run(l, a), b)
    decreases |a|
  {
    if a != [] {
      assert (a + b)[0] == a[0] && (a + b)[1..] == a[1..] + b;
      assert Run(l, a + b) == Run(Apply(l, a[0]), a[1..] + b);
      RunAppend(Apply(l, a[0]), a[1..], b);
    } else {
      assert a + b == b;
    }
  }

  /** Once the loop has seen a disconnect, further passes while still
      disconnected change nothing: advertising is not restarted again. */
  lemma {:induction false} TicksWhileDetached(l: Link, n: nat)
    requires !l.connected && !l.wasConnected
    ensures Run(l, Ticks(n)) == l
    decreases n
  {
    if n > 0 {
      assert Ticks(n)[1..] == Ticks(n - 1);
      TicksWhileDetached(Poll(l), n - 1);
    }
  }

  /** From any state, a first pass brings the loop in step; later passes with
      no callback in between change nothing. */
  lemma {:induction false} TicksAfterFirst(l: Link, n: nat)
    ensures Run(l, Ticks(n + 1)) == Poll(l)
    decreases n
  {
    assert Ticks(n + 1) == [Tick] + Ticks(n);
    RunAppend(l, [Tick], Ticks(n));
    var p := Poll(l);
    assert Run(l, [Tick]) == p;
    if p.connected {
      TicksWhileAttached(p, n);
    } else {
      TicksWhileDetached(p, n);
    }
  }

  lemma {:induction false} TicksWhileAttached(l: Link, n: nat)
    requires l.connected && l.wasConnected
    ensures Run(l, Ticks(n)) == l
    decreases n
  {
    if n > 0 {
      assert Ticks(n)[1..] == Ticks(n - 1);
      TicksWhileAttached(Poll(l), n - 1);
    }
  }

  /** Re-advertising happens once per observed disconnect: with the loop in
      step with an attached peer, a disconnect followed by any number (at
      least one) of passes restarts advertising exactly once. */
  lemma DisconnectAdvertisesOnce(l: Link, n: nat)
    requires l.connected && l.wasConnected
    ensures Run(l, [Disconnect] + Ticks(n + 1)) ==
      Link(false, false, l.advertisements + 1)
  {
    RunAppend(l, [Disconnect], Ticks(n + 1));
    TicksAfterFirst(Detach(l), n);
  }

  /** A full cycle from any settled state (connect, passes, disconnect,
      passes) restarts advertising exactly once and ends settled and
      disconnected, so the next cycle restarts it again. */
  lemma ConnectionCycle(l: Link, n: nat, m: nat)
    requires l.connected == l.wasConnected
    ensures Run(l, [Connect] + Ticks(n + 1) + [Disconnect] + Ticks(m + 1)) ==
      Link(false, false, l.advertisements + 1)
  {
    var first := [Connect] + Ticks(n + 1);
    RunAppend(l, [Connect], Ticks(n + 1));
    TicksAfterFirst(Attach(l), n);
    var mid := Run(l, first);
    assert mid == Link(true, true, l.advertisements);
    assert first + [Disconnect] + Ticks(m + 1) == first + ([Disconnect] + Ticks(m + 1));
    RunAppend(l, first, [Disconnect] + Ticks(m + 1));
    DisconnectAdvertisesOnce(mid, m);
  }

  /** A connection that begins and ends between two passes of the loop is
      never seen by it, and advertising is not restarted for it. */
  lemma UnobservedConnectionNotReadvertised(l: Link, n: nat)
    requires !l.connected && !l.wasConnected
    ensures Run(l, [Connect, Disconnect] + Ticks(n)) == l
  {
    RunAppend(l, [Connect, Disconnect], Ticks(n));
    assert Run(l, [Connect, Disconnect]) == l;
    TicksWhileDetached(l, n);
  }

  /** Never more than once per disconnect: over any run, the restarts of
      advertising plus a restart still pending never exceed the disconnect
      callbacks in the run plus a restart pending at its start. */
  lemma {:induction false} AdvertisementsBounded(l: Link, es: seq<Event>)
    ensures var r := Run(l, es);
      r.advertisements + (if DisconnectPending(r) then 1 else 0) <=
      l.advertisements + (if DisconnectPending(l) then 1 else 0) + Disconnects(es)
    decreases |es|
  {
    if es != [] {
      AdvertisementsBounded(Apply(l, es[0]), es[1..]);
    }
  }
}
