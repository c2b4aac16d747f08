/** When a client is pinged, over a round with events and the idle one that follows it. */
module ConnectionLaws {
  import opened Connections
  import opened Servers

  /** A client is pinged after so many thousand clock ticks, or always for an interval of zero unless
      the clock ran back by a thousand. */
  lemma DueIs(c: Conn, now: int, interval: nat)
    ensures interval >= 1 ==> (Due(c, now, interval) <==> now - c.client.lastUpdated >= 1000 * interval)
    ensures interval == 0 ==> (Due(c, now, interval) <==> now - c.client.lastUpdated > -1000)
  {
  }

  /** The row does not fail, and is quiet or has its message handled. */
  ghost predicate Stamped(e: Events, seen: Seen, handlers: Handlers) {
    && seen.peek != 0 && !e.error && !e.invalid && !e.hangup
    && (handlers.onmessage || !(e.input && seen.peek > 0))
  }

  /** What a round with events makes of the rows it finds. */
  lemma EventsExplained(o: Outcome, capacity: nat, handlers: Handlers, r: Round, k: nat)
    requires k < |o.table| <= capacity && r.number > 0
    ensures var h, c := Handled(o, capacity, handlers, r).table, o.table[k];
      k < |h| && Explained(c.(item := c.item.(revents := r.events(k + 1))), r.seen(k + 1), handlers, h[k])
  {
    MarkRows(Arrived(o, capacity, handlers, r), 0, capacity, handlers, r.seen);
  }

  lemma EventsStamp(o: Outcome, capacity: nat, handlers: Handlers, r: Round, k: nat)
    requires k < |o.table| <= capacity && r.number > 0 && Stamped(r.events(k + 1), r.seen(k + 1), handlers)
    ensures var h := Handled(o, capacity, handlers, r).table;
      k < |h| && h[k].client.fd == o.table[k].client.fd && h[k].client.lastUpdated == r.seen(k + 1).now
  {
    EventsExplained(o, capacity, handlers, r, k);
  }

  /** The first client that retries and is let in gets a row behind all others, as it is at that point, and
      this row is marked in its turn. */
  lemma RetryExplained(o: Outcome, capacity: nat, handlers: Handlers, r: Round, k: nat)
    requires |o.table| <= capacity && r.number > 0
    requires var t := Arrived(o, capacity, handlers, r).table;
      && k < |t| < capacity && Reenters(t[k], r.seen(k + 1), handlers)
      && (forall j :: 0 <= j < k ==> !Reenters(t[j], r.seen(j + 1), handlers))
    ensures var t, h := Arrived(o, capacity, handlers, r).table, Handled(o, capacity, handlers, r).table;
      var n, seen, fd := |t|, r.seen(k + 1), t[k].client.fd;
      n < |h| && Explained(
        Conn(PollItem(fd, 1, Events(false, false, false, false)), Client(fd, seen.connect, seen.connected)),
        r.seen(n + 1), handlers, h[n])
  {
    MarkFirst(Arrived(o, capacity, handlers, r), 0, k, capacity, handlers, r.seen);
  }

  /** Who retries and is let in. */
  lemma ReentersIs(c: Conn, seen: Seen, handlers: Handlers)
    ensures var e := c.item.revents;
      Reenters(c, seen, handlers) <==>
        && seen.peek > 0 && e.input && !e.error && !e.invalid && !e.hangup
        && c.client.status == Retry && handlers.onconnect && seen.connect != Kill
  {
  }

  /** A row that is not dead is somewhere in the table after the round. */
  lemma Kept(o: Outcome, capacity: nat, handlers: Handlers, r: Round, k: nat) returns (j: nat)
    requires |o.table| <= capacity && k < |Handled(o, capacity, handlers, r).table|
    requires var x := Handled(o, capacity, handlers, r).table[k]; x.item.events != 0 && x.client.status != Kill
    ensures var t := AfterRound(o, capacity, handlers, r).table;
      j < |t| <= capacity && t[j] == Handled(o, capacity, handlers, r).table[k]
  {
    var h, t := Handled(o, capacity, handlers, r).table, AfterRound(o, capacity, handlers, r).table;
    SweepIsExact(h);
    RowsOf(h, false, h[k]);
    SweepConserves(h, 0);
    assert h[k] in multiset(t);
    j :| 0 <= j < |t| && t[j] == h[k];
  }

  /** The row after a ping, or the same if there was none. */
  ghost predicate PingedIf(due: bool, x: Conn, answer: Status, now: int, y: Conn) {
    if due then
      && y.client == Client(x.client.fd, answer, now)
      && y.item.events == if answer == Kill then 0 else x.item.events
    else y.client == x.client && y.item.events == x.item.events
  }

  /** A client that was quiet or sent a message at clock t, and was kept, is pinged in the next idle round,
      at clock t', if and only if t' - t is at least a thousand times the interval. */
  lemma QuietThenIdle(o: Outcome, capacity: nat, handlers: Handlers, r: Round, r': Round, k: nat, j: nat)
    requires k < |o.table| <= capacity && r.number > 0 && Stamped(r.events(k + 1), r.seen(k + 1), handlers)
    requires r'.number <= 0 && handlers.onping && handlers.pingInterval >= 1
    requires |AfterRound(o, capacity, handlers, r).table| <= capacity
    requires j < |AfterRound(o, capacity, handlers, r).table| && k < |Handled(o, capacity, handlers, r).table|
    requires AfterRound(o, capacity, handlers, r).table[j] == Handled(o, capacity, handlers, r).table[k]
    ensures var o' := AfterRound(o, capacity, handlers, r); var h := Handled(o', capacity, handlers, r').table;
      var t, t' := r.seen(k + 1).now, r'.seen(j + 1).now;
      && |h| == |o'.table|
      && PingedIf(t' - t >= 1000 * handlers.pingInterval, o'.table[j], r'.seen(j + 1).answer, t', h[j])
  {
    EventsStamp(o, capacity, handlers, r, k);
    var o' := AfterRound(o, capacity, handlers, r);
    var x := Reported(o'.table, r'.events)[j];
    DueIs(x, r'.seen(j + 1).now, handlers.pingInterval);
  }

  ghost predicate HasClient(s: seq<Conn>, client: Client) {
    exists j :: 0 <= j < |s| && s[j].client == client
  }

  /** Two rounds of the server: a client that was quiet when others had events, at clock t, is still there
      after an idle round less than the interval later, whatever the ping callback would answer. */
  method QuietClientStays(server: Server, r: Round, r': Round, ghost k: nat, ghost now: int) returns (exit: bool)
    requires server.Valid() && k < |server.table|
    requires server.table[k].item.events != 0 && server.table[k].client.status != Kill
    requires r.number > 0 && r'.number <= 0 && server.handlers.onping && server.handlers.pingInterval >= 1
    requires var e := r.events(k + 1); r.seen(k + 1).peek < 0 && !e.error && !e.invalid && !e.hangup
    requires forall j :: r'.seen(j).now == now
    requires now - r.seen(k + 1).now < 1000 * server.handlers.pingInterval
    modifies server, server.poll`len, server.poll.items, server.clients`len, server.clients.items
    ensures server.Valid()
    ensures !exit ==> HasClient(server.table, old(server.table[k]).client.(lastUpdated := r.seen(k + 1).now))
  {
    ghost var capacity, handlers := server.clients.items.Length, server.handlers;
    ghost var o := Outcome(server.table, server.ledger);
    EventsExplained(o, capacity, handlers, r, k);
    exit := server.PollEvents(r);
    if exit {
      return;
    }
    ghost var o' := Outcome(server.table, server.ledger);
    ghost var j := Kept(o, capacity, handlers, r, k);
    QuietThenIdle(o, capacity, handlers, r, r', k, j);
    exit := server.PollEvents(r');
    j := Kept(o', capacity, handlers, r', j);
  }

  /** What the listener adds: a client that is let in has the row it was accepted with, and every
      accepted descriptor is in the ledger once, with those refused and those lost for want of room. */
  lemma ArrivalIs(o: Outcome, capacity: nat, handlers: Handlers, r: Round)
    requires |o.table| <= capacity
    ensures var e := r.events(0); var a, l := Arrived(o, capacity, handlers, r), o.ledger;
      var accepts := !e.error && !e.hangup && !e.invalid && e.input && r.accepted >= 0;
      var enters := accepts && handlers.onconnect && r.answer != Kill;
      var one, none := multiset{r.accepted}, multiset{};
      && a.table == Reported(o.table, r.events) +
         (if enters && |o.table| < capacity
          then [Conn(PollItem(r.accepted, 1, Events(false, false, false, false)), Client(r.accepted, r.answer, r.now))]
          else [])
      && a.ledger.accepted == l.accepted + (if accepts then one else none)
      && a.ledger.refused == l.refused + (if accepts && !enters then one else none)
      && a.ledger.lost == l.lost + (if enters && |o.table| == capacity then one else none)
      && a.ledger == l.(accepted := a.ledger.accepted, refused := a.ledger.refused, lost := a.ledger.lost)
  {
  }
}
