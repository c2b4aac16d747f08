/** The server's poll array and client array, which stay aligned. */
module Servers {
  import opened Connections

  // ---------------------------------------------------------------- the two arrays

  class ServerPoll {
    const items: array<PollItem>
    var len: nat

    constructor (cap: nat)
      ensures fresh(items) && items.Length == cap && len == 0
    {
      items := new PollItem[cap](_ => PollItem(0, 0, QUIET));
      len := 0;
    }

    method Push(fd: int, events: nat) returns (index: int)
      requires len <= items.Length
      modifies `len, items
      ensures old(len) == items.Length ==> index == -1 && len == old(len)
      ensures old(len) < items.Length ==> index == old(len) && len == old(len) + 1
      ensures old(len) < items.Length ==> items[old(len)] == PollItem(fd, events, QUIET)
      ensures forall k :: 0 <= k < items.Length && k != old(len) ==> items[k] == old(items[k])
    {
      if len >= items.Length {
        return -1;
      }
      index := len;
      len := len + 1;
      items[index] := PollItem(fd, events, QUIET);
    }
  }

  class ClientPoll {
    const items: array<Client>
    var len: nat

    constructor (cap: nat)
      ensures fresh(items) && items.Length == cap && len == 0
    {
      items := new Client[cap](_ => Client(0, Kill, 0));
      len := 0;
    }

    method Push(client: Client) returns (index: int)
      requires len <= items.Length
      modifies `len, items
      ensures old(len) == items.Length ==> index == -1 && len == old(len)
      ensures old(len) < items.Length ==> index == old(len) && len == old(len) + 1
      ensures old(len) < items.Length ==> items[old(len)] == client
      ensures forall k :: 0 <= k < items.Length && k != old(len) ==> items[k] == old(items[k])
    {
      if len >= items.Length {
        return -1;
      }
      index := len;
      len := len + 1;
      items[index] := client;
    }
  }

  class Server {
    const fd: int
    const handlers: Handlers
    const poll: ServerPoll
    const clients: ClientPoll
    ghost var table: seq<Conn>
    ghost var ledger: Ledger

    /** The arrays hold the table, with the listener in front of the poll array. */
    ghost predicate Shape()
      reads this, poll, poll.items, clients, clients.items
    {
      && clients.len == |table| <= clients.items.Length
      && poll.len == |table| + 1 && poll.items.Length == clients.items.Length + 1
      && poll.items[0].fd == fd && poll.items[0].events == POLLIN
      && (forall i {:trigger clients.items[i]} :: 0 <= i < |table| ==> clients.items[i] == table[i].client)
      && (forall i {:trigger poll.items[i]} :: 1 <= i <= |table| ==> poll.items[i] == table[i - 1].item)
      && AllAligned(table)
    }

    ghost predicate Balanced(pending: multiset<int>)
      reads this
    {
      && ledger.Balances(multiset(Fds(table)), pending)
      && ledger.told == if handlers.ondisconnect then ledger.swept else multiset{}
    }

    /** The arrays and the ledger agree with the table. */
    ghost predicate Valid()
      reads this, poll, poll.items, clients, clients.items
    {
      Shape() && Balanced(multiset{})
    }

    constructor (fd: int, handlers: Handlers, maxConnections: nat)
      requires maxConnections >= 1
      ensures Valid() && table == [] && this.fd == fd && this.handlers == handlers
      ensures poll.items.Length == maxConnections && clients.items.Length == maxConnections - 1
      ensures fresh(poll) && fresh(poll.items) && fresh(clients) && fresh(clients.items)
    {
      this.fd, this.handlers := fd, handlers;
      poll := new ServerPoll(maxConnections);
      clients := new ClientPoll(maxConnections - 1);
      table := [];
      ledger := Ledger(multiset{}, multiset{}, multiset{}, multiset{}, multiset{}, multiset{});
      new;
      var index := poll.Push(fd, POLLIN);
    }

    /** Pushes a client to both arrays; either both take it or neither. */
    method PushBoth(client: Client) returns (taken: bool)
      requires Shape()
      modifies `table, poll`len, poll.items, clients`len, clients.items
      ensures Shape() && poll.items[0] == old(poll.items[0]) && taken == (|old(table)| < clients.items.Length)
      ensures table == if taken then old(table) + [Conn(PollItem(client.fd, POLLIN, QUIET), client)]
        else old(table)
    {
      var i := clients.Push(client);
      var j := poll.Push(client.fd, POLLIN);
      taken := i >= 0;
      if taken {
        table := table + [Conn(PollItem(client.fd, POLLIN, QUIET), client)];
      }
    }

    /** Asks the connect callback and enters the client, if there is room. */
    method HandleConnect(client: Client, answer: Status, now: int)
      returns (status: Status, updated: Client, ghost taken: bool)
      requires Shape()
      modifies `table, poll`len, poll.items, clients`len, clients.items
      ensures Shape() && poll.items[0] == old(poll.items[0])
      ensures status == if handlers.onconnect then answer else Kill
      ensures updated == if status == Kill then client else client.(status := status, lastUpdated := now)
      ensures taken == (status != Kill && |old(table)| < clients.items.Length)
      ensures table == if taken then old(table) + [Entered(client, answer, now)] else old(table)
    {
      taken := false;
      if handlers.onconnect {
        status := answer;
        if status != Kill {
          updated := client.(status := status, lastUpdated := now);
          taken := PushBoth(updated);
          return;
        }
      }
      return Kill, client, false;
    }

    /** Takes an accepted descriptor in, or closes it if the client is refused. */
    method Arrive(accepted: int, answer: Status, now: int)
      requires Valid()
      modifies this, poll`len, poll.items, clients`len, clients.items
      ensures Valid() && poll.items[0] == old(poll.items[0])
      ensures var joined := handlers.onconnect && answer != Kill;
        var room := |old(table)| < clients.items.Length;
        && table == (if joined && room
             then old(table) + [Entered(Client(accepted, Kill, 0), answer, now)]
             else old(table))
        && ledger ==
             if !joined then old(ledger).Accept(accepted).Refuse(accepted)
             else if !room then old(ledger).Accept(accepted).Lose(accepted)
             else old(ledger).Accept(accepted)
    {
      ghost var was := table;
      ArrivalBalances(ledger, multiset(Fds(table)), accepted);
      ledger := ledger.Accept(accepted);
      ghost var taken;
      var status, client;
      status, client, taken := HandleConnect(Client(accepted, Kill, 0), answer, now);
      if taken {
        JoinBalances(ledger, was, table[|was|]);
      } else if status == Kill {
        ledger := ledger.Refuse(accepted);
      } else {
        ledger := ledger.Lose(accepted);
      }
    }

    /** Looks at the listener: a fault ends the server, a waiting connection is accepted. The
        accepted descriptor is negative if accepting failed. */
    method AcceptConnections(accepted: int, answer: Status, now: int) returns (fault: bool)
      requires Valid()
      modifies this, poll`len, poll.items, clients`len, clients.items
      ensures Valid()
      ensures var e := old(poll.items[0].revents); var t := old(table);
        && fault == Faulty(e)
        && table == Joined(t, clients.items.Length, handlers, e, accepted, answer, now)
        && ledger == Served(old(ledger), |t| < clients.items.Length, handlers, e, accepted, answer)
      ensures poll.items[0] == old(poll.items[0])
    {
      var listener := poll.items[0];
      if listener.revents.error {
        return true;
      } else if listener.revents.hangup || listener.revents.invalid {
        return true;
      } else if listener.revents.input {
        if accepted >= 0 {
          Arrive(accepted, answer, now);
        }
      }
      fault := false;
    }

    /** The system reports events on every poll item. */
    method ReportEvents(events: nat -> Events)
      requires Valid()
      modifies `table, poll.items
      ensures Valid() && table == Reported(old(table), events) && poll.items[0].revents == events(0)
    {
      forall i | 0 <= i < poll.len {
        poll.items[i] := poll.items[i].(revents := events(i));
      }
      table := Reported(table, events);
      assert Fds(table) == Fds(old(table));
    }

    /** Clears the events of one row. */
    method Drop(index: nat)
      requires Shape() && 1 <= index < poll.len
      modifies `table, poll.items
      ensures Shape() && table == old(table)[index - 1 := Dropped(old(table)[index - 1])]
    {
      assert poll.items[index] == table[index - 1].item;
      poll.items[index] := poll.items[index].(events := 0);
      table := table[index - 1 := Dropped(table[index - 1])];
    }

    /** Stores the client of one row. */
    method Store(index: nat, client: Client)
      requires Shape() && 1 <= index < poll.len && client.fd == table[index - 1].client.fd
      modifies `table, clients.items
      ensures Shape() && table == old(table)[index - 1 := old(table)[index - 1].(client := client)]
    {
      clients.items[index - 1] := client;
      table := table[index - 1 := table[index - 1].(client := client)];
    }

    /** Stores the clock in one row. */
    method Touch(index: nat, now: int)
      requires Shape() && 1 <= index < poll.len
      modifies `table, clients.items
      ensures Shape() && table == old(table)[index - 1 := Touched(old(table)[index - 1], now)]
    {
      Store(index, clients.items[index - 1].(lastUpdated := now));
    }

    /** Asks the connect callback again for a client that was told to retry. */
    method Reconnect(index: nat, seen: Seen)
      requires Valid() && 1 <= index < poll.len
      requires seen.Reads(table[index - 1].item.revents)
      modifies this, poll`len, poll.items, clients`len, clients.items
      ensures Valid()
      ensures var c, t := old(table)[index - 1], old(table);
        if Reenters(c, seen, handlers) && |t| < clients.items.Length then
          && table == (t + [Again(c, seen)])[index - 1 := Retried(c, seen, handlers)]
          && ledger == old(ledger).Reenter(c.client.fd)
        else table == t[index - 1 := Retried(c, seen, handlers)] && ledger == old(ledger)
    {
      if clients.items[index - 1].status == Retry {
        ghost var was := table;
        ghost var taken := AskAgain(index, seen);
        if taken {
          ghost var fd := was[index - 1].client.fd;
          assert ledger.accepted + (ledger.reentered + multiset{fd})
              == ledger.accepted + ledger.reentered + multiset{fd};
          ledger := ledger.Reenter(fd);
          JoinBalances(ledger, was, Again(was[index - 1], seen));
        } else {
          assert was + [] == was;
        }
      } else {
        assert table == table[index - 1 := table[index - 1]];
      }
    }

    /** The table after the connect callback was asked. */
    method AskAgain(index: nat, seen: Seen) returns (ghost taken: bool)
      requires Shape() && 1 <= index < poll.len
      requires seen.Reads(table[index - 1].item.revents) && table[index - 1].client.status == Retry
      modifies `table, poll`len, poll.items, clients`len, clients.items
      ensures Shape()
      ensures var c := old(table)[index - 1];
        && taken == (Reenters(c, seen, handlers) && |old(table)| < clients.items.Length)
        && var again := if taken then [Again(c, seen)] else []; var t := old(table) + again;
           table == t[index - 1 := Retried(c, seen, handlers)] && Fds(table) == Fds(t)
    {
      var status, updated;
      status, updated, taken := HandleConnect(clients.items[index - 1], seen.connect, seen.connected);
      Store(index, updated);
      if status != Kill {
        Drop(index);
      }
    }

    /** Asks the message callback. */
    method Receive(index: nat, seen: Seen)
      requires Valid() && 1 <= index < poll.len
      modifies `table, poll.items, clients.items
      ensures Valid() && table == old(table)[index - 1 := Received(old(table)[index - 1], seen, handlers)]
    {
      if handlers.onmessage {
        Touch(index, 0);
        Touch(index, seen.now);
        if seen.answer == Kill {
          Drop(index);
        }
      }
      assert Fds(table) == Fds(old(table));
    }

    /** Serves a row with input. */
    method ServeInput(index: nat, seen: Seen)
      requires Valid() && 1 <= index < poll.len && seen.Reads(table[index - 1].item.revents)
      modifies this, poll`len, poll.items, clients`len, clients.items
      ensures Valid()
      ensures Outcome(table, ledger) ==
        MarkStep(old(Outcome(table, ledger)), index - 1, clients.items.Length, handlers, seen)
    {
      Reconnect(index, seen);
      Receive(index, seen);
    }

    /** Marks one row. */
    method MarkRow(index: nat, seen: Seen)
      requires Valid() && 1 <= index < poll.len
      modifies this, poll`len, poll.items, clients`len, clients.items
      ensures Valid()
      ensures Outcome(table, ledger) ==
        MarkStep(old(Outcome(table, ledger)), index - 1, clients.items.Length, handlers, seen)
    {
      ghost var was := table;
      var e := poll.items[index].revents;
      assert e == table[index - 1].item.revents;
      if seen.peek == 0 {
        Drop(index);
      } else if e.error || e.invalid {
        Drop(index);
      } else if e.hangup {
        Drop(index);
      } else if e.input && seen.peek > 0 {
        ServeInput(index, seen);
        return;
      } else {
        Touch(index, seen.now);
      }
      assert Fds(table) == Fds(was);
    }

    /** The mark loop. It runs on over the rows it enters. */
    method Mark(seen: nat -> Seen)
      requires Valid()
      modifies this, poll`len, poll.items, clients`len, clients.items
      ensures Valid()
      ensures Outcome(table, ledger) ==
        MarkFrom(old(Outcome(table, ledger)), 0, clients.items.Length, handlers, seen)
    {
      var index := 1;
      while index < poll.len
        invariant 1 <= index <= poll.len && Valid()
        invariant MarkFrom(Outcome(table, ledger), index - 1, clients.items.Length, handlers, seen)
               == MarkFrom(old(Outcome(table, ledger)), 0, clients.items.Length, handlers, seen)
        decreases clients.items.Length + 1 - index
      {
        MarkRow(index, seen(index));
        index := index + 1;
      }
    }

    /** The ping loop. */
    method Ping(seen: nat -> Seen)
      requires Valid()
      modifies `table, poll.items, clients.items
      ensures Valid() && table == PingedAll(old(table), seen, handlers.pingInterval)
    {
      ghost var was := table;
      var index := 1;
      while index < poll.len
        invariant 1 <= index <= poll.len && Shape() && |table| == |was|
        invariant forall i :: 0 <= i < |table| ==>
          table[i] == if i < index - 1
                      then Pinged(was[i], seen(i + 1).answer, seen(i + 1).now, handlers.pingInterval)
                      else was[i]
      {
        PingRow(index, seen(index).answer, seen(index).now);
        index := index + 1;
      }
      assert table == PingedAll(was, seen, handlers.pingInterval);
      assert Fds(table) == Fds(was);
    }

    /** Pings one client if it was silent for the interval. */
    method PingRow(index: nat, answer: Status, now: int)
      requires Shape() && 1 <= index < poll.len
      modifies `table, poll.items, clients.items
      ensures Shape()
      ensures table ==
        old(table)[index - 1 := Pinged(old(table)[index - 1], answer, now, handlers.pingInterval)]
    {
      var pfd, client := poll.items[index], clients.items[index - 1];
      assert pfd == table[index - 1].item;
      if Thousandths(now - client.lastUpdated) >= handlers.pingInterval {
        clients.items[index - 1] := client.(status := answer);
        if answer == Kill {
          poll.items[index] := pfd.(events := 0);
        }
        clients.items[index - 1] := client.(status := answer, lastUpdated := now);
      }
      table := table[index - 1 := Pinged(table[index - 1], answer, now, handlers.pingInterval)];
    }

    /** Moves the last row to a place. */
    method MoveLast(index: nat)
      requires Shape() && 1 <= index < poll.len
      modifies `table, poll`len, poll.items, clients`len, clients.items
      ensures Shape() && table == DropAt(old(table), index - 1)
    {
      poll.items[index] := poll.items[poll.len - 1];
      clients.items[index - 1] := clients.items[clients.len - 1];
      poll.len := poll.len - 1;
      clients.len := clients.len - 1;
      table := DropAt(table, index - 1);
    }

    /** Tells the callback, closes the descriptor and moves the last row here. */
    method Remove(index: nat)
      requires Valid() && 1 <= index < poll.len
      modifies this, poll`len, poll.items, clients`len, clients.items
      ensures Valid() && table == DropAt(old(table), index - 1)
      ensures ledger == Closed(old(ledger), old(table)[index - 1].client.fd, handlers.ondisconnect)
    {
      CloseBalances(ledger, table, index - 1, handlers.ondisconnect);
      CloseRow(index);
      MoveLast(index);
    }

    /** Tells the callback and closes the descriptor; the two arrays name the same one. */
    method CloseRow(index: nat)
      requires Shape() && 1 <= index < poll.len
      modifies `ledger
      ensures ledger == Closed(old(ledger), table[index - 1].client.fd, handlers.ondisconnect)
    {
      var pfd, current := poll.items[index], clients.items[index - 1];
      assert pfd == table[index - 1].item && table[index - 1].Aligned();
      if handlers.ondisconnect {
        ledger := ledger.Tell(current.fd);
      }
      ledger := ledger.Close(pfd.fd);
    }

    /** Removes a row if it is dead, or goes on to the next. */
    method SweepRow(index: nat) returns (next: nat)
      requires Valid() && 1 <= index < poll.len
      modifies this, poll`len, poll.items, clients`len, clients.items
      ensures Valid() && 1 <= next <= poll.len && poll.len - next < old(poll.len) - index
      ensures SweepClosing(table, next - 1, ledger, handlers.ondisconnect)
           == SweepClosing(old(table), index - 1, old(ledger), handlers.ondisconnect)
    {
      ghost var t, l := table, ledger;
      var dead := poll.items[index].events == 0 || clients.items[index - 1].status == Kill;
      assert dead == t[index - 1].Dead();
      if dead {
        SweepStep(t, index - 1, l, handlers.ondisconnect);
        Remove(index);
        next := index;
      } else {
        next := index + 1;
      }
    }

    /** Removes every dead row, by swapping with the last. */
    method SweepDead()
      requires Valid()
      modifies this, poll`len, poll.items, clients`len, clients.items
      ensures Valid() && table == Sweep(old(table), 0).kept
      ensures ledger == ClosedAll(old(ledger), Sweep(old(table), 0).removed, handlers.ondisconnect)
    {
      ghost var all := SweepClosing(table, 0, ledger, handlers.ondisconnect);
      LedgerOfSweep(table, 0, ledger, handlers.ondisconnect);
      var index := 1;
      while index < poll.len
        invariant 1 <= index <= poll.len && Valid()
        invariant SweepClosing(table, index - 1, ledger, handlers.ondisconnect) == all
        decreases poll.len - index
      {
        index := SweepRow(index);
      }
    }

    /** The first half of a round: serve events or pings. A fault of the listener ends the server. */
    method Serve(r: Round) returns (exit: bool)
      requires Valid()
      modifies this, poll`len, poll.items, clients`len, clients.items
      ensures Valid() && exit == r.Fatal()
      ensures !exit ==>
        Outcome(table, ledger) == Handled(old(Outcome(table, ledger)), clients.items.Length, handlers, r)
    {
      ReportEvents(r.events);
      if r.number > 0 {
        exit := AcceptConnections(r.accepted, r.answer, r.now);
        if exit {
          return;
        }
        Mark(r.seen);
      } else if handlers.onping {
        Ping(r.seen);
      }
      exit := false;
    }

    /** One round: serve, then sweep. No dead connection is left. */
    method PollEvents(r: Round) returns (exit: bool)
      requires Valid()
      modifies this, poll`len, poll.items, clients`len, clients.items
      ensures Valid() && exit == r.Fatal()
      ensures !exit ==>
        Outcome(table, ledger) == AfterRound(old(Outcome(table, ledger)), clients.items.Length, handlers, r)
      ensures !exit ==>
        forall k :: 0 <= k < |table| ==> table[k].item.events != 0 && table[k].client.status != Kill
    {
      exit := Serve(r);
      if !exit {
        SweepSeparates(table, 0);
        SweepDead();
      }
    }
  }

  /** Rounds, up to a fault of the listener. Every descriptor was closed or lost as often as it was
      accepted, less the times it is in the table, if and only if no row entered again in any round. In
      that case the table keeps distinct descriptors while the system only hands out free ones. No row
      enters again if no callback asks a client to retry. */
  method PollRounds(server: Server, rounds: seq<Round>) returns (done: nat, ghost trace: seq<Outcome>)
    requires server.Valid()
    modifies server, server.poll`len, server.poll.items, server.clients`len, server.clients.items
    ensures server.Valid() && done <= |rounds| && (done < |rounds| ==> rounds[done].Fatal())
    ensures |trace| == done + 1 && trace[0] == old(Outcome(server.table, server.ledger))
    ensures IsTrace(trace, server.clients.items.Length, server.handlers, rounds)
    ensures done == |rounds| ==> trace[done] == Outcome(server.table, server.ledger)
    ensures trace[0].ledger.reentered == multiset{} ==>
      ((forall fd :: OncePerAcceptance(trace[done], fd))
       <==> AllCalm(trace, server.clients.items.Length, server.handlers, rounds, done))
    ensures trace[0].ledger.reentered == multiset{} && Distinct(trace[0].table) && AllFresh(trace, rounds) ==>
      AllCalm(trace, server.clients.items.Length, server.handlers, rounds, done) ==> Distinct(trace[done].table)
    ensures NoRetry(trace[0].table) && AllNeverRetry(rounds, done) ==>
      AllCalm(trace, server.clients.items.Length, server.handlers, rounds, done)
  {
    ghost var capacity, handlers := server.clients.items.Length, server.handlers;
    done, trace := 0, [Outcome(server.table, server.ledger)];
    var exit := false;
    while done < |rounds| && !exit
      invariant done <= |rounds| && server.Valid() && |trace| == done + 1
      invariant trace[0] == old(Outcome(server.table, server.ledger))
      invariant !exit ==> trace[done] == Outcome(server.table, server.ledger)
      invariant exit ==> done < |rounds| && rounds[done].Fatal()
      invariant IsTrace(trace, capacity, handlers, rounds)
      decreases |rounds| - done, !exit
    {
      exit, trace := PollRound(server, rounds, done, trace);
      if !exit {
        done := done + 1;
      }
    }
    if NoRetry(trace[0].table) && AllNeverRetry(rounds, done) {
      NeverRetryingIsCalm(trace, capacity, handlers, rounds, done);
    }
    TraceReenters(trace, capacity, handlers, rounds, done);
    ClosedPerAcceptance(trace[done], handlers.ondisconnect);
    if trace[0].ledger.reentered == multiset{} && Distinct(trace[0].table) && AllFresh(trace, rounds)
       && AllCalm(trace, capacity, handlers, rounds, done) {
      TraceKeepsDistinct(trace, capacity, handlers, rounds, done);
    }
  }

  /** The next round of a trace. */
  method PollRound(server: Server, rounds: seq<Round>, done: nat, ghost trace: seq<Outcome>)
    returns (exit: bool, ghost longer: seq<Outcome>)
    requires server.Valid() && |trace| == done + 1 <= |rounds|
    requires trace[done] == Outcome(server.table, server.ledger)
    requires IsTrace(trace, server.clients.items.Length, server.handlers, rounds)
    modifies server, server.poll`len, server.poll.items, server.clients`len, server.clients.items
    ensures server.Valid() && exit == rounds[done].Fatal()
    ensures IsTrace(longer, server.clients.items.Length, server.handlers, rounds) && longer[0] == trace[0]
    ensures exit ==> longer == trace
    ensures !exit ==> longer == trace + [Outcome(server.table, server.ledger)]
  {
    longer := trace;
    exit := server.PollEvents(rounds[done]);
    if !exit {
      longer := Extended(trace, server.clients.items.Length, server.handlers, rounds,
                         Outcome(server.table, server.ledger));
    }
  }

  lemma Extended(trace: seq<Outcome>, capacity: nat, handlers: Handlers, rounds: seq<Round>, o: Outcome)
    returns (longer: seq<Outcome>)
    requires IsTrace(trace, capacity, handlers, rounds) && |trace| <= |rounds|
    requires |trace[|trace| - 1].table| <= capacity && o.Balanced(handlers.ondisconnect)
    requires o == AfterRound(trace[|trace| - 1], capacity, handlers, rounds[|trace| - 1])
    ensures longer == trace + [o] && IsTrace(longer, capacity, handlers, rounds)
  {
    longer := trace + [o];
    forall k | 0 <= k < |trace| ensures Follows(longer, capacity, handlers, rounds, k) {
      assert k < |trace| - 1 ==> Follows(trace, capacity, handlers, rounds, k);
    }
  }
}
