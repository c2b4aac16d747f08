/** The rows of the server's connection table, and what a round does to them. */
module Connections {
  datatype Status = Kill | KeepAlive | Retry

  /** The event bits the system reports for a poll item. */
  datatype Events = Events(input: bool, hangup: bool, error: bool, invalid: bool)

  const QUIET := Events(false, false, false, false)
  const POLLIN: nat := 1

  datatype PollItem = PollItem(fd: int, events: nat, revents: Events)

  datatype Client = Client(fd: int, status: Status, lastUpdated: int)

  /** One row of the table: a poll item and the client at the same place. */
  datatype Conn = Conn(item: PollItem, client: Client) {
    predicate Dead() {
      item.events == 0 || client.status == Kill
    }

    predicate Aligned() {
      item.fd == client.fd
    }
  }

  // ---------------------------------------------------------------- swap with the last

  /** A sequence without the element at i, its place taken by the last one. */
  function DropAt<T>(s: seq<T>, i: nat): (r: seq<T>)
    requires i < |s|
    ensures |r| == |s| - 1
  {
    s[i := s[|s| - 1]][..|s| - 1]
  }

  lemma DropAtCounts<T>(s: seq<T>, i: nat)
    requires i < |s|
    ensures multiset(DropAt(s, i)) == multiset(s) - multiset{s[i]}
  {
    var last := |s| - 1;
    assert s == s[..last] + [s[last]];
    assert i < last ==> s[i := s[last]][..last] == s[..last][i := s[last]];
  }

  datatype Swept = Swept(kept: seq<Conn>, removed: seq<Conn>)

  /** The sweep from place i on. */
  function Sweep(s: seq<Conn>, i: nat): Swept
    requires i <= |s|
    decreases |s| - i
  {
    if i == |s| then Swept(s, [])
    else if s[i].Dead() then
      var rest := Sweep(DropAt(s, i), i);
      Swept(rest.kept, [s[i]] + rest.removed)
    else Sweep(s, i + 1)
  }

  /** The rows that are dead, or those that are not, in their order. */
  function Rows(s: seq<Conn>, dead: bool): (r: seq<Conn>)
  {
    if s == [] then []
    else if s[0].Dead() == dead then [s[0]] + Rows(s[1..], dead)
    else Rows(s[1..], dead)
  }

  lemma InFront(x: Conn, r: seq<Conn>)
    ensures multiset([x] + r) == multiset{x} + multiset(r)
  {
  }

  /** The sweep loses no row and makes none up. */
  lemma {:induction false} SweepConserves(s: seq<Conn>, i: nat)
    requires i <= |s|
    ensures multiset(Sweep(s, i).kept) + multiset(Sweep(s, i).removed) == multiset(s)
    decreases |s| - i
  {
    if i == |s| {
    } else if s[i].Dead() {
      var t, x := DropAt(s, i), s[i];
      var rest := Sweep(t, i);
      SweepConserves(t, i);
      DropAtCounts(s, i);
      InFront(x, rest.removed);
      assert x in multiset(s);
      Restored(multiset(s), x, multiset(rest.kept), multiset(rest.removed));
    } else {
      SweepConserves(s, i + 1);
    }
  }

  lemma Restored(m: multiset<Conn>, x: Conn, kept: multiset<Conn>, removed: multiset<Conn>)
    requires x in m && kept + removed == m - multiset{x}
    ensures kept + (multiset{x} + removed) == m
  {
    forall c: Conn ensures (kept + (multiset{x} + removed))[c] == m[c] {
      assert (kept + removed)[c] == (m - multiset{x})[c];
    }
  }

  /** The sweep keeps what it has passed, and behind that only live rows; it removes only dead ones. */
  lemma {:induction false} SweepSeparates(s: seq<Conn>, i: nat)
    requires i <= |s|
    ensures s[..i] <= Sweep(s, i).kept
    ensures forall k :: i <= k < |Sweep(s, i).kept| ==> !Sweep(s, i).kept[k].Dead()
    ensures forall k :: 0 <= k < |Sweep(s, i).removed| ==> Sweep(s, i).removed[k].Dead()
    decreases |s| - i
  {
    if i == |s| {
    } else if s[i].Dead() {
      var t := DropAt(s, i);
      SweepSeparates(t, i);
      assert t[..i] == s[..i];
    } else {
      SweepSeparates(s, i + 1);
      assert s[..i] == s[..i + 1][..i] && s[..i + 1][i] == s[i];
    }
  }

  /** Rows that all have the other fate count for nothing among those of one fate. */
  lemma {:induction false} RowsOf(s: seq<Conn>, dead: bool, c: Conn)
    ensures multiset(Rows(s, dead))[c] == if c.Dead() == dead then multiset(s)[c] else 0
  {
    if s != [] {
      RowsOf(s[1..], dead, c);
      assert s == [s[0]] + s[1..];
      assert multiset([s[0]] + s[1..]) == multiset{s[0]} + multiset(s[1..]);
      var r := Rows(s[1..], dead);
      assert multiset([s[0]] + r) == multiset{s[0]} + multiset(r);
    }
  }

  lemma CountIn(s: seq<Conn>, dead: bool, c: Conn)
    requires forall k :: 0 <= k < |s| ==> s[k].Dead() == dead
    ensures c.Dead() != dead ==> multiset(s)[c] == 0
  {
    if c in s {
      var k :| 0 <= k < |s| && s[k] == c;
    }
  }

  /** What a whole sweep keeps are the live rows, what it removes the dead ones, each as often as it
      was there. */
  lemma SweepIsExact(s: seq<Conn>)
    ensures multiset(Sweep(s, 0).kept) == multiset(Rows(s, false))
    ensures multiset(Sweep(s, 0).removed) == multiset(Rows(s, true))
  {
    var w := Sweep(s, 0);
    SweepSeparates(s, 0);
    SweepConserves(s, 0);
    forall c: Conn
      ensures multiset(w.kept)[c] == multiset(Rows(s, false))[c]
      ensures multiset(w.removed)[c] == multiset(Rows(s, true))[c]
    {
      RowsOf(s, false, c);
      RowsOf(s, true, c);
      CountIn(w.kept, false, c);
      CountIn(w.removed, true, c);
      assert multiset(s)[c] == multiset(w.kept)[c] + multiset(w.removed)[c];
    }
  }

  // ---------------------------------------------------------------- events on the rows

  /** Which callbacks are set, and how often to ping. */
  datatype Handlers = Handlers(onconnect: bool, ondisconnect: bool, onmessage: bool, onping: bool,
                               pingInterval: nat)

  /** What the loops see at one row: the result of peeking, what the connect callback answers a
      client that retries and the clock then, what the message or ping callback answers, and the clock. */
  datatype Seen = Seen(peek: int, connect: Status, connected: int, answer: Status, now: int) {
    /** The peer is gone or the system reports a fault. */
    predicate Fails(e: Events) {
      peek == 0 || e.error || e.invalid || e.hangup
    }

    /** There is input. Faults are looked at before it. */
    predicate Reads(e: Events) {
      !Fails(e) && e.input && peek > 0
    }
  }

  /** The connect callback lets a client in that was told to retry. Its row enters the table again. */
  predicate Reenters(c: Conn, seen: Seen, handlers: Handlers) {
    seen.Reads(c.item.revents) && c.client.status == Retry && handlers.onconnect && seen.connect != Kill
  }

  /** A row is cleared if it fails, if it enters again, or if the message callback asks for it. */
  predicate Cleared(c: Conn, seen: Seen, handlers: Handlers) {
    seen.Fails(c.item.revents) || Reenters(c, seen, handlers)
    || (seen.Reads(c.item.revents) && handlers.onmessage && seen.answer == Kill)
  }

  /** The row that is entered for a client let in. */
  function Entered(client: Client, answer: Status, now: int): Conn {
    Conn(PollItem(client.fd, POLLIN, QUIET), client.(status := answer, lastUpdated := now))
  }

  function Again(c: Conn, seen: Seen): Conn {
    Entered(c.client, seen.connect, seen.connected)
  }

  function Dropped(c: Conn): Conn {
    c.(item := c.item.(events := 0))
  }

  function Touched(c: Conn, now: int): Conn {
    c.(client := c.client.(lastUpdated := now))
  }

  /** A row after the connect callback, if its client retries. */
  function Retried(c: Conn, seen: Seen, handlers: Handlers): Conn {
    if Reenters(c, seen, handlers) then Dropped(c.(client := Again(c, seen).client)) else c
  }

  /** A row after the message callback. */
  function Received(c: Conn, seen: Seen, handlers: Handlers): Conn {
    if !handlers.onmessage then c
    else if seen.answer == Kill then Dropped(Touched(c, seen.now))
    else Touched(c, seen.now)
  }

  /** What the mark loop may make of a row, in terms of the events and what was seen: a row that fails
      is only cleared; one that enters again has the status of the connect callback, too; the clock is
      stored in all that do not fail, except those that read without a message callback. */
  ghost predicate Explained(c: Conn, seen: Seen, handlers: Handlers, r: Conn) {
    var e := c.item.revents;
    var fails := seen.peek == 0 || e.error || e.invalid || e.hangup;
    var input := !fails && e.input && seen.peek > 0;
    var back := input && c.client.status == Retry && handlers.onconnect && seen.connect != Kill;
    var cleared := fails || back || (input && handlers.onmessage && seen.answer == Kill);
    && r.item == PollItem(c.item.fd, if cleared then 0 else c.item.events, e)
    && r.client.fd == c.client.fd
    && r.client.status == (if back then seen.connect else c.client.status)
    && r.client.lastUpdated ==
       (if !fails && !(input && !handlers.onmessage) then seen.now
        else if back then seen.connected
        else c.client.lastUpdated)
  }

  /** A row after the mark loop. */
  function Marked(c: Conn, seen: Seen, handlers: Handlers): (r: Conn)
    ensures Explained(c, seen, handlers, r)
    ensures r.item.fd == c.item.fd && r.client.fd == c.client.fd
    ensures r.Dead() <==> c.Dead() || Cleared(c, seen, handlers)
  {
    if seen.Fails(c.item.revents) then Dropped(c)
    else if seen.Reads(c.item.revents) then Received(Retried(c, seen, handlers), seen, handlers)
    else Touched(c, seen.now)
  }

  /** Division in the way of the source, towards zero. */
  function Thousandths(d: int): int {
    if d >= 0 then d / 1000 else -(-d / 1000)
  }

  /** The client was silent for the interval. */
  predicate Due(c: Conn, now: int, interval: nat) {
    Thousandths(now - c.client.lastUpdated) >= interval
  }

  /** A row after the ping loop. */
  function Pinged(c: Conn, answer: Status, now: int, interval: nat): (r: Conn)
    ensures r.item.fd == c.item.fd && r.client.fd == c.client.fd
    ensures !Due(c, now, interval) ==> r == c
    ensures Due(c, now, interval) ==> (r.Dead() <==> c.item.events == 0 || answer == Kill)
    ensures Due(c, now, interval) ==> r.client.lastUpdated == now && r.client.status == answer
  {
    if !Due(c, now, interval) then c
    else Conn(if answer == Kill then c.item.(events := 0) else c.item,
              c.client.(status := answer, lastUpdated := now))
  }

  function Fds(s: seq<Conn>): seq<int> {
    seq(|s|, i requires 0 <= i < |s| => s[i].client.fd)
  }

  ghost predicate AllAligned(s: seq<Conn>) {
    forall i :: 0 <= i < |s| ==> s[i].Aligned()
  }

  /** All rows with the events the system reports; the listener's are the first. */
  function Reported(s: seq<Conn>, events: nat -> Events): seq<Conn> {
    seq(|s|, i requires 0 <= i < |s| => s[i].(item := s[i].item.(revents := events(i + 1))))
  }

  function PingedAll(s: seq<Conn>, seen: nat -> Seen, interval: nat): seq<Conn> {
    seq(|s|, i requires 0 <= i < |s| => Pinged(s[i], seen(i + 1).answer, seen(i + 1).now, interval))
  }

  /** What became of every descriptor ever accepted, and which ones entered the table again, counted
      with repetition. */
  datatype Ledger = Ledger(accepted: multiset<int>, reentered: multiset<int>, refused: multiset<int>,
                           lost: multiset<int>, swept: multiset<int>, told: multiset<int>) {
    function Accept(fd: int): Ledger {
      this.(accepted := accepted + multiset{fd})
    }

    function Reenter(fd: int): Ledger {
      this.(reentered := reentered + multiset{fd})
    }

    function Refuse(fd: int): Ledger {
      this.(refused := refused + multiset{fd})
    }

    function Lose(fd: int): Ledger {
      this.(lost := lost + multiset{fd})
    }

    function Tell(fd: int): Ledger {
      this.(told := told + multiset{fd})
    }

    function Close(fd: int): Ledger {
      this.(swept := swept + multiset{fd})
    }

    /** Every descriptor was refused, dropped or swept, or is in the table or pending, as often as it
        was accepted or entered again. */
    ghost predicate Balances(open: multiset<int>, pending: multiset<int>) {
      accepted + reentered == refused + lost + swept + open + pending
    }
  }

  datatype Outcome = Outcome(table: seq<Conn>, ledger: Ledger) {
    /** The ledger balances with the table, and it says who was told. */
    ghost predicate Balanced(tell: bool) {
      && ledger.Balances(multiset(Fds(table)), multiset{})
      && ledger.told == if tell then ledger.swept else multiset{}
    }
  }

  /** The table after the listener was served: with the new client behind, if one was accepted, let
      in by the callback and there is room. */
  function Joined(t: seq<Conn>, capacity: nat, handlers: Handlers, e: Events, accepted: int,
                  answer: Status, now: int): seq<Conn> {
    if Waits(e, accepted) && handlers.onconnect && answer != Kill && |t| < capacity
    then t + [Entered(Client(accepted, Kill, 0), answer, now)]
    else t
  }

  predicate Faulty(e: Events) {
    e.error || e.hangup || e.invalid
  }

  predicate Waits(e: Events, accepted: int) {
    !Faulty(e) && e.input && accepted >= 0
  }

  /** The ledger after the listener was served. */
  function Served(l: Ledger, room: bool, handlers: Handlers, e: Events,
                  accepted: int, answer: Status): Ledger {
    if !Waits(e, accepted) then l
    else if !handlers.onconnect || answer == Kill then l.Accept(accepted).Refuse(accepted)
    else if !room then l.Accept(accepted).Lose(accepted)
    else l.Accept(accepted)
  }

  /** What becomes of table and ledger when row i is marked. */
  function MarkStep(o: Outcome, i: nat, capacity: nat, handlers: Handlers, seen: Seen): Outcome
    requires i < |o.table|
  {
    var c := o.table[i];
    var t := o.table[i := Marked(c, seen, handlers)];
    if Reenters(c, seen, handlers) && |t| < capacity
    then Outcome(t + [Again(c, seen)], o.ledger.Reenter(c.client.fd))
    else Outcome(t, o.ledger)
  }

  /** The mark loop from row i on. It comes to the rows it has entered, too. */
  function MarkFrom(o: Outcome, i: nat, capacity: nat, handlers: Handlers, seen: nat -> Seen): (r: Outcome)
    requires i <= |o.table| <= capacity
    ensures |o.table| <= |r.table| <= capacity
    decreases capacity - i
  {
    if i == |o.table| then o
    else MarkFrom(MarkStep(o, i, capacity, handlers, seen(i + 1)), i + 1, capacity, handlers, seen)
  }

  /** No row from i on enters again, or there is no room for it. */
  ghost predicate Calm(s: seq<Conn>, i: nat, capacity: nat, handlers: Handlers, seen: nat -> Seen) {
    |s| == capacity || forall k :: i <= k < |s| ==> !Reenters(s[k], seen(k + 1), handlers)
  }

  /** Marking adds nothing to the ledger but the descriptors that enter again, and none of these if and
      only if it is calm. */
  lemma {:induction false} MarkReenters(o: Outcome, i: nat, capacity: nat, handlers: Handlers,
                                        seen: nat -> Seen)
    requires i <= |o.table| <= capacity
    ensures var r := MarkFrom(o, i, capacity, handlers, seen);
      && o.ledger.reentered <= r.ledger.reentered
      && r.ledger == o.ledger.(reentered := r.ledger.reentered)
      && (r.ledger.reentered == o.ledger.reentered <==> Calm(o.table, i, capacity, handlers, seen))
    decreases capacity - i
  {
    if i < |o.table| {
      var s := MarkStep(o, i, capacity, handlers, seen(i + 1));
      MarkReenters(s, i + 1, capacity, handlers, seen);
      StepReenters(o, i, capacity, handlers, seen);
      Between(o.ledger.reentered, s.ledger.reentered, MarkFrom(o, i, capacity, handlers, seen).ledger.reentered);
    }
  }

  /** The same of one row. */
  lemma StepReenters(o: Outcome, i: nat, capacity: nat, handlers: Handlers, seen: nat -> Seen)
    requires i < |o.table| <= capacity
    ensures var s := MarkStep(o, i, capacity, handlers, seen(i + 1));
      && o.ledger.reentered <= s.ledger.reentered
      && s.ledger == o.ledger.(reentered := s.ledger.reentered)
      && (Calm(o.table, i, capacity, handlers, seen)
          <==> s.ledger.reentered == o.ledger.reentered && Calm(s.table, i + 1, capacity, handlers, seen))
  {
    var s := MarkStep(o, i, capacity, handlers, seen(i + 1));
    if Reenters(o.table[i], seen(i + 1), handlers) && |o.table| < capacity {
      Grows(o.ledger.reentered, o.table[i].client.fd, s.ledger.reentered);
      assert !Calm(o.table, i, capacity, handlers, seen);
    } else {
      assert forall k :: i < k < |o.table| ==> s.table[k] == o.table[k];
      CalmStep(o.table, s.table, i, capacity, handlers, seen);
    }
  }

  lemma Between(a: multiset<int>, b: multiset<int>, c: multiset<int>)
    requires a <= b <= c
    ensures a <= c && (a == c <==> a == b && b == c)
  {
    if a == c {
      assert b <= a;
    }
  }

  lemma CalmStep(s: seq<Conn>, t: seq<Conn>, i: nat, capacity: nat, handlers: Handlers, seen: nat -> Seen)
    requires i < |s| == |t| && forall k :: i < k < |s| ==> t[k] == s[k]
    requires |s| < capacity ==> !Reenters(s[i], seen(i + 1), handlers)
    ensures |s| <= capacity ==> (Calm(s, i, capacity, handlers, seen) <==> Calm(t, i + 1, capacity, handlers, seen))
  {
    if |s| < capacity && Calm(t, i + 1, capacity, handlers, seen) {
      forall k | i <= k < |s| ensures !Reenters(s[k], seen(k + 1), handlers) {
        assert k > i ==> t[k] == s[k];
      }
    }
  }

  lemma Grows(m: multiset<int>, fd: int, n: multiset<int>)
    requires m + multiset{fd} <= n
    ensures m <= n && m != n
  {
    assert n[fd] > m[fd];
  }

  /** The rows that were there are marked one by one; if it is calm they are all. */
  lemma {:induction false} MarkRows(o: Outcome, i: nat, capacity: nat, handlers: Handlers,
                                    seen: nat -> Seen)
    requires i <= |o.table| <= capacity
    ensures var t := MarkFrom(o, i, capacity, handlers, seen).table;
      && t[..i] == o.table[..i]
      && (forall k :: i <= k < |o.table| ==> t[k] == Marked(o.table[k], seen(k + 1), handlers))
      && (Calm(o.table, i, capacity, handlers, seen) ==> |t| == |o.table|)
    decreases capacity - i
  {
    if i < |o.table| {
      var s := MarkStep(o, i, capacity, handlers, seen(i + 1));
      MarkRows(s, i + 1, capacity, handlers, seen);
      var t := MarkFrom(s, i + 1, capacity, handlers, seen).table;
      assert t[..i] == t[..i + 1][..i] && s.table[..i + 1][..i] == o.table[..i];
      assert t[i] == t[..i + 1][i] == s.table[i];
      forall k | i < k < |o.table| ensures t[k] == Marked(o.table[k], seen(k + 1), handlers) {
        assert s.table[k] == o.table[k];
      }
    }
  }

  /** The first row that enters again does so behind the others. */
  lemma {:induction false} MarkFirst(o: Outcome, i: nat, k: nat, capacity: nat, handlers: Handlers,
                                     seen: nat -> Seen)
    requires i <= k < |o.table| < capacity && Reenters(o.table[k], seen(k + 1), handlers)
    requires forall j :: i <= j < k ==> !Reenters(o.table[j], seen(j + 1), handlers)
    ensures var t := MarkFrom(o, i, capacity, handlers, seen).table; var n := |o.table|;
      n < |t| && t[n] == Marked(Again(o.table[k], seen(k + 1)), seen(n + 1), handlers)
    decreases k - i
  {
    var s := MarkStep(o, i, capacity, handlers, seen(i + 1));
    if i == k {
      MarkRows(s, i + 1, capacity, handlers, seen);
    } else {
      MarkFirst(s, i + 1, k, capacity, handlers, seen);
    }
  }

  // ---------------------------------------------------------------- a round

  /** What comes from outside in one round. */
  datatype Round = Round(number: int, events: nat -> Events, accepted: int, answer: Status, now: int,
                         seen: nat -> Seen) {
    /** The listener reports a fault, which ends the server. */
    predicate Fatal() {
      number > 0 && Faulty(events(0))
    }
  }

  /** Table and ledger before the mark loop of a round with events. */
  function Arrived(o: Outcome, capacity: nat, handlers: Handlers, r: Round): (a: Outcome)
    requires |o.table| <= capacity
    ensures |o.table| <= |a.table| <= capacity
  {
    Outcome(Joined(Reported(o.table, r.events), capacity, handlers, r.events(0), r.accepted, r.answer, r.now),
            Served(o.ledger, |o.table| < capacity, handlers, r.events(0), r.accepted, r.answer))
  }

  /** Table and ledger before the sweep of a round. */
  function Handled(o: Outcome, capacity: nat, handlers: Handlers, r: Round): (h: Outcome)
    requires |o.table| <= capacity
    ensures |h.table| <= capacity
  {
    if r.number > 0 then MarkFrom(Arrived(o, capacity, handlers, r), 0, capacity, handlers, r.seen)
    else if handlers.onping then
      Outcome(PingedAll(Reported(o.table, r.events), r.seen, handlers.pingInterval), o.ledger)
    else Outcome(Reported(o.table, r.events), o.ledger)
  }

  /** The ledger after one row was removed. */
  function Closed(l: Ledger, fd: int, tell: bool): Ledger {
    (if tell then l.Tell(fd) else l).Close(fd)
  }

  function ClosedAll(l: Ledger, rows: seq<Conn>, tell: bool): Ledger
    decreases |rows|
  {
    if rows == [] then l else ClosedAll(Closed(l, rows[0].client.fd, tell), rows[1..], tell)
  }

  /** An accepted descriptor is pending, and no longer once it is refused or lost. */
  lemma ArrivalBalances(l: Ledger, open: multiset<int>, fd: int)
    requires l.Balances(open, multiset{})
    ensures l.Accept(fd).Balances(open, multiset{fd})
    ensures l.Accept(fd).Refuse(fd).Balances(open, multiset{})
    ensures l.Accept(fd).Lose(fd).Balances(open, multiset{})
  {
    assert l.accepted + multiset{fd} + l.reentered == l.accepted + l.reentered + multiset{fd};
  }

  lemma JoinBalances(l: Ledger, s: seq<Conn>, c: Conn)
    requires l.Balances(multiset(Fds(s)), multiset{c.client.fd})
    ensures l.Balances(multiset(Fds(s + [c])), multiset{})
  {
    assert Fds(s + [c]) == Fds(s) + [c.client.fd];
  }

  lemma CloseBalances(l: Ledger, s: seq<Conn>, i: nat, tell: bool)
    requires i < |s| && l.Balances(multiset(Fds(s)), multiset{})
    requires l.told == if tell then l.swept else multiset{}
    ensures var r := Closed(l, s[i].client.fd, tell);
      && r.Balances(multiset(Fds(DropAt(s, i))), multiset{})
      && r.told == if tell then r.swept else multiset{}
  {
    assert Fds(DropAt(s, i)) == DropAt(Fds(s), i);
    DropAtCounts(Fds(s), i);
    assert Fds(s)[i] in multiset(Fds(s));
  }

  /** The sweep from place i on, with the ledger. */
  function SweepClosing(s: seq<Conn>, i: nat, l: Ledger, tell: bool): Outcome
    requires i <= |s|
    decreases |s| - i
  {
    if i == |s| then Outcome(s, l)
    else if s[i].Dead() then SweepClosing(DropAt(s, i), i, Closed(l, s[i].client.fd, tell), tell)
    else SweepClosing(s, i + 1, l, tell)
  }

  lemma SweepStep(s: seq<Conn>, i: nat, l: Ledger, tell: bool)
    requires i < |s| && s[i].Dead()
    ensures SweepClosing(s, i, l, tell) == SweepClosing(DropAt(s, i), i, Closed(l, s[i].client.fd, tell), tell)
  {
  }

  lemma {:induction false} LedgerOfSweep(s: seq<Conn>, i: nat, l: Ledger, tell: bool)
    requires i <= |s|
    ensures SweepClosing(s, i, l, tell) == Outcome(Sweep(s, i).kept, ClosedAll(l, Sweep(s, i).removed, tell))
    decreases |s| - i
  {
    if i == |s| {
    } else if s[i].Dead() {
      LedgerOfSweep(DropAt(s, i), i, Closed(l, s[i].client.fd, tell), tell);
      var rest := Sweep(DropAt(s, i), i).removed;
      assert ([s[i]] + rest)[1..] == rest;
    } else {
      LedgerOfSweep(s, i + 1, l, tell);
    }
  }

  lemma {:induction false} ClosedAllCounts(l: Ledger, rows: seq<Conn>, tell: bool)
    ensures var r := ClosedAll(l, rows, tell); var gone := multiset(Fds(rows));
      && r.swept == l.swept + gone && r.told == (if tell then l.told + gone else l.told)
      && r == l.(swept := r.swept, told := r.told)
    decreases |rows|
  {
    if rows != [] {
      var fd := rows[0].client.fd;
      ClosedAllCounts(Closed(l, fd, tell), rows[1..], tell);
      assert Fds(rows) == [fd] + Fds(rows[1..]);
      assert multiset(Fds(rows)) == multiset{fd} + multiset(Fds(rows[1..]));
    }
  }

  /** The order of rows does not matter for the count of their descriptors. */
  lemma {:induction false} FdsOfSame(a: seq<Conn>, b: seq<Conn>)
    requires multiset(a) == multiset(b)
    ensures multiset(Fds(a)) == multiset(Fds(b))
    decreases |a|
  {
    assert |a| == |multiset(a)| == |multiset(b)| == |b|;
    if a != [] {
      assert a[0] in multiset(b);
      var k :| 0 <= k < |b| && b[k] == a[0];
      DropAtCounts(a, 0);
      DropAtCounts(b, k);
      FdsOfSame(DropAt(a, 0), DropAt(b, k));
      FdsDrop(a, 0);
      FdsDrop(b, k);
    }
  }

  lemma FdsDrop(s: seq<Conn>, i: nat)
    requires i < |s|
    ensures multiset(Fds(s)) == multiset(Fds(DropAt(s, i))) + multiset{s[i].client.fd}
  {
    assert Fds(DropAt(s, i)) == DropAt(Fds(s), i);
    DropAtCounts(Fds(s), i);
    assert Fds(s)[i] in multiset(Fds(s));
  }

  ghost predicate Distinct(s: seq<Conn>) {
    forall i, j :: 0 <= i < j < |s| ==> s[i].client.fd != s[j].client.fd
  }

  lemma FdsInFront(x: Conn, r: seq<Conn>)
    ensures multiset(Fds([x] + r)) == multiset{x.client.fd} + multiset(Fds(r))
  {
    assert Fds([x] + r) == [x.client.fd] + Fds(r);
  }

  lemma {:induction false} NoSuchFd(s: seq<Conn>, dead: bool, fd: int)
    requires forall k :: 0 <= k < |s| ==> s[k].client.fd != fd
    ensures multiset(Fds(Rows(s, dead)))[fd] == 0
  {
    if s != [] {
      NoSuchFd(s[1..], dead, fd);
      FdsInFront(s[0], Rows(s[1..], dead));
    }
  }

  lemma {:induction false} FdOfRow(s: seq<Conn>, dead: bool, k: nat)
    requires Distinct(s) && k < |s|
    ensures multiset(Fds(Rows(s, dead)))[s[k].client.fd] == if s[k].Dead() == dead then 1 else 0
  {
    FdsInFront(s[0], Rows(s[1..], dead));
    if k == 0 {
      NoSuchFd(s[1..], dead, s[0].client.fd);
    } else {
      FdOfRow(s[1..], dead, k - 1);
    }
  }

  /** With distinct descriptors, a sweep closes each dead connection once, tells the callback about it
      once, and leaves the others open. */
  lemma ClosedOnce(s: seq<Conn>, l: Ledger, tell: bool, k: nat)
    requires Distinct(s) && k < |s|
    ensures var r := ClosedAll(l, Sweep(s, 0).removed, tell); var fd := s[k].client.fd;
      var dead := s[k].item.events == 0 || s[k].client.status == Kill;
      && r.swept[fd] == l.swept[fd] + (if dead then 1 else 0)
      && r.told[fd] == l.told[fd] + (if dead && tell then 1 else 0)
  {
    SweepIsExact(s);
    FdsOfSame(Sweep(s, 0).removed, Rows(s, true));
    ClosedAllCounts(l, Sweep(s, 0).removed, tell);
    FdOfRow(s, true, k);
  }

  lemma {:induction false} SweepKeepsDistinct(s: seq<Conn>, i: nat)
    requires i <= |s| && Distinct(s)
    ensures Distinct(Sweep(s, i).kept)
    decreases |s| - i
  {
    if i == |s| {
    } else if s[i].Dead() {
      var t := DropAt(s, i);
      assert forall k :: 0 <= k < |t| ==> t[k] == if k == i then s[|s| - 1] else s[k];
      SweepKeepsDistinct(t, i);
    } else {
      SweepKeepsDistinct(s, i + 1);
    }
  }

  /** Descriptors stay distinct over a calm round if the system hands out one that is not in the table. */
  lemma RoundKeepsDistinct(o: Outcome, capacity: nat, handlers: Handlers, r: Round)
    requires |o.table| <= capacity && RoundCalm(o, capacity, handlers, r)
    requires Distinct(o.table) && IsNew(o.table, r.accepted)
    ensures Distinct(Handled(o, capacity, handlers, r).table)
    ensures Distinct(AfterRound(o, capacity, handlers, r).table)
  {
    var t, h := o.table, Handled(o, capacity, handlers, r).table;
    if r.number > 0 {
      MarkRows(Arrived(o, capacity, handlers, r), 0, capacity, handlers, r.seen);
    }
    assert forall k :: 0 <= k < |t| ==> h[k].client.fd == t[k].client.fd;
    assert |h| <= |t| + 1 && (|h| == |t| + 1 ==> h[|t|].client.fd == r.accepted);
    SweepKeepsDistinct(h, 0);
  }

  /** Table and ledger after a round. */
  function AfterRound(o: Outcome, capacity: nat, handlers: Handlers, r: Round): (a: Outcome)
    requires |o.table| <= capacity
  {
    var h := Handled(o, capacity, handlers, r);
    Outcome(Sweep(h.table, 0).kept, ClosedAll(h.ledger, Sweep(h.table, 0).removed, handlers.ondisconnect))
  }

  ghost predicate IsNew(s: seq<Conn>, fd: int) {
    forall k :: 0 <= k < |s| ==> s[k].client.fd != fd
  }

  /** No row enters again in the round. */
  ghost predicate RoundCalm(o: Outcome, capacity: nat, handlers: Handlers, r: Round)
    requires |o.table| <= capacity
  {
    r.number > 0 ==> Calm(Arrived(o, capacity, handlers, r).table, 0, capacity, handlers, r.seen)
  }

  /** A round enters descriptors again unless it is calm. */
  lemma RoundReenters(o: Outcome, capacity: nat, handlers: Handlers, r: Round)
    requires |o.table| <= capacity
    ensures var a := AfterRound(o, capacity, handlers, r).ledger.reentered;
      o.ledger.reentered <= a && (a == o.ledger.reentered <==> RoundCalm(o, capacity, handlers, r))
  {
    if r.number > 0 {
      MarkReenters(Arrived(o, capacity, handlers, r), 0, capacity, handlers, r.seen);
    }
    var h := Handled(o, capacity, handlers, r);
    ClosedAllCounts(h.ledger, Sweep(h.table, 0).removed, handlers.ondisconnect);
  }

  /** A dead row is closed, a live one kept. */
  lemma SweepSorts(s: seq<Conn>, k: nat)
    requires k < |s|
    ensures s[k] in if s[k].Dead() then Sweep(s, 0).removed else Sweep(s, 0).kept
  {
    SweepIsExact(s);
    RowsOf(s, s[k].Dead(), s[k]);
    assert s[k] in multiset(s);
    assert s[k] in multiset(Rows(s, s[k].Dead()));
  }

  lemma FdAmong(s: seq<Conn>, c: Conn)
    requires c in s
    ensures c.client.fd in multiset(Fds(s)) && Open(s, c.client.fd)
  {
    var k :| 0 <= k < |s| && s[k] == c;
    assert Fds(s)[k] == c.client.fd;
  }

  /** When a client that was told to retry is let in while there is room, its connection is closed in
      the same round, and the table keeps a row for it. */
  lemma ReenteredIsClosed(o: Outcome, capacity: nat, handlers: Handlers, r: Round, k: nat)
    requires |o.table| <= capacity && r.number > 0
    requires var t := Arrived(o, capacity, handlers, r).table;
      && k < |t| < capacity && Reenters(t[k], r.seen(k + 1), handlers)
      && (forall j :: 0 <= j < k ==> !Reenters(t[j], r.seen(j + 1), handlers))
    ensures var t := Arrived(o, capacity, handlers, r).table; var fd := t[k].client.fd;
      var a := AfterRound(o, capacity, handlers, r);
      && a.ledger.accepted == Arrived(o, capacity, handlers, r).ledger.accepted
      && a.ledger.swept[fd] > o.ledger.swept[fd] && (r.seen(|t| + 1).peek != 0 ==> Open(a.table, fd))
  {
    var t, h := Arrived(o, capacity, handlers, r).table, Handled(o, capacity, handlers, r);
    HandledReenters(o, capacity, handlers, r, k);
    RowIsClosed(h, handlers.ondisconnect, k);
    if r.seen(|t| + 1).peek != 0 {
      SweepSorts(h.table, |t|);
      FdAmong(Sweep(h.table, 0).kept, h.table[|t|]);
    }
  }

  /** Its row is dead before the sweep, and there is another one, alive unless the peer is gone. */
  lemma HandledReenters(o: Outcome, capacity: nat, handlers: Handlers, r: Round, k: nat)
    requires |o.table| <= capacity && r.number > 0
    requires var t := Arrived(o, capacity, handlers, r).table;
      && k < |t| < capacity && Reenters(t[k], r.seen(k + 1), handlers)
      && (forall j :: 0 <= j < k ==> !Reenters(t[j], r.seen(j + 1), handlers))
    ensures var b, h := Arrived(o, capacity, handlers, r), Handled(o, capacity, handlers, r);
      var n, fd := |b.table|, b.table[k].client.fd;
      && h.ledger.accepted == b.ledger.accepted && h.ledger.swept == o.ledger.swept
      && n < |h.table| && h.table[k].Dead() && h.table[k].client.fd == fd
      && h.table[n].client.fd == fd && (h.table[n].Dead() <==> r.seen(n + 1).peek == 0)
  {
    var b := Arrived(o, capacity, handlers, r);
    MarkReenters(b, 0, capacity, handlers, r.seen);
    MarkRows(b, 0, capacity, handlers, r.seen);
    MarkFirst(b, 0, k, capacity, handlers, r.seen);
  }

  /** The sweep closes the descriptor of a dead row. */
  lemma RowIsClosed(h: Outcome, tell: bool, k: nat)
    requires k < |h.table| && h.table[k].Dead()
    ensures var l := ClosedAll(h.ledger, Sweep(h.table, 0).removed, tell); var fd := h.table[k].client.fd;
      l.accepted == h.ledger.accepted && l.swept[fd] > h.ledger.swept[fd]
  {
    SweepSorts(h.table, k);
    FdAmong(Sweep(h.table, 0).removed, h.table[k]);
    ClosedAllCounts(h.ledger, Sweep(h.table, 0).removed, tell);
  }

  /** A single client that retries: when its handshake succeeds its descriptor is closed and free to
      be handed out again, and stays in the table. */
  lemma RetryCloses(fd: int, now: int)
    ensures var handlers := Handlers(true, true, true, true, 0);
      var o := Outcome([Conn(PollItem(fd, POLLIN, QUIET), Client(fd, Retry, now))],
                       Ledger(multiset{fd}, multiset{}, multiset{}, multiset{}, multiset{}, multiset{}));
      var r := Round(1, i => Events(i == 1, false, false, false), -1, Kill, now,
                     i => Seen(1, KeepAlive, now, KeepAlive, now));
      var a := AfterRound(o, 2, handlers, r);
      o.Balanced(true) && Open(a.table, fd) && Free(a.ledger, fd)
  {
    var handlers := Handlers(true, true, true, true, 0);
    var o := Outcome([Conn(PollItem(fd, POLLIN, QUIET), Client(fd, Retry, now))],
                     Ledger(multiset{fd}, multiset{}, multiset{}, multiset{}, multiset{}, multiset{}));
    var r := Round(1, i => Events(i == 1, false, false, false), -1, Kill, now,
                   i => Seen(1, KeepAlive, now, KeepAlive, now));
    assert Fds(o.table) == [fd];
    ReenteredIsClosed(o, 2, handlers, r, 0);
  }

  // ---------------------------------------------------------------- all rounds

  /** Step k of a trace is round k. */
  ghost predicate Follows(trace: seq<Outcome>, capacity: nat, handlers: Handlers, rounds: seq<Round>, k: nat)
    requires k + 1 < |trace| && k < |rounds|
  {
    |trace[k].table| <= capacity && trace[k + 1] == AfterRound(trace[k], capacity, handlers, rounds[k])
  }

  /** A trace of rounds, each from a state that balances. */
  ghost predicate IsTrace(trace: seq<Outcome>, capacity: nat, handlers: Handlers, rounds: seq<Round>) {
    && 0 < |trace| <= |rounds| + 1
    && (forall k :: 0 <= k < |trace| ==> trace[k].Balanced(handlers.ondisconnect))
    && (forall k :: 0 <= k < |trace| - 1 ==> Follows(trace, capacity, handlers, rounds, k))
  }

  /** No row enters again in round k. */
  ghost predicate CalmIn(trace: seq<Outcome>, capacity: nat, handlers: Handlers, rounds: seq<Round>, k: nat)
    requires k < |trace| && k < |rounds|
  {
    |trace[k].table| <= capacity && RoundCalm(trace[k], capacity, handlers, rounds[k])
  }

  ghost predicate AllCalm(trace: seq<Outcome>, capacity: nat, handlers: Handlers, rounds: seq<Round>, n: nat)
    requires n < |trace| <= |rounds| + 1
  {
    forall k :: 0 <= k < n ==> CalmIn(trace, capacity, handlers, rounds, k)
  }

  /** In round k the system hands out a descriptor that it does not hold open. */
  ghost predicate FreshIn(trace: seq<Outcome>, rounds: seq<Round>, k: nat)
    requires k < |trace| && k < |rounds|
  {
    Free(trace[k].ledger, rounds[k].accepted)
  }

  /** A descriptor was closed as often as it was accepted, so the system may hand it out. */
  ghost predicate Free(l: Ledger, fd: int) {
    l.accepted[fd] <= l.refused[fd] + l.swept[fd]
  }

  ghost predicate AllFresh(trace: seq<Outcome>, rounds: seq<Round>) {
    |trace| <= |rounds| + 1 && forall k :: 0 <= k < |trace| - 1 ==> FreshIn(trace, rounds, k)
  }

  lemma CountsOf(o: Outcome, tell: bool, fd: int)
    requires o.Balanced(tell)
    ensures var l := o.ledger;
      l.accepted[fd] + l.reentered[fd] == l.refused[fd] + l.lost[fd] + l.swept[fd] + multiset(Fds(o.table))[fd]
  {
    var l := o.ledger;
    assert (l.accepted + l.reentered)[fd]
        == (l.refused + l.lost + l.swept + multiset(Fds(o.table)) + multiset{})[fd];
  }

  /** A free descriptor is not in the table, if none entered again. */
  lemma FreeIsNew(o: Outcome, tell: bool, fd: int)
    requires o.Balanced(tell) && o.ledger.reentered == multiset{} && Free(o.ledger, fd)
    ensures IsNew(o.table, fd)
  {
    CountsOf(o, tell, fd);
    forall k | 0 <= k < |o.table| ensures o.table[k].client.fd != fd {
      FdAmong(o.table, o.table[k]);
    }
  }

  /** Descriptors enter again unless all rounds are calm. */
  lemma {:induction false} TraceReenters(trace: seq<Outcome>, capacity: nat, handlers: Handlers,
                                         rounds: seq<Round>, n: nat)
    requires IsTrace(trace, capacity, handlers, rounds) && n < |trace|
    ensures trace[0].ledger.reentered <= trace[n].ledger.reentered
    ensures trace[n].ledger.reentered == trace[0].ledger.reentered
        <==> AllCalm(trace, capacity, handlers, rounds, n)
  {
    if n > 0 {
      TraceReenters(trace, capacity, handlers, rounds, n - 1);
      NextReenters(trace, capacity, handlers, rounds, n - 1);
      Between(trace[0].ledger.reentered, trace[n - 1].ledger.reentered, trace[n].ledger.reentered);
    }
  }

  lemma NextReenters(trace: seq<Outcome>, capacity: nat, handlers: Handlers, rounds: seq<Round>, k: nat)
    requires IsTrace(trace, capacity, handlers, rounds) && k + 1 < |trace|
    ensures trace[k].ledger.reentered <= trace[k + 1].ledger.reentered
    ensures trace[k + 1].ledger.reentered == trace[k].ledger.reentered
        <==> CalmIn(trace, capacity, handlers, rounds, k)
  {
    assert Follows(trace, capacity, handlers, rounds, k);
    RoundReenters(trace[k], capacity, handlers, rounds[k]);
  }

  /** If the system only hands out free descriptors and all rounds are calm, the table keeps distinct
      ones. */
  lemma {:induction false} TraceKeepsDistinct(trace: seq<Outcome>, capacity: nat, handlers: Handlers,
                                              rounds: seq<Round>, n: nat)
    requires IsTrace(trace, capacity, handlers, rounds) && AllFresh(trace, rounds) && n < |trace|
    requires Distinct(trace[0].table) && trace[0].ledger.reentered == multiset{}
    requires AllCalm(trace, capacity, handlers, rounds, n)
    ensures Distinct(trace[n].table) && trace[n].ledger.reentered == multiset{}
  {
    TraceReenters(trace, capacity, handlers, rounds, n);
    if n > 0 {
      TraceKeepsDistinct(trace, capacity, handlers, rounds, n - 1);
      assert Follows(trace, capacity, handlers, rounds, n - 1) && FreshIn(trace, rounds, n - 1);
      assert CalmIn(trace, capacity, handlers, rounds, n - 1);
      FreeIsNew(trace[n - 1], handlers.ondisconnect, rounds[n - 1].accepted);
      RoundKeepsDistinct(trace[n - 1], capacity, handlers, rounds[n - 1]);
    }
  }

  // ---------------------------------------------------------------- callbacks that never ask to retry

  ghost predicate NoRetry(s: seq<Conn>) {
    forall k :: 0 <= k < |s| ==> s[k].client.status != Retry
  }

  /** Neither the connect callback nor the ping callback answers that the client should retry. */
  ghost predicate NeverRetries(r: Round) {
    if r.number > 0 then r.answer != Retry else forall i: nat :: r.seen(i).answer != Retry
  }

  ghost predicate AllNeverRetry(rounds: seq<Round>, n: nat)
    requires n <= |rounds|
  {
    forall k :: 0 <= k < n ==> NeverRetries(rounds[k])
  }

  lemma SweepNoRetry(s: seq<Conn>)
    requires NoRetry(s)
    ensures NoRetry(Sweep(s, 0).kept)
  {
    SweepConserves(s, 0);
    var kept := Sweep(s, 0).kept;
    forall k | 0 <= k < |kept| ensures kept[k].client.status != Retry {
      assert kept[k] in multiset(kept) && kept[k] in multiset(s);
    }
  }

  /** So a round is calm, and leaves no client that retries. */
  lemma RoundNoRetry(o: Outcome, capacity: nat, handlers: Handlers, r: Round)
    requires |o.table| <= capacity && NoRetry(o.table) && NeverRetries(r)
    ensures RoundCalm(o, capacity, handlers, r) && NoRetry(AfterRound(o, capacity, handlers, r).table)
  {
    if r.number > 0 {
      MarkRows(Arrived(o, capacity, handlers, r), 0, capacity, handlers, r.seen);
    }
    SweepNoRetry(Handled(o, capacity, handlers, r).table);
  }

  lemma NextNoRetry(trace: seq<Outcome>, capacity: nat, handlers: Handlers, rounds: seq<Round>, k: nat)
    requires IsTrace(trace, capacity, handlers, rounds) && k + 1 < |trace|
    requires NoRetry(trace[k].table) && NeverRetries(rounds[k])
    ensures CalmIn(trace, capacity, handlers, rounds, k) && NoRetry(trace[k + 1].table)
  {
    assert Follows(trace, capacity, handlers, rounds, k);
    RoundNoRetry(trace[k], capacity, handlers, rounds[k]);
  }

  lemma {:induction false} StaysNoRetry(trace: seq<Outcome>, capacity: nat, handlers: Handlers,
                                        rounds: seq<Round>, n: nat)
    requires IsTrace(trace, capacity, handlers, rounds) && n < |trace|
    requires NoRetry(trace[0].table) && AllNeverRetry(rounds, n)
    ensures NoRetry(trace[n].table)
  {
    if n > 0 {
      StaysNoRetry(trace, capacity, handlers, rounds, n - 1);
      NextNoRetry(trace, capacity, handlers, rounds, n - 1);
    }
  }

  /** If no client retries at the start and no callback asks for it, all rounds are calm. */
  lemma NeverRetryingIsCalm(trace: seq<Outcome>, capacity: nat, handlers: Handlers, rounds: seq<Round>, n: nat)
    requires IsTrace(trace, capacity, handlers, rounds) && n < |trace|
    requires NoRetry(trace[0].table) && AllNeverRetry(rounds, n)
    ensures AllCalm(trace, capacity, handlers, rounds, n) && NoRetry(trace[n].table)
  {
    StaysNoRetry(trace, capacity, handlers, rounds, n);
    forall k | 0 <= k < n ensures CalmIn(trace, capacity, handlers, rounds, k) {
      StaysNoRetry(trace, capacity, handlers, rounds, k);
      NextNoRetry(trace, capacity, handlers, rounds, k);
    }
  }

  // ---------------------------------------------------------------- descriptors and acceptances

  /** Whether a descriptor is in the table. */
  ghost predicate Open(s: seq<Conn>, fd: int) {
    exists k :: 0 <= k < |s| && s[k].client.fd == fd
  }

  /** A descriptor was closed or lost as often as it was accepted, less the times it is in the table. */
  ghost predicate OncePerAcceptance(o: Outcome, fd: int) {
    var l := o.ledger;
    l.refused[fd] + l.lost[fd] + l.swept[fd] + multiset(Fds(o.table))[fd] == l.accepted[fd]
  }

  /** That holds for all descriptors if and only if none entered again. */
  lemma ClosedPerAcceptance(o: Outcome, tell: bool)
    requires o.Balanced(tell)
    ensures (forall fd :: OncePerAcceptance(o, fd)) <==> o.ledger.reentered == multiset{}
  {
    forall fd ensures OncePerAcceptance(o, fd) <==> o.ledger.reentered[fd] == 0 {
      CountsOf(o, tell, fd);
    }
    if forall fd :: OncePerAcceptance(o, fd) {
      forall fd ensures o.ledger.reentered[fd] == 0 {
        assert OncePerAcceptance(o, fd);
      }
    }
  }
}
