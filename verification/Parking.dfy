/**
 * Parking over whole runs: the time-ordered queue, what reactivation wakes, and the rollback of an undelivered
 * handover.
 */
module Parking {
  import opened Types
  import opened RateIndex
  import opened B = Book

  // ---------------------------------------------------------------------------
  // The park queue
  // ---------------------------------------------------------------------------

  /** The queue is sorted by time, nothing in it is later than `now`, and every parked note has its own ticket. */
  ghost predicate QueueOk(b: Book, now: Amount)
  {
    && (forall i, j :: 0 <= i < j < |b.parkQueue| ==> b.parkQueue[i].at <= b.parkQueue[j].at)
    && (forall i :: 0 <= i < |b.parkQueue| ==> b.parkQueue[i].at <= now)
    && (forall id :: id in b.parked ==> Ticket(b.parked[id].at, id) in b.parkQueue)
  }

  /** Later clocks and fewer parked notes keep the queue correct. */
  lemma QueueShrinks(b: Book, b': Book, now: Amount, later: Amount)
    requires now <= later && b'.parkQueue == b.parkQueue
    requires forall id :: id in b'.parked ==> id in b.parked && b'.parked[id] == b.parked[id]
    ensures QueueOk(b, now) ==> QueueOk(b', later)
  {}

  /** Parking at a clock that never runs backwards keeps the queue sorted. */
  lemma ParkQueueOk(b: Book, id: OrderId, dex: DexId, now: Amount, time: Amount)
    requires now <= time
    ensures QueueOk(b, now) ==> QueueOk(Park(b, id, dex, time), time)
  {}

  // ---------------------------------------------------------------------------
  // Reactivation
  // ---------------------------------------------------------------------------

  ghost function WokenIds(woken: seq<(OrderId, DexId)>): set<OrderId>
  {
    set k | 0 <= k < |woken| :: woken[k].0
  }

  /** Some ticket of `id` has expired. */
  ghost predicate Rung(b: Book, ttl: Amount, time: Amount, id: OrderId)
  {
    exists k :: 0 <= k < |b.parkQueue| && b.parkQueue[k].id == id && Expired(b.parkQueue[k].at, ttl, time)
  }

  lemma WokenCons(id: OrderId, dex: DexId, woken: seq<(OrderId, DexId)>)
    ensures WokenIds([(id, dex)] + woken) == {id} + WokenIds(woken)
  {
    var all := [(id, dex)] + woken;
    forall x
      ensures x in WokenIds(all) <==> x == id || x in WokenIds(woken)
    {
      if x in WokenIds(woken) {
        var k :| 0 <= k < |woken| && woken[k].0 == x;
        assert all[k + 1].0 == x;
      }
      if x == id {
        assert all[0].0 == x;
      }
    }
  }

  /** Removing the front ticket removes its id from the expired ones, and nothing else. */
  lemma RungPop(b: Book, b': Book, ttl: Amount, time: Amount, x: OrderId)
    requires b.parkQueue != [] && Expired(b.parkQueue[0].at, ttl, time) && b'.parkQueue == b.parkQueue[1..]
    ensures Rung(b, ttl, time, x) <==> x == b.parkQueue[0].id || Rung(b', ttl, time, x)
  {
    if Rung(b', ttl, time, x) {
      var k :| 0 <= k < |b'.parkQueue| && b'.parkQueue[k].id == x && Expired(b'.parkQueue[k].at, ttl, time);
      assert b.parkQueue[k + 1] == b'.parkQueue[k];
    }
    if k :| 0 < k < |b.parkQueue| && b.parkQueue[k].id == x && Expired(b.parkQueue[k].at, ttl, time) {
      assert b'.parkQueue[k - 1] == b.parkQueue[k];
    }
  }

  /** Under a sorted queue, an unexpired front means that nothing has expired. */
  lemma FreshFront(b: Book, ttl: Amount, time: Amount, now: Amount)
    requires QueueOk(b, now) && (b.parkQueue == [] || !Expired(b.parkQueue[0].at, ttl, time))
    ensures forall k :: 0 <= k < |b.parkQueue| ==> !Expired(b.parkQueue[k].at, ttl, time)
    ensures forall id :: !Rung(b, ttl, time, id)
  {
    forall k | 0 <= k < |b.parkQueue|
      ensures !Expired(b.parkQueue[k].at, ttl, time)
    {
      assert b.parkQueue[0].at <= b.parkQueue[k].at;
    }
  }

  /** `woken` are exactly the parked notes with an expired ticket, and exactly the expired tickets are forgotten. */
  ghost predicate Wakes(b: Book, b': Book, woken: seq<(OrderId, DexId)>, ttl: Amount, time: Amount, now: Amount)
  {
    && QueueOk(b', now)
    && (forall id :: id in WokenIds(woken) <==> id in b.parked && Rung(b, ttl, time, id))
    && (forall k :: 0 <= k < |woken| ==> woken[k].0 in b.parked && woken[k].1 == b.parked[woken[k].0].dex)
    && b'.parked == b.parked - WokenIds(woken) && b'.orders == b.orders && b'.balances == b.balances && b'.tokens == b.tokens
    && (forall k :: 0 <= k < |b'.parkQueue| ==> !Expired(b'.parkQueue[k].at, ttl, time))
  }

  lemma WakesMore(b: Book, b1: Book, b': Book, woken: seq<(OrderId, DexId)>, ttl: Amount, time: Amount, now: Amount)
    requires b.parkQueue != [] && Expired(b.parkQueue[0].at, ttl, time)
    requires b1 == Unpark(b.(parkQueue := b.parkQueue[1..]), b.parkQueue[0].id) && Wakes(b1, b', woken, ttl, time, now)
    ensures var id := b.parkQueue[0].id;
      Wakes(b, b', if id in b.parked then [(id, b.parked[id].dex)] + woken else woken, ttl, time, now)
  {
    hide QueueOk;
    hide Rung;
    hide Expired;
    var id := b.parkQueue[0].id;
    forall x
      ensures Rung(b, ttl, time, x) <==> x == id || Rung(b1, ttl, time, x)
    {
      RungPop(b, b1, ttl, time, x);
    }
    if id in b.parked {
      WokenCons(id, b.parked[id].dex, woken);
      hide WokenIds;
      assert b.parked - ({id} + WokenIds(woken)) == (b.parked - {id}) - WokenIds(woken);
    }
  }

  /** Reactivation wakes exactly the parked notes with an expired ticket, and forgets exactly the expired tickets. */
  lemma {:induction false} ReactivateWakes(b: Book, ttl: Amount, time: Amount, now: Amount)
    requires QueueOk(b, now)
    ensures Wakes(b, Reactivate(b, ttl, time).0, Reactivate(b, ttl, time).1, ttl, time, now)
    decreases |b.parkQueue|
  {
    if b.parkQueue == [] || !Expired(b.parkQueue[0].at, ttl, time) {
      FreshFront(b, ttl, time, now);
      assert b.parked - {} == b.parked;
    } else {
      var b1 := Unpark(b.(parkQueue := b.parkQueue[1..]), b.parkQueue[0].id);
      PopKeepsQueue(b, now);
      hide QueueOk;
      hide Wakes;
      ReactivateWakes(b1, ttl, time, now);
      var (b', woken) := Reactivate(b1, ttl, time);
      WakesMore(b, b1, b', woken, ttl, time, now);
    }
  }

  lemma PopKeepsQueue(b: Book, now: Amount)
    requires QueueOk(b, now) && b.parkQueue != []
    ensures QueueOk(Unpark(b.(parkQueue := b.parkQueue[1..]), b.parkQueue[0].id), now)
  {
    var id, rest := b.parkQueue[0].id, b.parkQueue[1..];
    forall x | x in b.parked && x != id
      ensures Ticket(b.parked[x].at, x) in rest
    {
      assert Ticket(b.parked[x].at, x) in b.parkQueue;
    }
  }

  /** A parked note whose own time to live has run out; at the end of the 64-bit clock every one has. */
  predicate Overdue(b: Book, ttl: Amount, time: Amount, id: OrderId)
  {
    id in b.parked && (b.parked[id].at + ttl <= time || time == MAX_U64)
  }

  /** The saturating test of the queue, in plain integers. */
  lemma ExpiredIs(at: Amount, ttl: Amount, time: Amount)
    ensures Expired(at, ttl, time) <==> at + ttl <= time || time == MAX_U64
  {}

  /** No overdue note stays parked. */
  lemma NoneOverdue(b: Book, ttl: Amount, time: Amount, now: Amount, id: OrderId)
    requires QueueOk(b, now)
    ensures !Overdue(Reactivate(b, ttl, time).0, ttl, time, id)
  {
    ReactivateWakes(b, ttl, time, now);
  }

  /** If no older ticket survives, exactly the notes whose time to live has not run out stay parked, as they were. */
  lemma KeepsUnexpired(b: Book, ttl: Amount, time: Amount, now: Amount, id: OrderId)
    requires QueueOk(b, now) && NoOlderTicket(b)
    ensures var b' := Reactivate(b, ttl, time).0;
      && (id in b'.parked <==> id in b.parked && time < b.parked[id].at + ttl && time < MAX_U64)
      && (id in b'.parked ==> b'.parked[id] == b.parked[id])
  {
    NoOlderWakesExactly(b, ttl, time, now);
    ReactivateWakes(b, ttl, time, now);
    hide QueueOk;
    hide Reactivate;
  }

  /** Reactivation wakes exactly the overdue notes. */
  ghost predicate WakesExactly(b: Book, ttl: Amount, time: Amount)
  {
    forall id :: id in WokenIds(Reactivate(b, ttl, time).1) <==> Overdue(b, ttl, time, id)
  }

  /** No ticket of a parked note is older than its parking: nothing is left of an earlier one. */
  ghost predicate NoOlderTicket(b: Book)
  {
    forall k :: 0 <= k < |b.parkQueue| && b.parkQueue[k].id in b.parked ==> b.parked[b.parkQueue[k].id].at <= b.parkQueue[k].at
  }

  /** A later parking expires later. */
  lemma ExpiresInOrder(early: Amount, late: Amount, ttl: Amount, time: Amount)
    requires early <= late && Expired(late, ttl, time)
    ensures Expired(early, ttl, time)
  {}

  lemma OverdueRings(b: Book, ttl: Amount, time: Amount, now: Amount, id: OrderId)
    requires QueueOk(b, now) && Overdue(b, ttl, time, id)
    ensures Rung(b, ttl, time, id)
  {
    var k :| 0 <= k < |b.parkQueue| && b.parkQueue[k] == Ticket(b.parked[id].at, id);
  }

  lemma NoOlderWakesExactly(b: Book, ttl: Amount, time: Amount, now: Amount)
    requires QueueOk(b, now) && NoOlderTicket(b)
    ensures WakesExactly(b, ttl, time)
  {
    ReactivateWakes(b, ttl, time, now);
    hide QueueOk;
    hide Reactivate;
    hide Expired;
    forall id
      ensures id in b.parked && Rung(b, ttl, time, id) <==> Overdue(b, ttl, time, id)
    {
      if Overdue(b, ttl, time, id) {
        OverdueRings(b, ttl, time, now, id);
      }
      if id in b.parked && Rung(b, ttl, time, id) {
        var k :| 0 <= k < |b.parkQueue| && b.parkQueue[k].id == id && Expired(b.parkQueue[k].at, ttl, time);
        ExpiresInOrder(b.parked[id].at, b.parkQueue[k].at, ttl, time);
      }
    }
  }

  /** An older ticket wakes its note before it is overdue, at some time to live and clock. */
  lemma OlderTicketWakesEarly(b: Book, now: Amount, k: nat)
    requires QueueOk(b, now) && k < |b.parkQueue| && b.parkQueue[k].id in b.parked
    requires b.parkQueue[k].at < b.parked[b.parkQueue[k].id].at
    ensures !WakesExactly(b, 0, b.parkQueue[k].at)
  {
    var id, at := b.parkQueue[k].id, b.parkQueue[k].at;
    ReactivateWakes(b, 0, at, now);
    hide QueueOk;
    hide Reactivate;
    assert Expired(at, 0, at) && Rung(b, 0, at, id);
  }

  /** Both together, for all notes. */
  lemma WokenOnTime(b: Book, ttl: Amount, time: Amount)
    requires QueueOk(b, time)
    ensures var b' := Reactivate(b, ttl, time).0;
      && (forall id :: id in b'.parked ==> time < b'.parked[id].at + ttl && time < MAX_U64)
      && (NoOlderTicket(b) ==> forall id ::
           id in b'.parked <==> id in b.parked && time < b.parked[id].at + ttl && time < MAX_U64)
  {
    hide Reactivate;
    hide QueueOk;
    hide NoOlderTicket;
    var b' := Reactivate(b, ttl, time).0;
    forall id
      ensures id in b'.parked ==> time < b'.parked[id].at + ttl && time < MAX_U64
      ensures NoOlderTicket(b) ==>
        (id in b'.parked <==> id in b.parked && time < b.parked[id].at + ttl && time < MAX_U64)
    {
      NoneOverdue(b, ttl, time, time, id);
      if NoOlderTicket(b) {
        KeepsUnexpired(b, ttl, time, time, id);
      }
    }
  }

  /** Exactly the overdue notes are woken, for every time to live and clock, if and only if no older ticket survives. */
  lemma WakesExactlyOverdue(b: Book, now: Amount)
    requires QueueOk(b, now)
    ensures (forall ttl, time :: WakesExactly(b, ttl, time)) <==> NoOlderTicket(b)
  {
    hide WakesExactly;
    hide QueueOk;
    if NoOlderTicket(b) {
      forall ttl, time
        ensures WakesExactly(b, ttl, time)
      {
        NoOlderWakesExactly(b, ttl, time, now);
      }
    } else {
      var k :| 0 <= k < |b.parkQueue| && b.parkQueue[k].id in b.parked && b.parkQueue[k].at < b.parked[b.parkQueue[k].id].at;
      OlderTicketWakesEarly(b, now, k);
    }
  }

  /** Fewer parked notes and fewer tickets leave no older ticket behind. */
  lemma NoOlderShrinks(b: Book, b': Book)
    requires b'.parkQueue == b.parkQueue || (b.parkQueue != [] && b'.parkQueue == b.parkQueue[1..])
    requires forall id :: id in b'.parked ==> id in b.parked && b'.parked[id] == b.parked[id]
    ensures NoOlderTicket(b) ==> NoOlderTicket(b')
  {}

  lemma {:induction false} NoOlderReactivate(b: Book, ttl: Amount, time: Amount)
    requires NoOlderTicket(b)
    ensures NoOlderTicket(Reactivate(b, ttl, time).0)
    decreases |b.parkQueue|
  {
    if b.parkQueue != [] && Expired(b.parkQueue[0].at, ttl, time) {
      var b1 := Unpark(b.(parkQueue := b.parkQueue[1..]), b.parkQueue[0].id);
      NoOlderShrinks(b, b1);
      NoOlderReactivate(b1, ttl, time);
    }
  }

  /** No routed note has a ticket from before `time`. */
  ghost predicate NoOldTicketOf(b: Book, ids: seq<OrderId>, time: Amount)
  {
    forall k :: 0 <= k < |b.parkQueue| && b.parkQueue[k].id in ids ==> time <= b.parkQueue[k].at
  }

  /** Parking a batch leaves no older ticket behind if and only if none of its notes still has one. */
  lemma ParkBatchNoOlder(b: Book, items: seq<(OrderId, DexId)>, time: Amount)
    requires WellFormed(b) && Routable(b, items) && NoOlderTicket(b)
    ensures NoOlderTicket(ParkAll(b, items, time)) <==> NoOldTicketOf(b, Ids(items), time)
  {
    ParkAllSpec(b, items, time);
    hide ParkAll;
    hide WellFormed;
    hide Routable;
    hide ParkedWith;
    hide WithoutAll;
    var p := ParkAll(b, items, time);
    OldTickets(b, p, items, time);
    NewTickets(b, p, items, time);
  }

  lemma OldTickets(b: Book, p: Book, items: seq<(OrderId, DexId)>, time: Amount)
    requires p.parked == ParkedWith(b.parked, items, time) && b.parkQueue <= p.parkQueue
    ensures NoOlderTicket(p) ==> NoOldTicketOf(b, Ids(items), time)
  {
    if NoOlderTicket(p) {
      forall k | 0 <= k < |b.parkQueue| && b.parkQueue[k].id in Ids(items)
        ensures time <= b.parkQueue[k].at
      {
        assert p.parkQueue[k] == b.parkQueue[k] && p.parkQueue[k].id in p.parked;
      }
    }
  }

  lemma NewTickets(b: Book, p: Book, items: seq<(OrderId, DexId)>, time: Amount)
    requires NoOlderTicket(b) && p.parked == ParkedWith(b.parked, items, time) && p.parkQueue == b.parkQueue + Tickets(items, time)
    ensures NoOldTicketOf(b, Ids(items), time) ==> NoOlderTicket(p)
  {
    hide ParkedWith;
    if NoOldTicketOf(b, Ids(items), time) {
      forall k | 0 <= k < |p.parkQueue| && p.parkQueue[k].id in p.parked
        ensures p.parked[p.parkQueue[k].id].at <= p.parkQueue[k].at
      {
        if k < |b.parkQueue| {
          assert p.parkQueue[k] == b.parkQueue[k];
        } else {
          var i := k - |b.parkQueue|;
          assert p.parkQueue[k] == Tickets(items, time)[i] == Ticket(time, items[i].0) && Ids(items)[i] == items[i].0;
        }
      }
    }
  }

  lemma ParkedOnce(b: Book, id: OrderId, at: Amount)
    requires b.parked == map[] && id in b.orders && b.orders[id].IsActive()
    ensures var p := Park(b, id, 1, at);
      p.parked == map[id := B.Parking(1, at)] && p.parkQueue == b.parkQueue + [Ticket(at, id)] && p.orders == b.orders
  {}

  lemma UnparkedAgain(b: Book, id: OrderId)
    requires b.parked.Keys == {id}
    ensures Unpark(b, id).parked == map[] && Unpark(b, id).parkQueue == b.parkQueue && Unpark(b, id).orders == b.orders
  {}

  lemma ParkedTwice(b: Book, id: OrderId)
    requires b.parked == map[] && b.parkQueue == [] && id in b.orders && b.orders[id].IsActive()
    ensures var again := Park(Unpark(Park(b, id, 1, 5), id), id, 1, 10);
      again.parked == map[id := B.Parking(1, 10)] && again.parkQueue == [Ticket(5, id), Ticket(10, id)]
  {
    hide Park;
    hide Unpark;
    ParkedOnce(b, id, 5);
    UnparkedAgain(Park(b, id, 1, 5), id);
    ParkedOnce(Unpark(Park(b, id, 1, 5), id), id, 10);
  }

  /**
   * A note parked at 5, rolled back, and parked again at 10 is woken at 12 by its first ticket, although its time to
   * live of 6 has not run out.
   */
  lemma StaleTicketWakesEarly(b: Book, id: OrderId)
    requires b.parked == map[] && b.parkQueue == [] && id in b.orders && b.orders[id].IsActive()
    ensures var again := Park(Unpark(Park(b, id, 1, 5), id), id, 1, 10);
      && again.parked == map[id := B.Parking(1, 10)] && !Overdue(again, 6, 12, id)
      && id !in Reactivate(again, 6, 12).0.parked
  {
    ParkedTwice(b, id);
    hide Park;
    hide Unpark;
    hide Reactivate;
    var again := Park(Unpark(Park(b, id, 1, 5), id), id, 1, 10);
    assert again.parkQueue[0] == Ticket(5, id) && again.parkQueue[1] == Ticket(10, id);
    assert QueueOk(again, 10);
    assert Rung(again, 6, 12, id);
    ReactivateWakes(again, 6, 12, 10);
  }

  // ---------------------------------------------------------------------------
  // Rollback
  // ---------------------------------------------------------------------------

  /** Park a batch of notes at one time. */
  ghost function ParkAll(b: Book, items: seq<(OrderId, DexId)>, time: Amount): Book
  {
    if items == [] then b
    else
      var last := items[|items| - 1];
      Park(ParkAll(b, items[..|items| - 1], time), last.0, last.1, time)
  }

  /** Unpark the same batch again. */
  ghost function UnparkAll(b: Book, items: seq<(OrderId, DexId)>): Book
  {
    if items == [] then b else Unpark(UnparkAll(b, items[..|items| - 1]), items[|items| - 1].0)
  }

  ghost function Ids(items: seq<(OrderId, DexId)>): (r: seq<OrderId>)
    ensures |r| == |items| && forall k :: 0 <= k < |r| ==> r[k] == items[k].0
  {
    seq(|items|, k requires 0 <= k < |items| => items[k].0)
  }

  ghost function WithoutAll(s: seq<OrderId>, ids: seq<OrderId>): (r: seq<OrderId>)
    ensures forall id :: id in r <==> id in s && id !in ids
  {
    if ids == [] then s
    else
      assert ids == ids[..|ids| - 1] + [ids[|ids| - 1]];
      Without(WithoutAll(s, ids[..|ids| - 1]), ids[|ids| - 1])
  }

  ghost function Tickets(items: seq<(OrderId, DexId)>, time: Amount): (r: seq<Ticket>)
    ensures |r| == |items| && forall k :: 0 <= k < |r| ==> r[k] == Ticket(time, items[k].0)
  {
    seq(|items|, k requires 0 <= k < |items| => Ticket(time, items[k].0))
  }

  /** A batch of different matchable notes. */
  ghost predicate Routable(b: Book, items: seq<(OrderId, DexId)>)
  {
    && (forall k :: 0 <= k < |items| ==> items[k].0 in b.fifo)
    && NoDup(Ids(items))
  }

  /** The parked map once all items are parked. */
  ghost function ParkedWith(parked: map<OrderId, B.Parking>, items: seq<(OrderId, DexId)>,
      time: Amount): (r: map<OrderId, B.Parking>)
    ensures forall id :: id in r <==> id in parked || id in Ids(items)
    ensures forall id :: id in parked && id !in Ids(items) ==> r[id] == parked[id]
    ensures forall id :: id in Ids(items) ==> r[id].at == time
    ensures NoDup(Ids(items)) ==> forall k :: 0 <= k < |items| ==> r[items[k].0].dex == items[k].1
  {
    if items == [] then parked
    else
      var init, last := items[..|items| - 1], items[|items| - 1];
      assert Ids(items) == Ids(init) + [last.0];
      ParkedWith(parked, init, time)[last.0 := B.Parking(last.1, time)]
  }

  lemma {:induction false} ParkAllSpec(b: Book, items: seq<(OrderId, DexId)>, time: Amount)
    requires WellFormed(b) && Routable(b, items)
    ensures ParkAll(b, items, time)
      == b.(fifo := WithoutAll(b.fifo, Ids(items)),
            parked := ParkedWith(b.parked, items, time),
            parkQueue := b.parkQueue + Tickets(items, time))
  {
    if items == [] {
      assert b.parkQueue + Tickets(items, time) == b.parkQueue;
    } else {
      var init := items[..|items| - 1];
      hide ParkedWith;
      hide WithoutAll;
      hide Tickets;
      hide WellFormed;
      hide Routable;
      InitRoutable(b, items);
      ParkAllSpec(b, init, time);
      OneMoreParked(b, items, time);
    }
  }

  lemma OneMoreParked(b: Book, items: seq<(OrderId, DexId)>, time: Amount)
    requires items != []
    ensures var init, last := items[..|items| - 1], items[|items| - 1];
      && WithoutAll(b.fifo, Ids(items)) == Without(WithoutAll(b.fifo, Ids(init)), last.0)
      && ParkedWith(b.parked, items, time) == ParkedWith(b.parked, init, time)[last.0 := B.Parking(last.1, time)]
      && b.parkQueue + Tickets(items, time) == (b.parkQueue + Tickets(init, time)) + [Ticket(time, last.0)]
  {
    var n := |items| - 1;
    assert Ids(items)[..n] == Ids(items[..n]);
    assert Tickets(items, time) == Tickets(items[..n], time) + [Ticket(time, items[n].0)];
  }

  /** The last of a batch is still to be parked once the others are. */
  lemma InitRoutable(b: Book, items: seq<(OrderId, DexId)>)
    requires WellFormed(b) && Routable(b, items) && items != []
    ensures var init, last := items[..|items| - 1], items[|items| - 1];
      && Routable(b, init) && last.0 !in Ids(init)
      && last.0 !in b.parked && last.0 in b.orders && b.orders[last.0].IsActive()
  {
    var n := |items| - 1;
    assert Ids(items)[..n] == Ids(items[..n]) && Ids(items)[n] == items[n].0;
  }

  /** All items are parked active orders, each listed once. */
  ghost predicate AllParked(b: Book, items: seq<(OrderId, DexId)>)
  {
    && (forall k :: 0 <= k < |items| ==> items[k].0 in b.parked && items[k].0 in b.orders && b.orders[items[k].0].IsActive())
    && NoDup(Ids(items))
  }

  lemma {:induction false} UnparkAllSpec(b: Book, items: seq<(OrderId, DexId)>)
    requires AllParked(b, items)
    ensures UnparkAll(b, items) == b.(fifo := b.fifo + Ids(items), parked := b.parked - (set id | id in Ids(items)))
  {
    if items == [] {
      assert b.fifo + Ids(items) == b.fifo;
      assert b.parked - {} == b.parked;
    } else {
      var init, last := items[..|items| - 1], items[|items| - 1];
      assert Ids(items) == Ids(init) + [last.0];
      UnparkAllSpec(b, init);
      assert last.0 !in Ids(init);
      assert b.fifo + Ids(items) == (b.fifo + Ids(init)) + [last.0];
      assert b.parked - (set id | id in Ids(items)) == (b.parked - (set id | id in Ids(init))) - {last.0};
    }
  }

  /**
   * Rolling back an undelivered handover restores everything but the positions of its notes, which move to the back,
   * and leaves their tickets behind.
   */
  lemma RollbackRestores(b: Book, items: seq<(OrderId, DexId)>, time: Amount)
    requires WellFormed(b) && Routable(b, items)
    ensures UnparkAll(ParkAll(b, items, time), items)
      == b.(fifo := WithoutAll(b.fifo, Ids(items)) + Ids(items), parkQueue := b.parkQueue + Tickets(items, time))
  {
    ParkAllSpec(b, items, time);
    ParkedByBatch(b, items, time);
    var p := ParkAll(b, items, time);
    hide WellFormed;
    hide Routable;
    hide AllParked;
    hide WithoutAll;
    hide ParkAll;
    hide UnparkAll;
    UnparkAllSpec(p, items);
    assert p.parked - (set id | id in Ids(items)) == b.parked by { ParkedUndone(b, items, time); }
  }

  lemma ParkedByBatch(b: Book, items: seq<(OrderId, DexId)>, time: Amount)
    requires WellFormed(b) && Routable(b, items)
    ensures AllParked(ParkAll(b, items, time), items)
  {
    ParkAllSpec(b, items, time);
    var p := ParkAll(b, items, time);
    forall k | 0 <= k < |items|
      ensures items[k].0 in p.parked && items[k].0 in p.orders && p.orders[items[k].0].IsActive()
    {
      assert items[k].0 in Ids(items);
    }
  }

  lemma ParkedUndone(b: Book, items: seq<(OrderId, DexId)>, time: Amount)
    requires WellFormed(b) && Routable(b, items)
    ensures ParkedWith(b.parked, items, time) - (set id | id in Ids(items)) == b.parked
  {}

  ghost function MembersOf(orders: Orders, s: seq<OrderId>, p: Pair): set<OrderId>
    requires Covers(orders, s)
  {
    set id | id in s && orders[id].Pair() == p
  }

  lemma {:induction false} NumberIsCardinality(orders: Orders, s: seq<OrderId>, p: Pair)
    requires Covers(orders, s) && NoDup(s)
    ensures NumberOf(orders, s, p) == |MembersOf(orders, s, p)|
  {
    if s != [] {
      var init, last := s[..|s| - 1], s[|s| - 1];
      assert s == init + [last];
      NumberIsCardinality(orders, init, p);
      assert last !in init;
      MembersAppend(orders, init, last, p);
      hide MembersOf;
    }
  }

  lemma MembersAppend(orders: Orders, init: seq<OrderId>, last: OrderId, p: Pair)
    requires Covers(orders, init + [last])
    ensures MembersOf(orders, init + [last], p) == MembersOf(orders, init, p) + if orders[last].Pair() == p then {last} else {}
    ensures last !in init ==> last !in MembersOf(orders, init, p)
  {}

  /**
   * Two well-formed books with the same orders and parked notes have the same matchable set, counters, and best rate of
   * every pair.
   */
  lemma SameMatchables(b: Book, b': Book, p: Pair)
    requires WellFormed(b) && WellFormed(b') && b.orders == b'.orders && b.parked == b'.parked
    ensures forall id :: id in b.fifo <==> id in b'.fifo
    ensures NumberOf(b.orders, b.fifo, p) == NumberOf(b'.orders, b'.fifo, p)
    ensures Best(b, p).Some? <==> Best(b', p).Some?
    ensures Best(b, p).Some? ==> b.orders[Best(b, p).value].Rate().Same(b.orders[Best(b', p).value].Rate())
  {
    NumberIsCardinality(b.orders, b.fifo, p);
    NumberIsCardinality(b.orders, b'.fifo, p);
    assert MembersOf(b.orders, b.fifo, p) == MembersOf(b.orders, b'.fifo, p);
    var i := BestInWins(b.orders, b.fifo, p);
    var j := BestInWins(b.orders, b'.fifo, p);
    hide BestIn;
    hide NumberOf;
    if Best(b, p).Some? && Best(b', p).Some? {
      BestBeats(b.orders, b.fifo, p, i, b'.fifo[j]);
      BestBeats(b.orders, b'.fifo, p, j, b.fifo[i]);
    }
  }

  /** The best order is at most as dear as any order of its pair. */
  lemma BestBeats(orders: Orders, s: seq<OrderId>, p: Pair, i: nat, x: OrderId)
    requires Covers(orders, s) && IsBestAt(orders, s, p, i) && x in s && orders[x].Pair() == p
    ensures orders[s[i]].Rate().AtMost(orders[x].Rate())
  {
    var k :| 0 <= k < |s| && s[k] == x;
  }
}
