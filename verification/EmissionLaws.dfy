// What the decoder emits, event by event and over whole streams: one update for
// every level an event changes, one trade for every execution and report; and
// what it remembers of each order, against the history of that order alone.
module EmissionLaws {
  import opened Bytes
  import opened Messages
  import opened Decoder
  import opened DecoderLaws

  // ---- trades ------------------------------------------------------------------

  /** The trades among some messages, in order. */
  function Trades(out: seq<OrderMessage>): seq<OrderMessage>
    decreases |out|
  {
    if out == [] then [] else
      var m := out[|out| - 1];
      Trades(out[..|out| - 1]) + (if m.kind == TRADE then [m] else [])
  }

  /** The other messages, in order. */
  function Updates(out: seq<OrderMessage>): seq<OrderMessage>
    decreases |out|
  {
    if out == [] then [] else
      var m := out[|out| - 1];
      Updates(out[..|out| - 1]) + (if m.kind == TRADE then [] else [m])
  }

  function Only(m: OrderMessage, trade: bool): seq<OrderMessage> {
    if (m.kind == TRADE) == trade then [m] else []
  }

  lemma OneParted(m: OrderMessage)
    ensures Trades([m]) == Only(m, true) && Updates([m]) == Only(m, false)
  {
    assert [m][..0] == [] && Trades([]) == [] && Updates([]) == [];
  }

  lemma TwoParted(a: OrderMessage, b: OrderMessage)
    ensures Trades([a, b]) == Only(a, true) + Only(b, true) && Updates([a, b]) == Only(a, false) + Only(b, false)
  {
    OneParted(a);
    assert [a, b][..1] == [a];
  }

  lemma FewParted(out: seq<OrderMessage>)
    ensures |out| == 0 ==> Trades(out) == [] && Updates(out) == []
    ensures |out| == 1 ==> Trades(out) == Only(out[0], true) && Updates(out) == Only(out[0], false)
    ensures |out| == 2 ==> Trades(out) == Only(out[0], true) + Only(out[1], true)
    ensures |out| == 2 ==> Updates(out) == Only(out[0], false) + Only(out[1], false)
  {
    if |out| == 1 {
      OneParted(out[0]);
      assert out == [out[0]];
    } else if |out| == 2 {
      TwoParted(out[0], out[1]);
      assert out == [out[0], out[1]];
    }
  }

  /** An execution is a trade: whatever the state, the trades among what an event
      emits are one for an execution of a live order, of that order's symbol at
      the price and size of the event, one for a reported trade, of its own
      symbol, and none for anything else. */
  lemma TradesExactly(s: DecoderState, event: Event)
    ensures Trades(Handle(s, event).1)
         == match event
            case Execute(id, size, price, timestamp) =>
              if id in s.orders then [OrderMessage(TRADE, s.orders[id].symbol, price, size, timestamp)] else []
            case Report(symbol, size, price, timestamp) => [OrderMessage(TRADE, symbol, price, size, timestamp)]
            case _ => []
  {
    FewParted(Handle(s, event).1);
    hide Trades, Updates, Added, LevelAt, KeyOf;
  }

  lemma {:induction false} TradesAppend(p: seq<OrderMessage>, q: seq<OrderMessage>)
    ensures Trades(p + q) == Trades(p) + Trades(q)
    decreases |q|
  {
    if q == [] {
      assert p + q == p;
    } else {
      assert (p + q)[..|p + q| - 1] == p + q[..|q| - 1];
      TradesAppend(p, q[..|q| - 1]);
    }
  }

  // ---- orders ------------------------------------------------------------------

  /** What the events that name one id leave of its order: the latest addition,
      with every later change applied, until it is deleted or filled. */
  function History(events: seq<Event>, id: u64): Option<Order>
    decreases |events|
  {
    if events == [] then None else
      var was := History(events[..|events| - 1], id);
      match events[|events| - 1]
      case Add(i, order, _) => if i == id then Some(order) else was
      case Delete(i, _) => if i == id then None else was
      case Modify(i, size, price, _) =>
        if i == id && was.Some? then Some(was.value.(size := size, price := price)) else was
      case Execute(i, size, _, _) =>
        if i != id || was.None? then was
        else if was.value.size > size then Some(was.value.(size := was.value.size - size)) else None
      case _ => was
  }

  /** The orders the decoder remembers are, for every id, what its history left:
      filled and deleted orders are forgotten, all others kept as they stand. */
  lemma {:induction false} OrdersExactly(events: seq<Event>, id: u64)
    ensures var orders := Decoded(START, events).0.orders;
      History(events, id) == if id in orders then Some(orders[id]) else None
    decreases |events|
  {
    if events != [] {
      OrdersExactly(events[..|events| - 1], id);
      hide Added, Announcement, KeyOf;
    }
  }

  /** Everything a stream's executions and reports print, in order, each order
      looked up in its own history. */
  function Tape(events: seq<Event>): seq<OrderMessage>
    decreases |events|
  {
    if events == [] then [] else
      var front := events[..|events| - 1];
      Tape(front) +
      match events[|events| - 1]
      case Execute(id, size, price, timestamp) =>
        var order := History(front, id);
        if order.Some? then [OrderMessage(TRADE, order.value.symbol, price, size, timestamp)] else []
      case Report(symbol, size, price, timestamp) => [OrderMessage(TRADE, symbol, price, size, timestamp)]
      case _ => []
  }

  /** The trades of any stream are, in order, those of its executions of live
      orders and of its reports: none is left out, made up or changed. */
  lemma {:induction false} TapeExactly(events: seq<Event>)
    ensures Trades(Decoded(START, events).1) == Tape(events)
    decreases |events|
  {
    if events != [] {
      var front, event := events[..|events| - 1], events[|events| - 1];
      TapeExactly(front);
      var (s, out) := Decoded(START, front);
      if event.Execute? {
        OrdersExactly(front, event.id);
      }
      TradesExactly(s, event);
      TradesAppend(out, Handle(s, event).1);
      hide Handle, Trades, History;
    }
  }

  /** How many deletions, changes and executions named no live order. */
  function Strays(events: seq<Event>): nat
    decreases |events|
  {
    if events == [] then 0 else
      var front, event := events[..|events| - 1], events[|events| - 1];
      Strays(front)
      + if (event.Delete? || event.Modify? || event.Execute?) && History(front, event.id).None? then 1 else 0
  }

  /** They are what the decoder counts as unknown references. */
  lemma {:induction false} UnknownExactly(events: seq<Event>)
    ensures Decoded(START, events).0.unknown == Strays(events)
    decreases |events|
  {
    if events != [] {
      var front, event := events[..|events| - 1], events[|events| - 1];
      UnknownExactly(front);
      if event.Delete? || event.Modify? || event.Execute? {
        OrdersExactly(front, event.id);
      }
      hide Added, Announcement, KeyOf, History;
    }
  }

  /** The event gives no order zero shares. */
  predicate GivesShares(event: Event) {
    (event.Add? ==> event.order.size > 0) && (event.Modify? ==> event.size > 0)
  }

  ghost predicate AllAlive(orders: map<u64, Order>) {
    forall id | id in orders :: orders[id].size > 0
  }

  lemma StaysAlive(s: DecoderState, event: Event)
    requires GivesShares(event) && AllAlive(s.orders)
    ensures AllAlive(Handle(s, event).0.orders)
  {
    hide Added, Announcement, KeyOf;
  }

  lemma NoOrders()
    ensures AllAlive(map[])
  {
  }

  /** No dead order is kept: if every addition and change leaves shares, every
      order remembered has some. */
  lemma {:induction false} NoDeadOrders(events: seq<Event>)
    requires forall k | 0 <= k < |events| :: GivesShares(events[k])
    ensures AllAlive(Decoded(START, events).0.orders)
    decreases |events|
  {
    hide Handle, GivesShares, AllAlive;
    assert AllAlive(START.orders) by {
      NoOrders();
    }
    if events != [] {
      var front := events[..|events| - 1];
      assert forall k | 0 <= k < |front| :: front[k] == events[k];
      NoDeadOrders(front);
      StaysAlive(Decoded(START, front).0, events[|events| - 1]);
    }
  }

  // ---- updates -----------------------------------------------------------------

  /** The level a bid or an ask is about. */
  function LevelOf(m: OrderMessage): LevelKey {
    LevelKey(CString(m.symbol), m.kind == ASK, m.price)
  }

  /** The levels an event changes: the one an order joins, leaves or shrinks at;
      for a move to another price, the one it leaves and then the one it joins. */
  function Touched(orders: map<u64, Order>, event: Event): seq<LevelKey> {
    match event
    case Add(_, order, _) => [LevelKey(CString(order.symbol), order.ask, order.price)]
    case Delete(id, _) => if id in orders then [OldLevel(orders[id])] else []
    case Modify(id, _, price, _) =>
      if id !in orders then []
      else if price == orders[id].price then [OldLevel(orders[id])]
      else [OldLevel(orders[id]), LevelKey(CString(orders[id].symbol), orders[id].ask, price)]
    case Execute(id, _, _, _) => if id in orders then [OldLevel(orders[id])] else []
    case _ => []
  }

  function OldLevel(order: Order): LevelKey {
    LevelKey(CString(order.symbol), order.ask, order.price)
  }

  /** The updates among what an event emits: exactly one for each level it
      changes, in that order, each announcing what then rests there, modulo 2^32,
      at the event's time; and they come before the trade. */
  lemma UpdatesExactly(s: DecoderState, event: Event)
    ensures var (t, out) := Handle(s, event);
      var updates, touched := Updates(out), Touched(s.orders, event);
      && out == updates + Trades(out) && |updates| == |touched|
      && forall k | 0 <= k < |updates| ::
           && (updates[k].kind == BID || updates[k].kind == ASK) && LevelOf(updates[k]) == touched[k]
           && updates[k].size == LevelAt(t.levels, touched[k]) % 0x1_0000_0000
           && updates[k].timestamp == event.timestamp
  {
    var (t, out) := Handle(s, event);
    FewParted(out);
    hide Trades, Updates, CString;
    if event.Modify? && event.id in s.orders && event.price != s.orders[event.id].price {
      var order := s.orders[event.id];
      var changed := order.(price := event.price, size := event.size);
      var left := Added(s.levels, KeyOf(order), 0 - order.size);
      AddedAt(left, KeyOf(changed), event.size, KeyOf(order));
    }
  }

  /** What an event adds to the total at a level. */
  function Change(orders: map<u64, Order>, event: Event, key: LevelKey): int {
    match event
    case Add(_, order, _) => if OldLevel(order) == key then order.size else 0
    case Delete(id, _) => if id in orders && OldLevel(orders[id]) == key then 0 - orders[id].size else 0
    case Modify(id, size, price, _) =>
      if id !in orders then 0
      else (if OldLevel(orders[id]) == key then 0 - orders[id].size else 0)
           + (if OldLevel(orders[id].(price := price)) == key then size else 0)
    case Execute(id, size, _, _) => if id in orders && OldLevel(orders[id]) == key then 0 - size else 0
    case _ => 0
  }

  /** Every level moves by what the event adds to it, but not below zero, and no
      other level moves: in any state, for well-behaved venues and others. */
  lemma LevelsExactly(s: DecoderState, event: Event, key: LevelKey)
    requires LevelAt(s.levels, key) >= 0
    ensures var total := LevelAt(s.levels, key) + Change(s.orders, event, key);
      LevelAt(Handle(s, event).0.levels, key)
        == if key !in Touched(s.orders, event) then LevelAt(s.levels, key) else if total > 0 then total else 0
  {
    hide CString, Announcement;
    if !event.Ignored? && !event.Report? && (event.Add? || event.id in s.orders) {
      if event.Modify? && event.price != s.orders[event.id].price {
        var order := s.orders[event.id];
        var changed := order.(price := event.price, size := event.size);
        AddedAt(s.levels, KeyOf(order), 0 - order.size, key);
        AddedAt(Added(s.levels, KeyOf(order), 0 - order.size), KeyOf(changed), event.size, key);
      }
    }
  }
}
