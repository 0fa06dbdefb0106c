// The decoder's table of price levels against two references: the sum over
// the live orders, and the book a consumer builds from what was announced.
module DecoderLaws {
  import opened Bytes
  import opened Collections
  import opened Messages
  import opened Decoder
  import opened Books
  import BookLaws

  function Share(order: Order, key: LevelKey): int {
    if KeyOf(order) == key then order.size else 0
  }

  /** The total size of the live orders resting at key. */
  function Resting(orders: map<u64, Order>, key: LevelKey): int
    decreases |orders|
  {
    if orders == map[] then 0 else
      var id := MinOf(orders.Keys);
      Smaller(orders, id);
      Share(orders[id], key) + Resting(orders - {id}, key)
  }

  lemma Smaller(orders: map<u64, Order>, id: u64)
    requires id in orders
    ensures |orders - {id}| == |orders| - 1
  {
    assert (orders - {id}).Keys == orders.Keys - {id};
  }

  /** Any one order may be taken out of the sum first. */
  lemma {:induction false} RestingWithout(orders: map<u64, Order>, id: u64, key: LevelKey)
    requires id in orders
    ensures Resting(orders, key) == Share(orders[id], key) + Resting(orders - {id}, key)
    decreases |orders|
  {
    var first := MinOf(orders.Keys);
    if first != id {
      Smaller(orders, first);
      RestingWithout(orders - {first}, id, key);
      var rest := orders - {id};
      Smaller(rest, first);
      RestingWithout(rest, first, key);
      assert orders - {first} - {id} == rest - {first};
    }
  }

  lemma {:induction false} RestingNonNegative(orders: map<u64, Order>, key: LevelKey)
    ensures Resting(orders, key) >= 0
    decreases |orders|
  {
    if orders != map[] {
      Smaller(orders, MinOf(orders.Keys));
      RestingNonNegative(orders - {MinOf(orders.Keys)}, key);
    }
  }

  lemma RestingWith(orders: map<u64, Order>, id: u64, order: Order, key: LevelKey)
    ensures Resting(orders[id := order], key)
            == Resting(orders, key) + Share(order, key) - (if id in orders then Share(orders[id], key) else 0)
  {
    var after := orders[id := order];
    RestingWithout(after, id, key);
    if id in orders {
      RestingWithout(orders, id, key);
      assert after - {id} == orders - {id};
    } else {
      assert after - {id} == orders;
    }
  }

  ghost predicate Positive(levels: LevelMap) {
    forall key | key in levels :: levels[key] > 0
  }

  /** Every level is the sum of the live orders resting there, and is absent
      exactly when that sum is zero. */
  ghost predicate Consistent(s: DecoderState) {
    && Positive(s.levels)
    && (forall key: LevelKey :: LevelAt(s.levels, key) == Resting(s.orders, key))
  }

  /** What a venue that reuses no live id and fills no more than is left never
      violates. A reused id is harmless if nothing of the old order is left;
      an overfill is harmless if the order is all there is at its level. */
  predicate Sound(s: DecoderState, event: Event) {
    match event
    case Add(id, _, _) => id in s.orders ==> s.orders[id].size == 0
    case Execute(id, size, _, _) =>
      id in s.orders ==> size <= s.orders[id].size || LevelAt(s.levels, KeyOf(s.orders[id])) == s.orders[id].size
    case _ => true
  }

  lemma AddedAt(levels: LevelMap, key: LevelKey, delta: int, other: LevelKey)
    ensures LevelAt(Added(levels, key, delta), other)
            == if other != key then LevelAt(levels, other)
               else if LevelAt(levels, key) + delta <= 0 then 0 else LevelAt(levels, key) + delta
    ensures Positive(levels) ==> Positive(Added(levels, key, delta))
  {
  }

  /** Every event keeps the table equal to the sums exactly when it is sound. */
  lemma SumsKept(s: DecoderState, event: Event)
    requires Consistent(s)
    ensures Consistent(Handle(s, event).0) <==> Sound(s, event)
  {
    match event
    case Add(id, order, _) => SumsKeptByAdd(s, id, order, event.timestamp);
    case Delete(id, _) => SumsKeptByDelete(s, event);
    case Modify(id, _, _, _) => SumsKeptByModify(s, event);
    case Execute(id, _, _, _) => SumsKeptByExecute(s, event);
    case _ =>
  }

  lemma SumsKeptByAdd(s: DecoderState, id: u64, order: Order, timestamp: u64)
    requires Consistent(s)
    ensures Consistent(Handle(s, Add(id, order, timestamp)).0) <==> Sound(s, Add(id, order, timestamp))
  {
    var t := Handle(s, Add(id, order, timestamp)).0;
    AddedAt(s.levels, KeyOf(order), order.size, KeyOf(order));
    forall key: LevelKey
      ensures LevelAt(t.levels, key) == LevelAt(s.levels, key) + Share(order, key)
      ensures Resting(t.orders, key)
          == Resting(s.orders, key) + Share(order, key) - (if id in s.orders then Share(s.orders[id], key) else 0)
    {
      RestingNonNegative(s.orders, key);
      AddedAt(s.levels, KeyOf(order), order.size, key);
      RestingWith(s.orders, id, order, key);
    }
    if id in s.orders && Consistent(t) {
      assert LevelAt(t.levels, KeyOf(s.orders[id])) == Resting(t.orders, KeyOf(s.orders[id]));
    }
  }

  lemma SumsKeptByDelete(s: DecoderState, event: Event)
    requires Consistent(s) && event.Delete?
    ensures Consistent(Handle(s, event).0)
  {
    if event.id in s.orders {
      var order := s.orders[event.id];
      AddedAt(s.levels, KeyOf(order), 0 - order.size, KeyOf(order));
      forall key: LevelKey ensures LevelAt(Handle(s, event).0.levels, key) == Resting(Handle(s, event).0.orders, key) {
        AddedAt(s.levels, KeyOf(order), 0 - order.size, key);
        RestingWithout(s.orders, event.id, key);
        RestingNonNegative(s.orders - {event.id}, key);
      }
    }
  }

  lemma SumsKeptByModify(s: DecoderState, event: Event)
    requires Consistent(s) && event.Modify?
    ensures Consistent(Handle(s, event).0)
  {
    if event.id in s.orders {
      var order := s.orders[event.id];
      var changed := order.(price := event.price, size := event.size);
      assert Handle(s, event).0.levels == Modified(s.levels, order, changed);
      assert Handle(s, event).0.orders == s.orders[event.id := changed];
      hide Handle, Modified, Resting;
      forall key: LevelKey
        ensures LevelAt(Handle(s, event).0.levels, key)
            == LevelAt(s.levels, key) - Share(order, key) + Share(changed, key)
      {
        RestingWithout(s.orders, event.id, key);
        RestingNonNegative(s.orders - {event.id}, key);
        RestingWithout(s.orders, event.id, KeyOf(order));
        RestingNonNegative(s.orders - {event.id}, KeyOf(order));
        RestingNonNegative(s.orders, KeyOf(changed));
        ModifiedLevel(s.levels, order, changed, key);
      }
      PositiveModified(s.levels, order, changed);
      forall key: LevelKey ensures LevelAt(Handle(s, event).0.levels, key) == Resting(Handle(s, event).0.orders, key) {
        RestingWith(s.orders, event.id, changed, key);
      }
    }
  }

  /** The table after an order is changed in place or moved. */
  function Modified(levels: LevelMap, order: Order, changed: Order): LevelMap {
    if changed.price == order.price then Added(levels, KeyOf(order), changed.size - order.size)
    else Added(Added(levels, KeyOf(order), 0 - order.size), KeyOf(changed), changed.size)
  }

  lemma PositiveModified(levels: LevelMap, order: Order, changed: Order)
    requires Positive(levels)
    ensures Positive(Modified(levels, order, changed))
  {
  }

  lemma ModifiedLevel(levels: LevelMap, order: Order, changed: Order, key: LevelKey)
    requires changed == order.(price := changed.price, size := changed.size)
    requires LevelAt(levels, KeyOf(order)) >= order.size && LevelAt(levels, KeyOf(changed)) >= 0
    ensures LevelAt(Modified(levels, order, changed), key)
        == LevelAt(levels, key) - Share(order, key) + Share(changed, key)
  {
    AddedAt(levels, KeyOf(order), changed.size - order.size, key);
    AddedAt(levels, KeyOf(order), 0 - order.size, key);
    AddedAt(levels, KeyOf(order), 0 - order.size, KeyOf(changed));
    AddedAt(Added(levels, KeyOf(order), 0 - order.size), KeyOf(changed), changed.size, key);
  }

  lemma RestingExecuted(orders: map<u64, Order>, id: u64, size: u32, key: LevelKey)
    requires id in orders
    ensures var order := orders[id];
      var after := if size >= order.size then orders - {id} else orders[id := order.(size := order.size - size)];
      Resting(after, key) == Resting(orders, key) - (if key != KeyOf(order) then 0
        else if size >= order.size then order.size else size)
    ensures Resting(orders, key) >= Share(orders[id], key)
  {
    var order := orders[id];
    RestingWithout(orders, id, key);
    RestingNonNegative(orders - {id}, key);
    if size < order.size {
      RestingWith(orders, id, order.(size := order.size - size), key);
    }
  }

  /** What an execution does at each level, to the table and to the sums. */
  lemma ExecutedAt(s: DecoderState, event: Event, key: LevelKey)
    requires Consistent(s) && event.Execute? && event.id in s.orders
    ensures var order, t := s.orders[event.id], Handle(s, event).0;
      && Positive(t.levels) && Resting(s.orders, key) >= Share(order, key)
      && LevelAt(t.levels, key) == (if key != KeyOf(order) then LevelAt(s.levels, key)
           else if LevelAt(s.levels, key) <= event.size then 0 else LevelAt(s.levels, key) - event.size)
      && Resting(t.orders, key) == Resting(s.orders, key) - (if key != KeyOf(order) then 0
           else if event.size >= order.size then order.size else event.size)
  {
    hide Added, LevelAt, Resting, Announcement, Positive;
    AddedAt(s.levels, KeyOf(s.orders[event.id]), 0 - event.size, key);
    RestingExecuted(s.orders, event.id, event.size, key);
  }

  lemma SumsKeptByExecute(s: DecoderState, event: Event)
    requires Consistent(s) && event.Execute?
    ensures Consistent(Handle(s, event).0) <==> Sound(s, event)
  {
    if event.id in s.orders {
      hide Handle, Added, LevelAt, Resting, Positive, KeyOf;
      var key, t := KeyOf(s.orders[event.id]), Handle(s, event).0;
      ExecutedAt(s, event, key);
      forall other: LevelKey
        ensures LevelAt(t.levels, other) == Resting(t.orders, other) || other == key
      {
        ExecutedAt(s, event, other);
      }
    }
  }

  /** The state after a whole stream of events, and everything it emitted. */
  function Decoded(s: DecoderState, events: seq<Event>): (DecoderState, seq<OrderMessage>)
    decreases |events|
  {
    if events == [] then (s, []) else
      var front := Decoded(s, events[..|events| - 1]);
      var last := Handle(front.0, events[|events| - 1]);
      (last.0, front.1 + last.1)
  }

  const START: DecoderState := DecoderState(map[], map[], 0)

  ghost predicate ConsistentAfter(events: seq<Event>) {
    Consistent(Decoded(START, events).0)
  }

  ghost predicate SoundNext(events: seq<Event>, event: Event) {
    Sound(Decoded(START, events).0, event)
  }

  lemma ConsistentStep(events: seq<Event>, event: Event)
    requires ConsistentAfter(events)
    ensures ConsistentAfter(events + [event]) <==> SoundNext(events, event)
  {
    assert (events + [event])[..|events|] == events;
    SumsKept(Decoded(START, events).0, event);
  }

  lemma ConsistentAtStart()
    ensures ConsistentAfter([])
  {
    hide Handle;
  }

  /** The sums are right after every prefix of a stream exactly when every
      event of the stream was sound when it arrived. */
  lemma {:induction false} SumsKeptAlways(events: seq<Event>, upTo: nat)
    requires upTo <= |events|
    ensures (forall n | 0 <= n <= upTo :: ConsistentAfter(events[..n]))
       <==> (forall n | 0 <= n < upTo :: SoundNext(events[..n], events[n]))
    decreases upTo
  {
    hide ConsistentAfter, SoundNext;
    if upTo == 0 {
      ConsistentAtStart();
      assert events[..0] == [];
    } else {
      SumsKeptAlways(events, upTo - 1);
      assert events[..upTo] == events[..upTo - 1] + [events[upTo - 1]];
      if ConsistentAfter(events[..upTo - 1]) {
        ConsistentStep(events[..upTo - 1], events[upTo - 1]);
      }
    }
  }

  /** A reused live id breaks the sums: the first order's shares stay in the
      table after the order itself is forgotten. */
  lemma ReusedIdBreaksSums()
    ensures var add := Add(1, Order(NO_SYMBOL, 100, 10, false), 0);
      ConsistentAfter([add]) && !ConsistentAfter([add, add])
  {
    var add := Add(1, Order(NO_SYMBOL, 100, 10, false), 0);
    assert [] + [add] == [add] && [add] + [add] == [add, add];
    ConsistentStep([], add);
    assert [add][..0] == [];
    ConsistentStep([add], add);
  }

  /** So does an execution of more than is left of an order that shares its
      level: the excess is taken from the other order. */
  lemma OverfillBreaksSums()
    ensures var order := Order(NO_SYMBOL, 100, 10, false);
      var adds := [Add(1, order, 0), Add(2, order, 0)];
      ConsistentAfter(adds) && !ConsistentAfter(adds + [Execute(1, 15, 100, 0)])
  {
    var order := Order(NO_SYMBOL, 100, 10, false);
    var first, second, fill := Add(1, order, 0), Add(2, order, 0), Execute(1, 15, 100, 0);
    assert [] + [first] == [first] && [first] + [second] == [first, second] && [first][..0] == [];
    assert [first, second][..1] == [first];
    ConsistentStep([], first);
    ConsistentStep([first], second);
    ConsistentStep([first, second], fill);
  }

  // ---- the book a consumer builds -------------------------------------------

  function SizeIn(side: Side, price: i64): int {
    if price in side then side[price] else 0
  }

  function BookSize(books: Shelf, key: LevelKey): int {
    SizeIn(if key.ask then On(books, key.name).asks else On(books, key.name).bids, key.price)
  }

  /** The consumer's books show exactly the decoder's table. */
  ghost predicate Shows(books: Shelf, levels: LevelMap) {
    forall key: LevelKey :: BookSize(books, key) == LevelAt(levels, key)
  }

  ghost predicate FitsWords(levels: LevelMap) {
    forall key | key in levels :: levels[key] < 0x1_0000_0000
  }

  lemma BookSizeAfter(books: Shelf, m: OrderMessage, key: LevelKey)
    ensures BookSize(ApplyBooks(books, m), key)
            == if (m.kind == BID || m.kind == ASK) && key == LevelKey(CString(m.symbol), m.kind == ASK, m.price)
               then m.size else BookSize(books, key)
  {
  }

  /** What the 32-bit size field of an update cannot hold. */
  const SIZE_LIMIT: nat := 0x1_0000_0000

  /** One changed level, announced and applied: the book follows exactly when
      the old total plus the change fits the 32-bit size field. */
  lemma AnnouncedLevelShows(books: Shelf, levels: LevelMap, order: Order, delta: int, timestamp: u64)
    requires Positive(levels) && Shows(books, levels)
    ensures var after := Added(levels, KeyOf(order), delta);
      Shows(ApplyBooks(books, Announcement(after, order, timestamp)), after)
      <==> LevelAt(levels, KeyOf(order)) + delta < SIZE_LIMIT
  {
    var after := Added(levels, KeyOf(order), delta);
    var m := Announcement(after, order, timestamp);
    var shown := ApplyBooks(books, m);
    AddedAt(levels, KeyOf(order), delta, KeyOf(order));
    forall key: LevelKey
      ensures BookSize(shown, key) == if key == KeyOf(order) then m.size else BookSize(books, key)
      ensures key != KeyOf(order) ==> LevelAt(after, key) == LevelAt(levels, key)
    {
      BookSizeAfter(books, m, key);
      AddedAt(levels, KeyOf(order), delta, key);
    }
    assert BookSize(shown, KeyOf(order)) == LevelAt(after, KeyOf(order)) % 0x1_0000_0000;
  }

  lemma ShownFits(books: Shelf, levels: LevelMap)
    requires Shows(books, levels)
    ensures FitsWords(levels)
  {
    forall key | key in levels ensures levels[key] < 0x1_0000_0000 {
      assert BookSize(books, key) == LevelAt(levels, key);
    }
  }

  lemma TradeShows(books: Shelf, m: OrderMessage, levels: LevelMap)
    requires m.kind == TRADE
    ensures Shows(ApplyBooks(books, m), levels) <==> Shows(books, levels)
  {
    forall key: LevelKey ensures BookSize(ApplyBooks(books, m), key) == BookSize(books, key) {
      BookSizeAfter(books, m, key);
    }
    if Shows(ApplyBooks(books, m), levels) {
      forall key: LevelKey ensures BookSize(books, key) == LevelAt(levels, key) {
        assert BookSize(ApplyBooks(books, m), key) == LevelAt(levels, key);
      }
    }
  }

  lemma ReplayFew(books: Shelf, out: seq<OrderMessage>)
    ensures |out| == 0 ==> BookLaws.ReplayBooks(books, out) == books
    ensures |out| == 1 ==> BookLaws.ReplayBooks(books, out) == ApplyBooks(books, out[0])
    ensures |out| == 2 ==> BookLaws.ReplayBooks(books, out) == ApplyBooks(ApplyBooks(books, out[0]), out[1])
  {
    if |out| == 1 {
      assert out[..0] == [];
    } else if |out| == 2 {
      assert out[..1][..0] == [];
      assert BookLaws.ReplayBooks(books, out[..1]) == ApplyBooks(books, out[0]);
    }
  }

  /** The level of `order` changes by delta and the change is announced. */
  lemma OneLevelShows(books: Shelf, levels: LevelMap, order: Order, delta: int, timestamp: u64)
    requires Positive(levels) && Shows(books, levels)
    ensures Positive(Added(levels, KeyOf(order), delta))
    ensures var after := Added(levels, KeyOf(order), delta);
      var shows := Shows(ApplyBooks(books, Announcement(after, order, timestamp)), after);
      (shows <==> LevelAt(levels, KeyOf(order)) + delta < SIZE_LIMIT) && (delta <= 0 ==> shows)
  {
    ShownFits(books, levels);
    AddedAt(levels, KeyOf(order), delta, KeyOf(order));
    AnnouncedLevelShows(books, levels, order, delta, timestamp);
  }

  /** The total an event raises stays within 32 bits: what rests at the level it
      changes, plus the change. Deletions and executions raise none. */
  predicate Roomy(s: DecoderState, event: Event) {
    match event
    case Add(_, order, _) => LevelAt(s.levels, KeyOf(order)) + order.size < SIZE_LIMIT
    case Modify(id, size, price, _) =>
      id in s.orders ==>
        var order := s.orders[id];
        if price == order.price then LevelAt(s.levels, KeyOf(order)) + size - order.size < SIZE_LIMIT
        else LevelAt(s.levels, KeyOf(order.(price := price))) + size < SIZE_LIMIT
    case _ => true
  }

  /** Whatever one event does, sound or not, the consumer's book shows the
      table again exactly when the event was roomy before it was handled. */
  lemma BookFollows(s: DecoderState, books: Shelf, event: Event)
    requires Positive(s.levels) && Shows(books, s.levels)
    ensures Positive(Handle(s, event).0.levels)
    ensures Shows(BookLaws.ReplayBooks(books, Handle(s, event).1), Handle(s, event).0.levels) <==> Roomy(s, event)
  {
    ReplayFew(books, Handle(s, event).1);
    if event.Add? {
      OneLevelShows(books, s.levels, event.order, event.order.size, event.timestamp);
    } else if event.Report? {
      TradeShows(books, Handle(s, event).1[0], s.levels);
    } else if !event.Ignored? && event.id in s.orders {
      if event.Delete? {
        OneLevelShows(books, s.levels, s.orders[event.id], 0 - s.orders[event.id].size, event.timestamp);
      } else if event.Execute? {
        ExecuteShows(s, books, event);
      } else {
        ModifyShows(s, books, event);
      }
    }
  }

  lemma ExecuteShows(s: DecoderState, books: Shelf, event: Event)
    requires Positive(s.levels) && Shows(books, s.levels)
    requires event.Execute? && event.id in s.orders
    ensures Positive(Handle(s, event).0.levels)
    ensures Shows(BookLaws.ReplayBooks(books, Handle(s, event).1), Handle(s, event).0.levels)
  {
    var (t, out) := Handle(s, event);
    ReplayFew(books, out);
    OneLevelShows(books, s.levels, s.orders[event.id], 0 - event.size, event.timestamp);
    TradeShows(ApplyBooks(books, out[0]), out[1], t.levels);
  }

  lemma ModifyShows(s: DecoderState, books: Shelf, event: Event)
    requires Positive(s.levels) && Shows(books, s.levels)
    requires event.Modify? && event.id in s.orders
    ensures Positive(Handle(s, event).0.levels)
    ensures Shows(BookLaws.ReplayBooks(books, Handle(s, event).1), Handle(s, event).0.levels) <==> Roomy(s, event)
  {
    var order := s.orders[event.id];
    var changed := order.(price := event.price, size := event.size);
    var (t, out) := Handle(s, event);
    ReplayFew(books, out);
    if event.price == order.price {
      assert t.levels == Added(s.levels, KeyOf(order), event.size - order.size);
      OneLevelShows(books, s.levels, order, event.size - order.size, event.timestamp);
    } else {
      assert t.levels == Added(Added(s.levels, KeyOf(order), 0 - order.size), KeyOf(changed), changed.size);
      assert KeyOf(changed) == KeyOf(order.(price := event.price));
      MoveShows(books, s.levels, order, changed, event.timestamp);
    }
  }

  /** The order leaves one level and joins another. */
  lemma MoveShows(books: Shelf, levels: LevelMap, order: Order, changed: Order, timestamp: u64)
    requires Positive(levels) && Shows(books, levels) && KeyOf(changed) != KeyOf(order)
    ensures var left := Added(levels, KeyOf(order), 0 - order.size);
      var joined := Added(left, KeyOf(changed), changed.size);
      var leaves, joins := Announcement(left, order, timestamp), Announcement(joined, changed, timestamp);
      && Positive(joined)
      && (Shows(ApplyBooks(ApplyBooks(books, leaves), joins), joined)
          <==> LevelAt(levels, KeyOf(changed)) + changed.size < SIZE_LIMIT)
  {
    var left := Added(levels, KeyOf(order), 0 - order.size);
    AddedAt(levels, KeyOf(order), 0 - order.size, KeyOf(changed));
    OneLevelShows(books, levels, order, 0 - order.size, timestamp);
    OneLevelShows(ApplyBooks(books, Announcement(left, order, timestamp)), left, changed, changed.size, timestamp);
  }

  lemma {:induction false} ReplayAppend(books: Shelf, p: seq<OrderMessage>, q: seq<OrderMessage>)
    ensures BookLaws.ReplayBooks(books, p + q) == BookLaws.ReplayBooks(BookLaws.ReplayBooks(books, p), q)
    decreases |q|
  {
    if q == [] {
      assert p + q == p;
    } else {
      assert (p + q)[..|p + q| - 1] == p + q[..|q| - 1];
      ReplayAppend(books, p, q[..|q| - 1]);
    }
  }

  /** After these events, the books of a consumer that applied everything
      announced show the decoder's table. */
  ghost predicate ShownAfter(events: seq<Event>) {
    Shows(BookLaws.ReplayBooks(map[], Decoded(START, events).1), Decoded(START, events).0.levels)
  }

  ghost predicate RoomyNext(events: seq<Event>, event: Event) {
    Roomy(Decoded(START, events).0, event)
  }

  /** One event more: the book follows exactly when the event was roomy. */
  lemma ShownStep(events: seq<Event>, event: Event)
    requires Positive(Decoded(START, events).0.levels) && ShownAfter(events)
    ensures ShownAfter(events + [event]) <==> RoomyNext(events, event)
  {
    var (s, out) := Decoded(START, events);
    assert (events + [event])[..|events|] == events;
    var more := Handle(s, event).1;
    assert Decoded(START, events + [event]) == (Handle(s, event).0, out + more);
    ReplayAppend(map[], out, more);
    BookFollows(s, BookLaws.ReplayBooks(map[], out), event);
  }

  lemma {:induction false} PositiveAfter(events: seq<Event>)
    ensures Positive(Decoded(START, events).0.levels)
    decreases |events|
  {
    if events != [] {
      PositiveAfter(events[..|events| - 1]);
    }
  }

  /** Every event was roomy when it arrived: no total ever outgrew 32 bits. */
  ghost predicate AlwaysRoomy(events: seq<Event>) {
    forall n | 0 <= n < |events| :: RoomyNext(events[..n], events[n])
  }

  /** For any stream of messages, well-behaved or not, replaying all that was
      announced reproduces the table at every message boundary exactly when
      every event was roomy when it arrived. */
  lemma {:induction false} BookFollowsAlways(events: seq<Event>, upTo: nat)
    requires upTo <= |events|
    ensures (forall n | 0 <= n <= upTo :: ShownAfter(events[..n]))
       <==> (forall n | 0 <= n < upTo :: RoomyNext(events[..n], events[n]))
    decreases upTo
  {
    hide ShownAfter, RoomyNext;
    if upTo == 0 {
      NothingShown(events);
    } else {
      BookFollowsAlways(events, upTo - 1);
      assert events[..upTo] == events[..upTo - 1] + [events[upTo - 1]];
      PositiveAfter(events[..upTo - 1]);
      if ShownAfter(events[..upTo - 1]) {
        ShownStep(events[..upTo - 1], events[upTo - 1]);
      }
    }
  }

  lemma NothingShown(events: seq<Event>)
    ensures ShownAfter(events[..0])
  {
    assert events[..0] == [];
  }

  /** A total of exactly 2^32 is announced as zero, and the book loses the
      level. */
  lemma LargeTotalLeavesBookBehind()
    ensures var big := Add(1, Order(NO_SYMBOL, 100, 0xffff_ffff, false), 0);
      var one := Add(2, Order(NO_SYMBOL, 100, 1, false), 0);
      ShownAfter([big]) && !ShownAfter([big, one])
  {
    var big := Add(1, Order(NO_SYMBOL, 100, 0xffff_ffff, false), 0);
    var one := Add(2, Order(NO_SYMBOL, 100, 1, false), 0);
    assert [] + [big] == [big] && [big] + [one] == [big, one] && [big][..0] == [];
    NothingShown([]);
    ShownStep([], big);
    PositiveAfter([big]);
    ShownStep([big], one);
  }

  /** Neither the table nor any book ever stores an empty level. */
  lemma NothingEmptyStored(events: seq<Event>)
    ensures Positive(Decoded(START, events).0.levels)
    ensures BookLaws.Tidy(Replay(EMPTY_SET, Decoded(START, events).1))
  {
    PositiveAfter(events);
    BookLaws.ReplayStaysTidy(EMPTY_SET, Decoded(START, events).1);
  }

  // ---- what may be emitted ----------------------------------------------------

  ghost predicate Named(s: DecoderState) {
    forall id | id in s.orders :: Terminated(s.orders[id].symbol)
  }

  ghost predicate NamesTerminated(event: Event) {
    && (event.Add? ==> Terminated(event.order.symbol))
    && (event.Report? ==> Terminated(event.symbol))
  }

  lemma DecodedNamesTerminated(bytes: seq<byte>)
    ensures NamesTerminated(EventOf(bytes))
  {
  }

  /** What may follow an event: updates and trades at the event's time; the
      trades at the event's price and size. */
  ghost predicate Follows(m: OrderMessage, event: Event) {
    && !event.Ignored?
    && m.kind in {BID, ASK, TRADE} && Terminated(m.symbol) && m.timestamp == event.timestamp
    && (m.kind == TRADE ==> (event.Execute? || event.Report?) && m.size == event.size && m.price == event.price)
  }

  lemma HandleEmits(s: DecoderState, event: Event)
    requires Named(s) && NamesTerminated(event)
    ensures Named(Handle(s, event).0)
    ensures forall m | m in Handle(s, event).1 :: Follows(m, event)
  {
  }

  /** Decoding bytes emits only bids, asks and trades of the event's time, and
      their symbols are terminated: none of them is mistaken for the end of the
      stream, and each survives the wire unchanged. */
  lemma EmitsMarketData(s: DecoderState, bytes: seq<byte>)
    requires Named(s)
    ensures Named(Handle(s, EventOf(bytes)).0)
    ensures forall m | m in Handle(s, EventOf(bytes)).1 ::
              Follows(m, EventOf(bytes)) && m.kind != END && Terminated(m.symbol) && Decode(Encode(m)) == m
  {
    DecodedNamesTerminated(bytes);
    var event := EventOf(bytes);
    HandleEmits(s, event);
    hide EventOf, Handle, Encode, Decode;
    forall m | m in Handle(s, event).1 ensures m.kind != END && Decode(Encode(m)) == m {
      RoundTrip(m);
    }
  }
}
