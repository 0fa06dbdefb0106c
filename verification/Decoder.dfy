// Order events in, price-level updates out: an incremental index from
// (symbol, side, price) to the total size resting there.
module Decoder {
  import opened Bytes
  import opened Messages

  const SPACE: byte := 32

  datatype Order = Order(symbol: Symbol, price: i64, size: u32, ask: bool)

  /** One entry of the per-symbol, per-side tables of price levels. */
  datatype LevelKey = LevelKey(name: seq<byte>, ask: bool, price: i64)

  type LevelMap = map<LevelKey, int>

  datatype DecoderState = DecoderState(orders: map<u64, Order>, levels: LevelMap, unknown: nat)

  function KeyOf(order: Order): LevelKey {
    LevelKey(CString(order.symbol), order.ask, order.price)
  }

  function LevelAt(levels: LevelMap, key: LevelKey): int {
    if key in levels then levels[key] else 0
  }

  /** How many of the first eight characters are left when trailing spaces and
      NULs are dropped. */
  function TrimmedLength(bytes: seq<byte>): (length: nat)
    ensures length <= |bytes|
    ensures forall k | length <= k < |bytes| :: bytes[k] == SPACE || bytes[k] == 0
    ensures length > 0 ==> bytes[length - 1] != SPACE && bytes[length - 1] != 0
  {
    if bytes == [] || (bytes[|bytes| - 1] != SPACE && bytes[|bytes| - 1] != 0) then |bytes|
    else TrimmedLength(bytes[..|bytes| - 1])
  }

  /** What copy_symbol leaves in a buffer that held `was`. */
  function Trimmed(was: Symbol, bytes: seq<byte>): Symbol
    requires |bytes| == 8
  {
    var length := TrimmedLength(bytes);
    bytes[..length] + [0] + was[length + 1..]
  }

  /** The order events, as the bytes of one message spell them. */
  datatype Event =
    | Ignored
    | Add(id: u64, order: Order, timestamp: u64)
    | Delete(id: u64, timestamp: u64)
    | Modify(id: u64, size: u32, price: i64, timestamp: u64)
    | Execute(id: u64, size: u32, price: i64, timestamp: u64)
    | Report(symbol: Symbol, size: u32, price: i64, timestamp: u64)

  function EventOf(bytes: seq<byte>): Event {
    if |bytes| < 26 then Ignored
    else
      var timestamp := GetU64(bytes, 2);
      if bytes[0] == 0x61 && |bytes| >= 38 && (bytes[1] == 0x38 || bytes[1] == 0x35) then
        Add(GetU64(bytes, 18),
            Order(Trimmed(NO_SYMBOL, bytes[10..18]), Signed(GetU64(bytes, 30)), GetU32(bytes, 26), bytes[1] == 0x35),
            timestamp)
      else if bytes[0] == 0x52 then Delete(GetU64(bytes, 18), timestamp)
      else if bytes[0] == 0x4d && |bytes| >= 38 then
        Modify(GetU64(bytes, 18), GetU32(bytes, 26), Signed(GetU64(bytes, 30)), timestamp)
      else if bytes[0] == 0x4c && |bytes| >= 46 then
        Execute(GetU64(bytes, 18), GetU32(bytes, 26), Signed(GetU64(bytes, 30)), timestamp)
      else if bytes[0] == 0x54 && |bytes| >= 38 then
        Report(Trimmed(NO_SYMBOL, bytes[10..18]), GetU32(bytes, 18), Signed(GetU64(bytes, 22)), timestamp)
      else Ignored
  }

  /** The table after delta is added at key: a total of zero or less leaves no
      entry behind. */
  function Added(levels: LevelMap, key: LevelKey, delta: int): LevelMap {
    var total := LevelAt(levels, key) + delta;
    if total <= 0 then levels - {key} else levels[key := total]
  }

  /** The update announcing the level of `order`: its size is truncated to 32
      bits. */
  function Announcement(levels: LevelMap, order: Order, timestamp: u64): OrderMessage {
    OrderMessage(if order.ask then ASK else BID, order.symbol, order.price,
                 LevelAt(levels, KeyOf(order)) % 0x1_0000_0000, timestamp)
  }

  function TradeMessage(symbol: Symbol, price: i64, size: u32, timestamp: u64): OrderMessage {
    OrderMessage(TRADE, symbol, price, size, timestamp)
  }

  /** The state after an event, and the messages it emits. */
  function Handle(s: DecoderState, event: Event): (DecoderState, seq<OrderMessage>) {
    match event
    case Ignored => (s, [])
    case Add(id, order, timestamp) =>
      var levels := Added(s.levels, KeyOf(order), order.size);
      (s.(orders := s.orders[id := order], levels := levels), [Announcement(levels, order, timestamp)])
    case Report(symbol, size, price, timestamp) => (s, [TradeMessage(symbol, price, size, timestamp)])
    case _ =>
      if event.id !in s.orders then (s.(unknown := s.unknown + 1), []) else HandleKnown(s, event)
  }

  function HandleKnown(s: DecoderState, event: Event): (DecoderState, seq<OrderMessage>)
    requires event.Delete? || event.Modify? || event.Execute?
    requires event.id in s.orders
  {
    var order := s.orders[event.id];
    match event
    case Delete(id, timestamp) =>
      var levels := Added(s.levels, KeyOf(order), 0 - order.size);
      (s.(orders := s.orders - {id}, levels := levels), [Announcement(levels, order, timestamp)])
    case Modify(id, size, price, timestamp) =>
      var changed := order.(price := price, size := size);
      if price == order.price then
        var levels := Added(s.levels, KeyOf(order), size - order.size);
        (s.(orders := s.orders[id := changed], levels := levels), [Announcement(levels, order, timestamp)])
      else
        var left := Added(s.levels, KeyOf(order), 0 - order.size);
        var joined := Added(left, KeyOf(changed), size);
        (s.(orders := s.orders[id := changed], levels := joined),
         [Announcement(left, order, timestamp), Announcement(joined, changed, timestamp)])
    case Execute(id, size, price, timestamp) =>
      var levels := Added(s.levels, KeyOf(order), 0 - size);
      var orders := if size >= order.size then s.orders - {id} else s.orders[id := order.(size := order.size - size)];
      (s.(orders := orders, levels := levels),
       [Announcement(levels, order, timestamp), TradeMessage(order.symbol, price, size, timestamp)])
  }

  method CopySymbol(destination: array<byte>, bytes: seq<byte>)
    requires destination.Length == 9 && |bytes| == 8
    modifies destination
    ensures destination[..] == Trimmed(old(destination[..]), bytes)
  {
    var length := 8;
    assert bytes[..8] == bytes;
    while length > 0 && (bytes[length - 1] == SPACE || bytes[length - 1] == 0)
      invariant 0 <= length <= 8
      invariant TrimmedLength(bytes) == TrimmedLength(bytes[..length])
    {
      assert bytes[..length][..length - 1] == bytes[..length - 1];
      length := length - 1;
    }
    assert TrimmedLength(bytes) == length;
    hide TrimmedLength;
    Copy(destination, 0, bytes[..length]);
    destination[length] := 0;
  }

  /** Copies a symbol field into a zeroed buffer. */
  method ReadSymbol(bytes: seq<byte>) returns (symbol: Symbol)
    requires |bytes| == 8
    ensures symbol == Trimmed(NO_SYMBOL, bytes)
  {
    var buffer := new byte[9](i => 0);
    assert buffer[..] == NO_SYMBOL;
    CopySymbol(buffer, bytes);
    symbol := buffer[..];
  }

  class DeepPlusDecoder {
    var orders: map<u64, Order>
    var levels: LevelMap
    var unknownReferences: nat

    function State(): DecoderState
      reads this
    {
      DecoderState(orders, levels, unknownReferences)
    }

    constructor ()
      ensures State() == DecoderState(map[], map[], 0)
    {
      orders, levels, unknownReferences := map[], map[], 0;
    }

    method AddLevel(output: array<OrderMessage>, count: nat, order: Order, delta: int, timestamp: u64)
      requires count < output.Length
      modifies this`levels, output
      ensures levels == Added(old(levels), KeyOf(order), delta)
      ensures output[..] == old(output[..])[count := Announcement(levels, order, timestamp)]
    {
      var key := KeyOf(order);
      var total := LevelAt(levels, key) + delta;
      levels := levels[key := total];
      if total <= 0 {
        levels := levels - {key};
        total := 0;
      }
      output[count] := OrderMessage(if order.ask then ASK else BID, order.symbol, order.price,
                                    total % 0x1_0000_0000, timestamp);
    }

    /** Decodes one message; the first `count` cells of `output` hold what it
        emits. */
    method Decode(bytes: seq<byte>, output: array<OrderMessage>) returns (count: nat)
      requires output.Length == 2
      modifies this, output
      ensures count <= 2
      ensures State() == Handle(old(State()), EventOf(bytes)).0
      ensures output[..count] == Handle(old(State()), EventOf(bytes)).1
      ensures |bytes| >= 46 && bytes[0] == 0x4c && GetU64(bytes, 18) in old(orders) ==>
        var order := old(orders)[GetU64(bytes, 18)];
        && count == 2 && output[0].price == order.price && output[0].symbol == order.symbol
        && output[1]
           == OrderMessage(TRADE, order.symbol, Signed(GetU64(bytes, 30)), GetU32(bytes, 26), GetU64(bytes, 2))
      ensures |bytes| >= 38 && bytes[0] == 0x54 ==>
        count == 1 && output[0]
           == OrderMessage(TRADE, Trimmed(NO_SYMBOL, bytes[10..18]), Signed(GetU64(bytes, 22)), GetU32(bytes, 18),
                           GetU64(bytes, 2))
    {
      hide Trimmed, TrimmedLength, GetU32, GetU64, Signed;
      count := 0;
      if |bytes| < 26 {
        return;
      }
      var timestamp := GetU64(bytes, 2);
      if bytes[0] == 0x61 && |bytes| >= 38 && (bytes[1] == 0x38 || bytes[1] == 0x35) {
        var symbol := ReadSymbol(bytes[10..18]);
        var order := Order(symbol, Signed(GetU64(bytes, 30)), GetU32(bytes, 26), bytes[1] == 0x35);
        var id := GetU64(bytes, 18);
        orders := orders[id := order];
        AddLevel(output, 0, order, order.size, timestamp);
        return 1;
      }
      if bytes[0] == 0x52 {
        var id := GetU64(bytes, 18);
        if id !in orders {
          unknownReferences := unknownReferences + 1;
          return 0;
        }
        AddLevel(output, 0, orders[id], 0 - orders[id].size, timestamp);
        orders := orders - {id};
        return 1;
      }
      if bytes[0] == 0x4d && |bytes| >= 38 {
        var id := GetU64(bytes, 18);
        if id !in orders {
          unknownReferences := unknownReferences + 1;
          return 0;
        }
        count := ModifyOrder(id, GetU32(bytes, 26), Signed(GetU64(bytes, 30)), timestamp, output);
        return;
      }
      if bytes[0] == 0x4c && |bytes| >= 46 {
        var id := GetU64(bytes, 18);
        if id !in orders {
          unknownReferences := unknownReferences + 1;
          return 0;
        }
        count := ExecuteOrder(id, GetU32(bytes, 26), Signed(GetU64(bytes, 30)), timestamp, output);
        return;
      }
      if bytes[0] == 0x54 && |bytes| >= 38 {
        var symbol := ReadSymbol(bytes[10..18]);
        output[0] := OrderMessage(TRADE, symbol, Signed(GetU64(bytes, 22)), GetU32(bytes, 18), timestamp);
        return 1;
      }
    }

    method ModifyOrder(id: u64, size: u32, price: i64, timestamp: u64, output: array<OrderMessage>) returns (count: nat)
      requires output.Length == 2 && id in orders
      modifies this, output
      ensures count <= 2
      ensures State() == Handle(old(State()), Modify(id, size, price, timestamp)).0
      ensures output[..count] == Handle(old(State()), Modify(id, size, price, timestamp)).1
    {
      var order := orders[id];
      if price == order.price {
        AddLevel(output, 0, order, size - order.size, timestamp);
        count := 1;
      } else {
        AddLevel(output, 0, order, 0 - order.size, timestamp);
        order := order.(price := price);
        AddLevel(output, 1, order, size, timestamp);
        count := 2;
      }
      order := order.(size := size);
      orders := orders[id := order];
    }

    method ExecuteOrder(id: u64, size: u32, price: i64, timestamp: u64, output: array<OrderMessage>)
      returns (count: nat)
      requires output.Length == 2 && id in orders
      modifies this, output
      ensures count <= 2
      ensures State() == Handle(old(State()), Execute(id, size, price, timestamp)).0
      ensures output[..count] == Handle(old(State()), Execute(id, size, price, timestamp)).1
      ensures var order := old(orders)[id];
        && count == 2 && output[0].price == order.price && output[0].symbol == order.symbol
        && output[1] == OrderMessage(TRADE, order.symbol, price, size, timestamp)
    {
      var order := orders[id];
      AddLevel(output, 0, order, 0 - size, timestamp);
      output[1] := OrderMessage(TRADE, order.symbol, price, size, timestamp);
      count := 2;
      if size >= order.size {
        orders := orders - {id};
      } else {
        orders := orders[id := order.(size := order.size - size)];
      }
    }
  }
}
