// The order-event layouts the decoder reads, as a writer would produce them,
// and the proof that the decoder reads back what such a writer meant.
module EventWire {
  import opened Bytes
  import opened Messages
  import opened Decoder

  /** What a writer adds to an event that the decoder does not look at: a flag
      byte, the symbol where it is not needed, and whatever follows; and the
      spaces and NULs it fills up a shorter symbol with. */
  datatype Extra = Extra(flags: byte, symbol: seq<byte>, padding: seq<byte>, tail: seq<byte>)

  predicate Blank(b: byte) {
    b == SPACE || b == 0
  }

  /** The characters of a symbol; those inside may be spaces or NULs too. */
  type Name = s: seq<byte> | |s| <= 8 && (s != [] ==> !Blank(s[|s| - 1])) witness []

  /** The padding fills the name up to eight characters. */
  predicate Fills(name: Name, padding: seq<byte>) {
    |name| + |padding| == 8 && forall k | 0 <= k < |padding| :: Blank(padding[k])
  }

  /** A name in a nine-byte buffer, filled with NULs. */
  function SymbolOf(name: Name): Symbol {
    name + [0] + NO_SYMBOL[|name| + 1..]
  }

  lemma NameLength(name: Name, padding: seq<byte>)
    requires Fills(name, padding)
    ensures TrimmedLength(name + padding) == |name| && (name + padding)[..|name|] == name
  {
    var bytes, length := name + padding, TrimmedLength(name + padding);
    assert forall k | |name| <= k < 8 :: bytes[k] == padding[k - |name|];
    assert name != [] ==> bytes[|name| - 1] == name[|name| - 1];
    hide TrimmedLength;
  }

  lemma {:induction false} TextBeforeNul(text: seq<byte>, rest: seq<byte>)
    ensures CString(text + [0] + rest) == CString(text)
    decreases |text|
  {
    var all := text + [0] + rest;
    if text != [] {
      assert all[1..] == text[1..] + [0] + rest;
      TextBeforeNul(text[1..], rest);
    }
  }

  /** A padded name is read into a NUL-filled buffer as itself. */
  lemma TrimmedName(name: Name, padding: seq<byte>)
    requires Fills(name, padding)
    ensures Trimmed(NO_SYMBOL, name + padding) == SymbolOf(name)
    ensures CString(SymbolOf(name)) == CString(name) && Terminated(SymbolOf(name))
  {
    NameLength(name, padding);
    TextBeforeNul(name, NO_SYMBOL[|name| + 1..]);
    hide TrimmedLength, CString;
  }

  /** Every symbol field is some name, filled up. */
  lemma EveryFieldIsAName(field: seq<byte>)
    requires |field| == 8
    ensures exists name: Name, padding :: Fills(name, padding) && field == name + padding
  {
    var n := TrimmedLength(field);
    var name: Name, padding := field[..n], field[n..];
    assert forall k | 0 <= k < |padding| :: Blank(padding[k]) && padding[k] == field[n + k];
    assert field == name + padding && Fills(name, padding);
  }

  /** The first bytes every layout shares: kind, flags, timestamp, symbol. */
  function Opening(kind: byte, flags: byte, timestamp: u64, symbol: seq<byte>): (bytes: seq<byte>)
    requires |symbol| == 8
    ensures |bytes| == 18
  {
    [kind, flags] + LE(timestamp, 8) + symbol
  }

  function SideByte(ask: bool): byte {
    if ask then 0x35 else 0x38
  }

  function Priced(size: u32, price: i64): (bytes: seq<byte>)
    ensures |bytes| == 12
  {
    LE(size, 4) + LE(Unsigned(price), 8)
  }

  /** The bytes of an event; `name` is the symbol of an added order or a
      reported trade. */
  function Written(event: Event, name: Name, x: Extra): seq<byte>
    requires |x.symbol| == 8 && Fills(name, x.padding)
  {
    match event
    case Ignored => []
    case Add(id, order, timestamp) =>
      Opening(0x61, SideByte(order.ask), timestamp, name + x.padding) + LE(id, 8) + Priced(order.size, order.price)
          + x.tail
    case Delete(id, timestamp) => Opening(0x52, x.flags, timestamp, x.symbol) + LE(id, 8) + [] + x.tail
    case Modify(id, size, price, timestamp) =>
      Opening(0x4d, x.flags, timestamp, x.symbol) + LE(id, 8) + Priced(size, price) + x.tail
    case Execute(id, size, price, timestamp) =>
      Opening(0x4c, x.flags, timestamp, x.symbol) + LE(id, 8) + Priced(size, price) + x.tail
    case Report(_, size, price, timestamp) =>
      Opening(0x54, x.flags, timestamp, name + x.padding) + Priced(size, price) + x.tail
  }

  lemma Three(a: seq<byte>, b: seq<byte>, c: seq<byte>, all: seq<byte>)
    requires all == a + b + c
    ensures all[..|a|] == a && all[|a|..|a| + |b|] == b && all[|a| + |b|..] == all[|a| + |b|..|all|] == c
  {
  }

  lemma OpeningRead(bytes: seq<byte>, kind: byte, flags: byte, timestamp: u64, symbol: seq<byte>)
    requires |symbol| == 8 && Opening(kind, flags, timestamp, symbol) <= bytes
    ensures |bytes| >= 18 && bytes[0] == kind && bytes[1] == flags && bytes[10..18] == symbol
    ensures GetU64(bytes, 2) == timestamp
  {
    var head, time := Opening(kind, flags, timestamp, symbol), LE(timestamp, 8);
    assert head == [kind, flags] + time + symbol;
    hide Opening, LE, GetU64;
    Three([kind, flags], time, symbol, head);
    assert bytes[0] == head[0] && bytes[1] == head[1];
    Prefix(bytes, head, 2, 10);
    Prefix(bytes, head, 10, 18);
    ReadWord(bytes, 2, timestamp, 8);
  }

  lemma PricedRead(bytes: seq<byte>, at: nat, size: u32, price: i64)
    requires at + 12 <= |bytes| && bytes[at..at + 12] == Priced(size, price)
    ensures GetU32(bytes, at) == size && Signed(GetU64(bytes, at + 4)) == price
  {
    var part := Priced(size, price);
    assert part[..4] == LE(size, 4) && part[4..] == LE(Unsigned(price), 8);
    assert bytes[at..at + 4] == bytes[at..at + 12][..4];
    assert bytes[at + 4..at + 12] == bytes[at..at + 12][4..];
    hide Priced, LE, GetU32, GetU64;
    ReadWord(bytes, at, size, 4);
    ReadWord(bytes, at + 4, Unsigned(price), 8);
  }

  /** The parts of a layout, cut apart. */
  lemma Parts(bytes: seq<byte>, opening: seq<byte>, id: seq<byte>, priced: seq<byte>, tail: seq<byte>)
    requires bytes == opening + id + priced + tail
    ensures opening <= bytes
    ensures bytes[|opening|..|opening| + |id|] == id
    ensures bytes[|opening| + |id|..|opening| + |id| + |priced|] == priced
  {
    Fields([], opening, id, priced, tail, bytes);
  }

  /** An event fits its layout: no shorter tail than the decoder wants, and the
      symbol of an order or a trade is the name. */
  predicate Writable(event: Event, name: Name, x: Extra) {
    && |x.symbol| == 8 && Fills(name, x.padding)
    && !event.Ignored?
    && (event.Add? ==> event.order.symbol == SymbolOf(name))
    && (event.Report? ==> event.symbol == SymbolOf(name))
    && (event.Execute? || event.Report? ==> |x.tail| >= 8)
  }

  lemma ReferenceRead(bytes: seq<byte>, kind: byte, flags: byte, timestamp: u64, symbol: seq<byte>, id: u64,
      size: u32, price: i64, tail: seq<byte>)
    requires |symbol| == 8
    requires bytes == Opening(kind, flags, timestamp, symbol) + LE(id, 8) + Priced(size, price) + tail
    ensures |bytes| >= 38 && bytes[0] == kind && bytes[1] == flags && bytes[10..18] == symbol
    ensures GetU64(bytes, 2) == timestamp && GetU64(bytes, 18) == id
    ensures GetU32(bytes, 26) == size && Signed(GetU64(bytes, 30)) == price
  {
    hide Opening, Priced, LE, GetU32, GetU64, Signed;
    Parts(bytes, Opening(kind, flags, timestamp, symbol), LE(id, 8), Priced(size, price), tail);
    OpeningRead(bytes, kind, flags, timestamp, symbol);
    ReadWord(bytes, 18, id, 8);
    PricedRead(bytes, 26, size, price);
  }

  lemma TradeRead(bytes: seq<byte>, flags: byte, timestamp: u64, symbol: seq<byte>, size: u32, price: i64,
      tail: seq<byte>)
    requires |symbol| == 8 && bytes == Opening(0x54, flags, timestamp, symbol) + Priced(size, price) + tail
    ensures |bytes| == 30 + |tail| && bytes[0] == 0x54 && bytes[10..18] == symbol
    ensures GetU64(bytes, 2) == timestamp && GetU32(bytes, 18) == size && Signed(GetU64(bytes, 22)) == price
  {
    hide Opening, Priced, LE, GetU32, GetU64, Signed;
    Three(Opening(0x54, flags, timestamp, symbol), Priced(size, price), tail, bytes);
    OpeningRead(bytes, 0x54, flags, timestamp, symbol);
    PricedRead(bytes, 18, size, price);
  }

  lemma AddRead(id: u64, order: Order, timestamp: u64, name: Name, x: Extra)
    requires Writable(Add(id, order, timestamp), name, x)
    ensures EventOf(Written(Add(id, order, timestamp), name, x)) == Add(id, order, timestamp)
  {
    assert |name + x.padding| == 8;
    hide Opening, Priced, LE, GetU32, GetU64, Trimmed, SymbolOf, Signed, CString, Fills;
    var bytes, field := Written(Add(id, order, timestamp), name, x), name + x.padding;
    TrimmedName(name, x.padding);
    ReferenceRead(bytes, 0x61, SideByte(order.ask), timestamp, field, id, order.size, order.price, x.tail);
  }

  lemma TradeEvent(bytes: seq<byte>)
    requires |bytes| >= 38 && bytes[0] == 0x54
    ensures EventOf(bytes)
            == Report(Trimmed(NO_SYMBOL, bytes[10..18]), GetU32(bytes, 18), Signed(GetU64(bytes, 22)), GetU64(bytes, 2))
  {
    hide Trimmed, GetU32, GetU64, Signed;
  }

  lemma ReportRead(symbol: Symbol, size: u32, price: i64, timestamp: u64, name: Name, x: Extra)
    requires Writable(Report(symbol, size, price, timestamp), name, x)
    ensures EventOf(Written(Report(symbol, size, price, timestamp), name, x)) == Report(symbol, size, price, timestamp)
  {
    var field, bytes := name + x.padding, Written(Report(symbol, size, price, timestamp), name, x);
    assert |field| == 8 && bytes == Opening(0x54, x.flags, timestamp, field) + Priced(size, price) + x.tail;
    hide Opening, Priced, LE, GetU32, GetU64, Trimmed, SymbolOf, Signed, CString, Fills, EventOf, Written;
    TrimmedName(name, x.padding);
    TradeRead(bytes, x.flags, timestamp, field, size, price, x.tail);
    TradeEvent(bytes);
  }

  lemma DeleteRead(id: u64, timestamp: u64, name: Name, x: Extra)
    requires Writable(Delete(id, timestamp), name, x)
    ensures EventOf(Written(Delete(id, timestamp), name, x)) == Delete(id, timestamp)
  {
    var bytes := Written(Delete(id, timestamp), name, x);
    hide Opening, LE, GetU32, GetU64, Trimmed, Signed;
    Parts(bytes, Opening(0x52, x.flags, timestamp, x.symbol), LE(id, 8), [], x.tail);
    OpeningRead(bytes, 0x52, x.flags, timestamp, x.symbol);
    ReadWord(bytes, 18, id, 8);
  }

  lemma ChangeRead(event: Event, name: Name, x: Extra)
    requires Writable(event, name, x) && (event.Modify? || event.Execute?)
    ensures EventOf(Written(event, name, x)) == event
  {
    hide Opening, Priced, LE, GetU32, GetU64, Trimmed, Signed, Fills;
    var bytes, kind := Written(event, name, x), if event.Modify? then 0x4d else 0x4c;
    ReferenceRead(bytes, kind, x.flags, event.timestamp, x.symbol, event.id, event.size, event.price, x.tail);
  }

  /** Whatever event a writer puts down, and whatever it adds, is the event the
      decoder reads. */
  lemma EventRoundTrip(event: Event, name: Name, x: Extra)
    requires Writable(event, name, x)
    ensures EventOf(Written(event, name, x)) == event
  {
    hide Written, EventOf;
    match event
    case Add(id, order, timestamp) => AddRead(id, order, timestamp, name, x);
    case Report(symbol, size, price, timestamp) => ReportRead(symbol, size, price, timestamp, name, x);
    case Delete(id, timestamp) => DeleteRead(id, timestamp, name, x);
    case _ => ChangeRead(event, name, x);
  }
}
