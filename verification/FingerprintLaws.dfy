// What a fingerprint does not see: every trade, and every quote that leaves
// the touch of its symbol where it was. Equal fingerprints therefore do not
// mean equal streams. And what it does see, in what is mixed in.
module FingerprintLaws {
  import opened Bytes
  import opened Hashing
  import opened HashWindows
  import opened Messages
  import opened Books
  import opened BookLaws

  /** The same quotes, counts and fingerprint, and the same book for every
      symbol; a symbol not seen yet counts as one with an empty book. */
  ghost predicate Alike(s: BookSetState, t: BookSetState) {
    && s.hash == t.hash && s.crossed == t.crossed
    && (forall name: Text :: BookOf(s, name) == BookOf(t, name))
    && (forall name: Text :: QuoteOf(s, name) == QuoteOf(t, name))
  }

  /** One message changes the book and the quote of its own symbol only. */
  lemma OneSymbolMoves(s: BookSetState, m: OrderMessage, other: Text)
    requires m.kind != END
    ensures var name, after := CString(m.symbol), ApplySet(s, m); var book := ApplyTo(BookOf(s, name), m);
      && BookOf(after, other) == (if other == name then book else BookOf(s, other))
      && QuoteOf(after, other) == (if other == name then Touch(book) else QuoteOf(s, other))
  {
    hide ApplyTo, Touch, Stirred, Reports, CString;
  }

  lemma ApplyAlike(s: BookSetState, t: BookSetState, m: OrderMessage)
    requires Alike(s, t)
    ensures Alike(ApplySet(s, m), ApplySet(t, m))
  {
    hide ApplyTo, Touch, QuoteTrace, Reports, CString;
    if m.kind != END {
      var name := CString(m.symbol);
      assert BookOf(s, name) == BookOf(t, name) && QuoteOf(s, name) == QuoteOf(t, name);
      assert Stirred(s, m) == Stirred(t, m);
      forall other: Text
        ensures BookOf(ApplySet(s, m), other) == BookOf(ApplySet(t, m), other)
        ensures QuoteOf(ApplySet(s, m), other) == QuoteOf(ApplySet(t, m), other)
      {
        assert BookOf(s, other) == BookOf(t, other) && QuoteOf(s, other) == QuoteOf(t, other);
        OneSymbolMoves(s, m, other);
        OneSymbolMoves(t, m, other);
      }
    }
  }

  lemma {:induction false} ReplayAlike(s: BookSetState, t: BookSetState, stream: seq<OrderMessage>)
    requires Alike(s, t)
    ensures Alike(Replay(s, stream), Replay(t, stream))
    decreases |stream|
  {
    hide Alike, ApplySet;
    if stream != [] {
      ReplayAlike(s, t, stream[..|stream| - 1]);
      ApplyAlike(Replay(s, stream[..|stream| - 1]), Replay(t, stream[..|stream| - 1]), stream[|stream| - 1]);
    }
  }

  lemma {:induction false} ReplayConcat(s: BookSetState, p: seq<OrderMessage>, q: seq<OrderMessage>)
    ensures Replay(s, p + q) == Replay(Replay(s, p), q)
    decreases |q|
  {
    hide ApplySet;
    if q == [] {
      assert p + q == p;
    } else {
      assert (p + q)[..|p + q| - 1] == p + q[..|q| - 1];
      ReplayConcat(s, p, q[..|q| - 1]);
    }
  }

  /** In a tidy book set a message mixes nothing in exactly when it is an end
      marker or leaves the touch of its symbol where it was. */
  lemma StirsWhenTouchMoves(s: BookSetState, m: OrderMessage)
    requires Tidy(s)
    ensures var book := BookOf(s, CString(m.symbol));
      Stirred(s, m) == [] <==> m.kind == END || Touch(ApplyTo(book, m)) == Touch(book)
    ensures Stirred(s, m) == [] ==> ApplySet(s, m).hash == s.hash
  {
    var name := CString(m.symbol);
    assert QuoteOf(s, name) == Touch(BookOf(s, name));
    hide CString, ApplyTo, Touch;
  }

  /** A message that is neither a bid nor an ask moves nothing. */
  lemma TradeAlike(s: BookSetState, m: OrderMessage)
    requires Tidy(s) && m.kind != BID && m.kind != ASK
    ensures Alike(ApplySet(s, m), s)
  {
    if m.kind == END {
      assert ApplySet(s, m) == s;
    }
    StirsWhenTouchMoves(s, m);
    var name := CString(m.symbol);
    assert ApplyTo(BookOf(s, name), m) == BookOf(s, name);
    assert QuoteOf(s, name) == Touch(BookOf(s, name));
    hide CString, ApplyTo, Touch, Stirred, ApplySet;
    if m.kind != END {
      TradeChangesNothing(s, m);
    }
  }

  lemma TradeChangesNothing(s: BookSetState, m: OrderMessage)
    requires m.kind != BID && m.kind != ASK && m.kind != END
    requires QuoteOf(s, CString(m.symbol)) == Touch(BookOf(s, CString(m.symbol)))
    ensures ApplySet(s, m).crossed == s.crossed
    ensures forall name: Text :: BookOf(ApplySet(s, m), name) == BookOf(s, name)
    ensures forall name: Text :: QuoteOf(ApplySet(s, m), name) == QuoteOf(s, name)
  {
    hide CString, Touch, Stirred;
    forall name: Text
      ensures BookOf(ApplySet(s, m), name) == BookOf(s, name) && QuoteOf(ApplySet(s, m), name) == QuoteOf(s, name)
    {
      OneSymbolMoves(s, m, name);
    }
  }

  /** A trade lost anywhere in any stream is never seen: neither in the
      fingerprint, nor in the crossed count, the books or the quotes. */
  lemma LostTradeUnseen(p: seq<OrderMessage>, m: OrderMessage, q: seq<OrderMessage>)
    requires m.kind != BID && m.kind != ASK
    ensures Replay(EMPTY_SET, p + [m] + q).hash == Replay(EMPTY_SET, p + q).hash
    ensures Alike(Replay(EMPTY_SET, p + [m] + q), Replay(EMPTY_SET, p + q))
  {
    ReplayStaysTidy(EMPTY_SET, p);
    assert (p + [m])[..|p|] == p;
    TradeAlike(Replay(EMPTY_SET, p), m);
    assert Replay(EMPTY_SET, p + [m]) == ApplySet(Replay(EMPTY_SET, p), m);
    hide Replay, ApplySet, Tidy;
    ReplayConcat(EMPTY_SET, p + [m], q);
    ReplayConcat(EMPTY_SET, p, q);
    ReplayAlike(Replay(EMPTY_SET, p + [m]), Replay(EMPTY_SET, p), q);
  }

  /** A quote lost after any stream is not seen if it did not move the touch. */
  lemma LostDeepQuoteUnseen(p: seq<OrderMessage>, m: OrderMessage)
    requires var book := BookOf(Replay(EMPTY_SET, p), CString(m.symbol)); Touch(ApplyTo(book, m)) == Touch(book)
    ensures Replay(EMPTY_SET, p + [m]).hash == Replay(EMPTY_SET, p).hash
  {
    ReplayStaysTidy(EMPTY_SET, p);
    StirsWhenTouchMoves(Replay(EMPTY_SET, p), m);
    assert (p + [m])[..|p|] == p;
  }

  /** Two streams with one fingerprint and different books: the second lacks a
      bid below the best one. */
  lemma EqualFingerprintsDifferentBooks()
    ensures var best, below := OrderMessage(BID, NO_SYMBOL, 100, 10, 0), OrderMessage(BID, NO_SYMBOL, 99, 5, 0);
      && Replay(EMPTY_SET, [best, below]).hash == Replay(EMPTY_SET, [best]).hash
      && Replay(EMPTY_SET, [best, below]).books != Replay(EMPTY_SET, [best]).books
  {
    var best, below := OrderMessage(BID, NO_SYMBOL, 100, 10, 0), OrderMessage(BID, NO_SYMBOL, 99, 5, 0);
    assert [best] + [below] == [best, below];
    OneBid(best);
    var name := CString(NO_SYMBOL);
    var shallow, deep := BookState(map[100 := 10], map[]), BookState(map[100 := 10, 99 := 5], map[]);
    assert ApplyTo(shallow, below) == deep;
    SameTouch(shallow, deep);
    LostDeepQuoteUnseen([best], below);
    assert [best, below][..1] == [best];
    assert Replay(EMPTY_SET, [best, below]).books == Replay(EMPTY_SET, [best]).books[name := deep];
    assert 99 !in shallow.bids && 99 in deep.bids;
  }

  lemma OneBid(m: OrderMessage)
    requires m.kind == BID && m.size > 0
    ensures Replay(EMPTY_SET, [m]).books == map[CString(m.symbol) := BookState(map[m.price := m.size], map[])]
  {
    hide StirAll, Touch, Stirred, CString;
    assert [m][..0] == [];
    assert Replay(EMPTY_SET, []) == EMPTY_SET;
  }

  lemma SameTouch(shallow: BookState, deep: BookState)
    requires shallow == BookState(map[100 := 10], map[]) && deep == BookState(map[100 := 10, 99 := 5], map[])
    ensures Touch(deep) == Touch(shallow)
  {
    assert IsTouch(deep, Touch(deep)) && IsTouch(shallow, Touch(shallow));
    assert 100 in deep.bids;
  }

  // ---- what it does see -----------------------------------------------------------

  /** Whatever two streams mix in, with a common front and a common end: their
      fingerprints agree exactly when the parts between collide, mixed into the
      hash of the front. */
  lemma FingerprintsAgree(p: seq<OrderMessage>, q: seq<OrderMessage>, before: seq<byte>, x: seq<byte>, y: seq<byte>,
                          after: seq<byte>)
    requires Trace(EMPTY_SET, p) == before + x + after && Trace(EMPTY_SET, q) == before + y + after
    ensures var mid := StirAll(FINGERPRINT_BASIS, before);
      Replay(EMPTY_SET, p).hash == Replay(EMPTY_SET, q).hash <==> StirAll(mid, x) == StirAll(mid, y)
  {
    hide StirAll, Trace, Replay;
    var h, mid := FINGERPRINT_BASIS, StirAll(FINGERPRINT_BASIS, before);
    FingerprintOfTrace(EMPTY_SET, p);
    FingerprintOfTrace(EMPTY_SET, q);
    StirAllAppend(h, before + x, after);
    StirAllAppend(h, before + y, after);
    StirAllAppend(h, before, x);
    StirAllAppend(h, before, y);
    DivergenceSurvives(StirAll(mid, x), StirAll(mid, y), after);
  }

  lemma UpperHalf(a: u64)
    ensures LE(a, 8)[4..] == LE(a / 0x1_0000_0000, 4)
  {
    var b, c, d := a / 256, a / 256 / 256, a / 256 / 256 / 256;
    assert LE(a, 8)[1..] == LE(b, 7) && LE(b, 7)[1..] == LE(c, 6) && LE(c, 6)[1..] == LE(d, 5);
    assert LE(d, 5)[1..] == LE(d / 256, 4) && d / 256 == a / 0x1_0000_0000;
  }

  /** Two 64-bit numbers that agree in their upper 32 bits are told apart by what
      they are mixed into, wherever they stand. */
  lemma NumberTells(h: u64, before: seq<byte>, a: u64, b: u64, after: seq<byte>)
    requires a / 0x1_0000_0000 == b / 0x1_0000_0000
    ensures StirAll(h, before + LE(a, 8) + after) == StirAll(h, before + LE(b, 8) + after) <==> a == b
  {
    hide StirAll, LE;
    UpperHalf(a);
    UpperHalf(b);
    var x, y, high := LE(a, 8)[..4], LE(b, 8)[..4], LE(a, 8)[4..];
    assert LE(a, 8) == x + high && LE(b, 8) == y + high;
    assert before + (x + high) + after == before + x + (high + after);
    assert before + (y + high) + after == before + y + (high + after);
    WindowTellsApart(h, before, x, y, high + after);
    Widths();
    ReadWritten(a, 8);
    ReadWritten(b, 8);
  }

  /** The numbers mixed in are told apart one by one: when two streams mix in the
      same but for one number, and the two values agree in their upper 32 bits,
      as any two sizes do, their fingerprints differ. */
  lemma OneNumberTellsApart(p: seq<OrderMessage>, q: seq<OrderMessage>, before: seq<byte>, a: u64, b: u64,
                            after: seq<byte>)
    requires Trace(EMPTY_SET, p) == before + LE(a, 8) + after && Trace(EMPTY_SET, q) == before + LE(b, 8) + after
    requires a / 0x1_0000_0000 == b / 0x1_0000_0000
    ensures Replay(EMPTY_SET, p).hash == Replay(EMPTY_SET, q).hash <==> a == b
  {
    hide StirAll, Trace, Replay, LE;
    FingerprintOfTrace(EMPTY_SET, p);
    FingerprintOfTrace(EMPTY_SET, q);
    NumberTells(FINGERPRINT_BASIS, before, a, b, after);
  }

  // ---- what a moved touch mixes in ------------------------------------------------

  /** The forty bytes of a change read back as the hashed symbol, the best bid
      and its size, the best ask and its size. */
  lemma QuoteTraceReads(name: Text, quote: Bbo)
    ensures var bytes := QuoteTrace(name, quote);
      && |bytes| == 40 && GetU64(bytes, 0) == StirAll(FNV_BASIS, name)
      && Signed(GetU64(bytes, 8)) == quote.bidPrice && GetU64(bytes, 16) == quote.bidSize
      && Signed(GetU64(bytes, 24)) == quote.askPrice && GetU64(bytes, 32) == quote.askSize
  {
    var bytes, hashed := QuoteTrace(name, quote), StirAll(FNV_BASIS, name);
    var bid, ask := Unsigned(quote.bidPrice), Unsigned(quote.askPrice);
    hide LE, GetU64, StirAll;
    Fields(LE(hashed, 8), LE(bid, 8), LE(quote.bidSize, 8), LE(ask, 8), LE(quote.askSize, 8), bytes);
    assert bytes[0..8] == bytes[..8] && bytes[32..40] == bytes[32..];
    ReadWord(bytes, 0, hashed, 8);
    ReadWord(bytes, 8, bid, 8);
    ReadWord(bytes, 16, quote.bidSize, 8);
    ReadWord(bytes, 24, ask, 8);
    ReadWord(bytes, 32, quote.askSize, 8);
  }

  /** So the bytes tell the quotes apart: equal bytes, equal quotes. */
  lemma QuoteTraceTells(name: Text, quote: Bbo, other: Text, another: Bbo)
    ensures QuoteTrace(name, quote) == QuoteTrace(other, another) ==> quote == another
  {
    hide QuoteTrace, StirAll, GetU64;
    QuoteTraceReads(name, quote);
    QuoteTraceReads(other, another);
  }

  /** In a tidy book set a message that moves the touch of its symbol mixes in
      that symbol and the best bid, the best ask and their sizes, as they are
      then. */
  lemma MovedTouchStirs(s: BookSetState, m: OrderMessage)
    requires Tidy(s) && m.kind != END
    requires Touch(ApplyTo(BookOf(s, CString(m.symbol)), m)) != Touch(BookOf(s, CString(m.symbol)))
    ensures var bytes, book := Stirred(s, m), ApplyTo(BookOf(s, CString(m.symbol)), m);
      && |bytes| == 40 && GetU64(bytes, 0) == StirAll(FNV_BASIS, CString(m.symbol))
      && (var bid, size := Signed(GetU64(bytes, 8)), GetU64(bytes, 16);
          if book.bids == map[] then bid == 0 && size == 0
          else bid in book.bids && book.bids[bid] == size && forall p | p in book.bids :: p <= bid)
      && (var ask, size := Signed(GetU64(bytes, 24)), GetU64(bytes, 32);
          if book.asks == map[] then ask == 0 && size == 0
          else ask in book.asks && book.asks[ask] == size && forall p | p in book.asks :: ask <= p)
  {
    StirsWhenTouchMoves(s, m);
    var name := CString(m.symbol);
    var book := ApplyTo(BookOf(s, name), m);
    QuoteTraceReads(name, Touch(book));
    assert Stirred(s, m) == QuoteTrace(name, Touch(book));
    hide Stirred, QuoteTrace, StirAll, GetU64, CString, ApplyTo, Touch, Tidy;
    assert IsTouch(book, Touch(book));
  }

  function Upper(price: i64): nat {
    Unsigned(price) / 0x1_0000_0000
  }

  /** The quotes differ in one of their four numbers at most; a price differs in
      its lower 32 bits at most. */
  predicate OneNumberApart(a: Bbo, b: Bbo) {
    || b == a.(bidSize := b.bidSize)
    || b == a.(askSize := b.askSize)
    || (b == a.(bidPrice := b.bidPrice) && Upper(a.bidPrice) == Upper(b.bidPrice))
    || (b == a.(askPrice := b.askPrice) && Upper(a.askPrice) == Upper(b.askPrice))
  }

  lemma Regrouped(a: seq<byte>, b: seq<byte>, c: seq<byte>, d: seq<byte>, e: seq<byte>)
    ensures a + b + c + d + e == a + b + (c + d + e)
    ensures a + b + c + d + e == a + b + c + (d + e)
    ensures a + b + c + d + e == a + b + c + d + e + []
  {
  }

  lemma QuoteWords(name: Text, q: Bbo)
    ensures var hashed, bid, ask := LE(StirAll(FNV_BASIS, name), 8), LE(Unsigned(q.bidPrice), 8),
                                    LE(Unsigned(q.askPrice), 8);
      var bidSize, askSize := LE(q.bidSize, 8), LE(q.askSize, 8);
      && QuoteTrace(name, q) == hashed + bid + (bidSize + ask + askSize)
      && QuoteTrace(name, q) == hashed + bid + bidSize + (ask + askSize)
      && QuoteTrace(name, q) == hashed + bid + bidSize + ask + askSize
      && QuoteTrace(name, q) == hashed + bid + bidSize + ask + askSize + []
  {
    hide LE, StirAll;
    Regrouped(LE(StirAll(FNV_BASIS, name), 8), LE(Unsigned(q.bidPrice), 8), LE(q.bidSize, 8),
              LE(Unsigned(q.askPrice), 8), LE(q.askSize, 8));
  }

  lemma QuotesTellApart(h: u64, name: Text, a: Bbo, b: Bbo)
    requires OneNumberApart(a, b)
    ensures StirAll(h, QuoteTrace(name, a)) == StirAll(h, QuoteTrace(name, b)) <==> a == b
  {
    hide LE, StirAll, QuoteTrace, Unsigned;
    QuoteWords(name, a);
    QuoteWords(name, b);
    SignsTell(a.bidPrice, b.bidPrice);
    SignsTell(a.askPrice, b.askPrice);
    var w0, w1, w2 := LE(StirAll(FNV_BASIS, name), 8), LE(Unsigned(a.bidPrice), 8), LE(a.bidSize, 8);
    var w3, w4 := LE(Unsigned(a.askPrice), 8), LE(a.askSize, 8);
    if b == a.(bidSize := b.bidSize) {
      NumberTells(h, w0 + w1, a.bidSize, b.bidSize, w3 + w4);
    } else if b == a.(askSize := b.askSize) {
      NumberTells(h, w0 + w1 + w2 + w3, a.askSize, b.askSize, []);
    } else if b == a.(bidPrice := b.bidPrice) {
      NumberTells(h, w0, Unsigned(a.bidPrice), Unsigned(b.bidPrice), w2 + w3 + w4);
    } else {
      NumberTells(h, w0 + w1 + w2, Unsigned(a.askPrice), Unsigned(b.askPrice), w4);
    }
  }

  lemma SignsTell(a: i64, b: i64)
    ensures Unsigned(a) == Unsigned(b) <==> a == b
  {
  }

  /** One stream continued by two messages on one symbol, each of which moves its
      touch: when the touches they leave differ in one number, a size or the
      lower half of a price, the fingerprints differ. */
  lemma OneWrongNumberSeen(p: seq<OrderMessage>, m: OrderMessage, n: OrderMessage)
    requires m.kind != END && n.kind != END && CString(m.symbol) == CString(n.symbol)
    requires var book := BookOf(Replay(EMPTY_SET, p), CString(m.symbol));
      var was, a, b := Touch(book), Touch(ApplyTo(book, m)), Touch(ApplyTo(book, n));
      a != was && b != was && OneNumberApart(a, b)
    ensures var book := BookOf(Replay(EMPTY_SET, p), CString(m.symbol));
      (Replay(EMPTY_SET, p + [m]).hash == Replay(EMPTY_SET, p + [n]).hash
       <==> Touch(ApplyTo(book, m)) == Touch(ApplyTo(book, n)))
  {
    var s, name := Replay(EMPTY_SET, p), CString(m.symbol);
    ReplayStaysTidy(EMPTY_SET, p);
    assert (p + [m])[..|p|] == p && (p + [n])[..|p|] == p;
    hide Touch, ApplyTo, QuoteTrace, StirAll, OneNumberApart, CString;
    StirsWhenTouchMoves(s, m);
    StirsWhenTouchMoves(s, n);
    var book := BookOf(s, name);
    QuotesTellApart(s.hash, name, Touch(ApplyTo(book, m)), Touch(ApplyTo(book, n)));
  }
}
