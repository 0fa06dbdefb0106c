// A running picture of the market: one two-sided book per symbol, the last
// touch of each, and a fingerprint of every change of touch.
module Books {
  import opened Bytes
  import opened Collections
  import opened Hashing
  import opened Messages

  datatype Bbo = Bbo(bidPrice: i64, bidSize: u32, askPrice: i64, askSize: u32)

  const NO_QUOTE: Bbo := Bbo(0, 0, 0, 0)

  type Side = map<i64, u32>

  datatype BookState = BookState(bids: Side, asks: Side)

  const EMPTY_BOOK: BookState := BookState(map[], map[])

  /** Size zero deletes a price level; any other size replaces it. */
  function SetLevel(side: Side, price: i64, size: u32): Side {
    if size == 0 then side - {price} else side[price := size]
  }

  function ApplyTo(b: BookState, m: OrderMessage): BookState {
    if m.kind == BID then b.(bids := SetLevel(b.bids, m.price, m.size))
    else if m.kind == ASK then b.(asks := SetLevel(b.asks, m.price, m.size))
    else b
  }

  /** Someone bids at least what someone else asks. */
  ghost predicate Crossed(b: BookState) {
    exists p, q :: p in b.bids && q in b.asks && p >= q
  }

  /** Only quotes are checked: a trade is never what crosses a book. */
  ghost predicate Reports(b: BookState, m: OrderMessage) {
    (m.kind == BID || m.kind == ASK) && Crossed(ApplyTo(b, m))
  }

  /** The quote is the highest bid and the lowest ask, with their sizes; an
      empty side reads as zero. */
  ghost predicate IsTouch(b: BookState, quote: Bbo) {
    && (if b.bids == map[] then quote.bidPrice == 0 && quote.bidSize == 0
        else quote.bidPrice in b.bids && quote.bidSize == b.bids[quote.bidPrice]
             && forall p | p in b.bids :: p <= quote.bidPrice)
    && (if b.asks == map[] then quote.askPrice == 0 && quote.askSize == 0
        else quote.askPrice in b.asks && quote.askSize == b.asks[quote.askPrice]
             && forall q | q in b.asks :: quote.askPrice <= q)
  }

  function Touch(b: BookState): (quote: Bbo)
    ensures IsTouch(b, quote)
  {
    var bid := if b.bids == map[] then 0 else MaxOf(b.bids.Keys);
    var ask := if b.asks == map[] then 0 else MinOf(b.asks.Keys);
    Bbo(bid, if b.bids == map[] then 0 else b.bids[bid], ask, if b.asks == map[] then 0 else b.asks[ask])
  }

  class Book {
    var bids: Side
    var asks: Side

    function State(): BookState
      reads this
    {
      BookState(bids, asks)
    }

    constructor (b: BookState)
      ensures State() == b
    {
      bids, asks := b.bids, b.asks;
    }

    method Apply(m: OrderMessage) returns (ok: bool)
      modifies this
      ensures State() == ApplyTo(old(State()), m)
      ensures ok <==> !Reports(old(State()), m)
    {
      if m.kind == BID {
        if m.size == 0 {
          bids := bids - {m.price};
        } else {
          bids := bids[m.price := m.size];
        }
      } else if m.kind == ASK {
        if m.size == 0 {
          asks := asks - {m.price};
        } else {
          asks := asks[m.price := m.size];
        }
      } else {
        return true;
      }
      ok := bids == map[] || asks == map[] || MaxOf(bids.Keys) < MinOf(asks.Keys);
      assert !ok ==> MaxOf(bids.Keys) in State().bids && MinOf(asks.Keys) in State().asks;
    }
  }

  type Text = seq<byte>

  type Shelf = map<Text, BookState>

  datatype BookSetState = BookSetState(books: Shelf, lastQuote: map<Text, Bbo>, hash: u64, crossed: nat)

  const EMPTY_SET: BookSetState := BookSetState(map[], map[], FINGERPRINT_BASIS, 0)

  /** The book of one symbol; a symbol not seen yet has an empty one. */
  function On(books: Shelf, name: Text): BookState {
    if name in books then books[name] else EMPTY_BOOK
  }

  function BookOf(s: BookSetState, name: Text): BookState {
    On(s.books, name)
  }

  function ApplyBooks(books: Shelf, m: OrderMessage): Shelf {
    if m.kind == END then books else books[CString(m.symbol) := ApplyTo(On(books, CString(m.symbol)), m)]
  }

  function QuoteOf(s: BookSetState, name: Text): Bbo {
    if name in s.lastQuote then s.lastQuote[name] else NO_QUOTE
  }

  /** The bytes one change of touch mixes in: the hashed symbol, then the four
      numbers, each as eight bytes. */
  function QuoteTrace(name: Text, quote: Bbo): seq<byte> {
    LE(StirAll(FNV_BASIS, name), 8) + LE(Unsigned(quote.bidPrice), 8) + LE(quote.bidSize, 8)
    + LE(Unsigned(quote.askPrice), 8) + LE(quote.askSize, 8)
  }

  /** What message m mixes into the fingerprint of s. */
  function Stirred(s: BookSetState, m: OrderMessage): seq<byte> {
    if m.kind == END then [] else
      var name := CString(m.symbol);
      var touch := Touch(ApplyTo(BookOf(s, name), m));
      if touch == QuoteOf(s, name) then [] else QuoteTrace(name, touch)
  }

  ghost function ApplySet(s: BookSetState, m: OrderMessage): BookSetState {
    if m.kind == END then s else
      var name := CString(m.symbol);
      var book := ApplyTo(BookOf(s, name), m);
      BookSetState(ApplyBooks(s.books, m), s.lastQuote[name := Touch(book)], StirAll(s.hash, Stirred(s, m)),
                   if Reports(BookOf(s, name), m) then s.crossed + 1 else s.crossed)
  }

  /** Feeding a book set a whole stream. */
  ghost function Replay(s: BookSetState, stream: seq<OrderMessage>): BookSetState
    decreases |stream|
  {
    if stream == [] then s else ApplySet(Replay(s, stream[..|stream| - 1]), stream[|stream| - 1])
  }

  class BookSet {
    var books: Shelf
    var lastQuote: map<Text, Bbo>
    const fingerprint: Fingerprint
    var crossed: nat

    function State(): BookSetState
      reads this, fingerprint
    {
      BookSetState(books, lastQuote, fingerprint.hash, crossed)
    }

    constructor ()
      ensures State() == EMPTY_SET && fresh(fingerprint)
      ensures books == map[] && lastQuote == map[] && crossed == 0 && fingerprint.hash == 6942098103934665603
    {
      books, lastQuote, crossed := map[], map[], 0;
      fingerprint := new Fingerprint();
    }

    method Apply(m: OrderMessage)
      modifies this, fingerprint
      ensures State() == ApplySet(old(State()), m)
    {
      if m.kind == END {
        return;
      }
      ghost var was := State();
      var name := CString(m.symbol);
      var book := new Book(if name in books then books[name] else EMPTY_BOOK);
      var ok := book.Apply(m);
      books := books[name := book.State()];
      if !ok {
        crossed := crossed + 1;
      }
      var current := Touch(book.State());
      var previous := if name in lastQuote then lastQuote[name] else NO_QUOTE;
      Stir(name, previous, current);
      assert Stirred(was, m) == if current == previous then [] else QuoteTrace(name, current);
    }

    /** Remembers the new touch and mixes it in, if it moved. */
    method Stir(name: Text, previous: Bbo, current: Bbo)
      modifies this`lastQuote, fingerprint
      ensures lastQuote == old(lastQuote)[name := current]
      ensures fingerprint.hash
          == StirAll(old(fingerprint.hash), if current == previous then [] else QuoteTrace(name, current))
    {
      lastQuote := lastQuote[name := previous];
      if current != previous {
        lastQuote := lastQuote[name := current];
        MixQuote(name, current);
      }
    }

    method MixQuote(name: Text, quote: Bbo)
      modifies fingerprint
      ensures fingerprint.hash
          == StirAll(old(fingerprint.hash),
                     LE(StirAll(FNV_BASIS, name), 8) + LE(Unsigned(quote.bidPrice), 8) + LE(quote.bidSize, 8)
                     + LE(Unsigned(quote.askPrice), 8) + LE(quote.askSize, 8))
    {
      ghost var h := fingerprint.hash;
      var hashed := Fnv1a(name);
      fingerprint.Mix(hashed);
      StirAllAppend(h, LE(hashed, 8), LE(Unsigned(quote.bidPrice), 8));
      fingerprint.Mix(Unsigned(quote.bidPrice));
      StirAllAppend(h, LE(hashed, 8) + LE(Unsigned(quote.bidPrice), 8), LE(quote.bidSize, 8));
      fingerprint.Mix(quote.bidSize);
      StirAllAppend(h, LE(hashed, 8) + LE(Unsigned(quote.bidPrice), 8) + LE(quote.bidSize, 8),
                    LE(Unsigned(quote.askPrice), 8));
      fingerprint.Mix(Unsigned(quote.askPrice));
      StirAllAppend(h, LE(hashed, 8) + LE(Unsigned(quote.bidPrice), 8) + LE(quote.bidSize, 8)
                       + LE(Unsigned(quote.askPrice), 8), LE(quote.askSize, 8));
      fingerprint.Mix(quote.askSize);
    }
  }
}
