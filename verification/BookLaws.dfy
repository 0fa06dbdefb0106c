// What a replayed stream of messages does to a book set: no empty levels,
// current quotes, a fingerprint of exactly the touch changes, and books that
// do not depend on how the streams of different buckets were interleaved.
module BookLaws {
  import opened Bytes
  import opened Hashing
  import opened HashWindows
  import opened Messages
  import opened Books

  ghost predicate NoEmptyLevels(b: BookState) {
    && (forall p | p in b.bids :: b.bids[p] > 0)
    && (forall q | q in b.asks :: b.asks[q] > 0)
  }

  /** Every stored level has a size, and the remembered quote of every known
      symbol is the touch of its book. */
  ghost predicate Tidy(s: BookSetState) {
    && s.lastQuote.Keys == s.books.Keys
    && (forall name | name in s.books :: NoEmptyLevels(s.books[name]) && s.lastQuote[name] == Touch(s.books[name]))
  }

  lemma ApplyStaysTidy(s: BookSetState, m: OrderMessage)
    requires Tidy(s)
    ensures Tidy(ApplySet(s, m))
  {
    var name := CString(m.symbol);
    var book := ApplyTo(BookOf(s, name), m);
    assert NoEmptyLevels(book);
    assert m.kind != END ==> ApplySet(s, m).books == s.books[name := book];
  }

  lemma {:induction false} ReplayStaysTidy(s: BookSetState, stream: seq<OrderMessage>)
    requires Tidy(s)
    ensures Tidy(Replay(s, stream))
    decreases |stream|
  {
    if stream != [] {
      ReplayStaysTidy(s, stream[..|stream| - 1]);
      ApplyStaysTidy(Replay(s, stream[..|stream| - 1]), stream[|stream| - 1]);
    }
  }

  /** The books alone, without quotes, counts and fingerprint. */
  function ReplayBooks(books: Shelf, stream: seq<OrderMessage>): Shelf
    decreases |stream|
  {
    if stream == [] then books else ApplyBooks(ReplayBooks(books, stream[..|stream| - 1]), stream[|stream| - 1])
  }

  lemma {:induction false} BooksOfReplay(s: BookSetState, stream: seq<OrderMessage>)
    ensures Replay(s, stream).books == ReplayBooks(s.books, stream)
    decreases |stream|
  {
    if stream != [] {
      BooksOfReplay(s, stream[..|stream| - 1]);
    }
  }

  /** Everything a stream mixes into the fingerprint, in order. */
  ghost function Trace(s: BookSetState, stream: seq<OrderMessage>): seq<byte>
    decreases |stream|
  {
    if stream == [] then [] else
      var front := stream[..|stream| - 1];
      Trace(s, front) + Stirred(Replay(s, front), stream[|stream| - 1])
  }

  lemma {:induction false} FingerprintOfTrace(s: BookSetState, stream: seq<OrderMessage>)
    ensures Replay(s, stream).hash == StirAll(s.hash, Trace(s, stream))
    decreases |stream|
  {
    if stream != [] {
      var front := stream[..|stream| - 1];
      FingerprintOfTrace(s, front);
      StirAllAppend(s.hash, Trace(s, front), Stirred(Replay(s, front), stream[|stream| - 1]));
    }
  }

  /** Two streams whose touch changes differ only within four bytes in a row are
      told apart by their fingerprints, always. */
  lemma FingerprintTellsApart(p: seq<OrderMessage>, q: seq<OrderMessage>, before: seq<byte>, x: seq<byte>,
                              y: seq<byte>, after: seq<byte>)
    requires Trace(EMPTY_SET, p) == before + x + after && Trace(EMPTY_SET, q) == before + y + after
    requires |x| == |y| <= 4
    ensures Replay(EMPTY_SET, p).hash == Replay(EMPTY_SET, q).hash <==> x == y
  {
    FingerprintOfTrace(EMPTY_SET, p);
    FingerprintOfTrace(EMPTY_SET, q);
    WindowTellsApart(FINGERPRINT_BASIS, before, x, y, after);
  }

  /** The messages about one symbol, in stream order. */
  function OfSymbol(stream: seq<OrderMessage>, name: Text): seq<OrderMessage>
    decreases |stream|
  {
    if stream == [] then [] else
      var m := stream[|stream| - 1];
      OfSymbol(stream[..|stream| - 1], name) + (if m.kind != END && CString(m.symbol) == name then [m] else [])
  }

  /** What a message does to a book: a bid or an ask sets its price level, and
      deletes it when the size is zero; the other levels and the other side stay,
      and any other kind of message changes nothing. */
  lemma BookExactly(b: BookState, m: OrderMessage)
    ensures var c := ApplyTo(b, m);
      && (m.kind != 0x42 ==> c.bids == b.bids) && (m.kind != 0x53 ==> c.asks == b.asks)
      && (m.kind == 0x42 ==> forall p: i64 ::
            if p == m.price then (p in c.bids <==> m.size > 0) && (p in c.bids ==> c.bids[p] == m.size)
            else (p in c.bids <==> p in b.bids) && (p in c.bids ==> c.bids[p] == b.bids[p]))
      && (m.kind == 0x53 ==> forall p: i64 ::
            if p == m.price then (p in c.asks <==> m.size > 0) && (p in c.asks ==> c.asks[p] == m.size)
            else (p in c.asks <==> p in b.asks) && (p in c.asks ==> c.asks[p] == b.asks[p]))
  {
  }

  /** What is counted crossed: a bid or an ask that leaves both sides of its book
      with levels and the best bid at or above the best ask. */
  lemma CrossedExactly(s: BookSetState, m: OrderMessage)
    ensures var book := ApplyTo(BookOf(s, CString(m.symbol)), m);
      ApplySet(s, m).crossed == s.crossed
          + (if (m.kind == 0x42 || m.kind == 0x53) && book.bids != map[] && book.asks != map[]
                && Touch(book).bidPrice >= Touch(book).askPrice then 1 else 0)
  {
    hide Touch, CString, ApplyTo, Crossed;
    CrossedAtTouch(ApplyTo(BookOf(s, CString(m.symbol)), m));
  }

  lemma CrossedAtTouch(book: BookState)
    ensures Crossed(book)
        <==> book.bids != map[] && book.asks != map[] && Touch(book).bidPrice >= Touch(book).askPrice
  {
    var touch := Touch(book);
    assert IsTouch(book, touch);
    hide Touch;
    if book.bids != map[] && book.asks != map[] && touch.bidPrice >= touch.askPrice {
      assert touch.bidPrice in book.bids && touch.askPrice in book.asks;
    }
  }

  /** The messages sent in one bucket, in stream order. */
  function OfBucket(stream: seq<OrderMessage>, bucket: nat, bucketCount: nat): seq<OrderMessage>
    requires bucketCount > 0
    decreases |stream|
  {
    if stream == [] then [] else
      var m := stream[|stream| - 1];
      OfBucket(stream[..|stream| - 1], bucket, bucketCount)
          + (if BucketOf(m.symbol, bucketCount) == bucket then [m] else [])
  }

  function BookReplay(stream: seq<OrderMessage>): BookState
    decreases |stream|
  {
    if stream == [] then EMPTY_BOOK else ApplyTo(BookReplay(stream[..|stream| - 1]), stream[|stream| - 1])
  }

  ghost predicate Mentions(stream: seq<OrderMessage>, name: Text) {
    OfSymbol(stream, name) != []
  }

  /** One more message: a symbol's book moves with its own messages only. */
  lemma BookStep(front: seq<OrderMessage>, m: OrderMessage, name: Text)
    ensures var was, now := Replay(EMPTY_SET, front), Replay(EMPTY_SET, front + [m]);
      if m.kind != END && CString(m.symbol) == name
      then name in now.books && BookOf(now, name) == ApplyTo(BookOf(was, name), m)
      else BookOf(now, name) == BookOf(was, name) && (name in now.books <==> name in was.books)
  {
    assert (front + [m])[..|front|] == front;
    assert Replay(EMPTY_SET, front + [m]) == ApplySet(Replay(EMPTY_SET, front), m);
    hide Replay, ApplyTo, Touch, Stirred, StirAll, Reports, CString;
  }

  lemma SymbolStep(front: seq<OrderMessage>, m: OrderMessage, name: Text)
    ensures OfSymbol(front + [m], name)
            == OfSymbol(front, name) + (if m.kind != END && CString(m.symbol) == name then [m] else [])
  {
    assert (front + [m])[..|front|] == front;
  }

  lemma BookReplayStep(stream: seq<OrderMessage>, m: OrderMessage)
    ensures BookReplay(stream + [m]) == ApplyTo(BookReplay(stream), m)
  {
    assert (stream + [m])[..|stream|] == stream;
  }

  /** A symbol's book depends on that symbol's own messages and nothing else. */
  lemma {:induction false} BookOfSymbol(stream: seq<OrderMessage>, name: Text)
    ensures BookOf(Replay(EMPTY_SET, stream), name) == BookReplay(OfSymbol(stream, name))
    ensures name in Replay(EMPTY_SET, stream).books <==> Mentions(stream, name)
    decreases |stream|
  {
    hide Replay, OfSymbol, BookReplay, ApplyTo, CString;
    if stream == [] {
      BookOfNothing(name);
    } else {
      var front, m := stream[..|stream| - 1], stream[|stream| - 1];
      assert stream == front + [m];
      BookOfSymbol(front, name);
      BookStep(front, m, name);
      SymbolStep(front, m, name);
      BookReplayStep(OfSymbol(front, name), m);
      assert OfSymbol(front, name) + [] == OfSymbol(front, name);
    }
  }

  lemma BookOfNothing(name: Text)
    ensures BookOf(Replay(EMPTY_SET, []), name) == BookReplay(OfSymbol([], name))
        && name !in Replay(EMPTY_SET, []).books
    ensures OfSymbol([], name) == []
  {
  }

  /** The bucket of a symbol carries all of that symbol's messages. */
  lemma {:induction false} BucketCarriesSymbol(stream: seq<OrderMessage>, symbol: Symbol, bucketCount: nat)
    requires bucketCount > 0
    ensures OfSymbol(OfBucket(stream, BucketOf(symbol, bucketCount), bucketCount), CString(symbol))
        == OfSymbol(stream, CString(symbol))
    decreases |stream|
  {
    if stream != [] {
      var front, m := stream[..|stream| - 1], stream[|stream| - 1];
      var bucket, name := BucketOf(symbol, bucketCount), CString(symbol);
      BucketCarriesSymbol(front, symbol, bucketCount);
      if BucketOf(m.symbol, bucketCount) == bucket {
        assert OfBucket(stream, bucket, bucketCount)[..|OfBucket(front, bucket, bucketCount)|]
            == OfBucket(front, bucket, bucketCount);
      } else {
        assert OfBucket(stream, bucket, bucketCount) == OfBucket(front, bucket, bucketCount);
        assert CString(m.symbol) != name;
        assert OfSymbol(stream, name) == OfSymbol(front, name);
      }
    }
  }

  lemma {:induction false} SymbolsInStream(stream: seq<OrderMessage>, name: Text)
    requires Mentions(stream, name)
    ensures exists m :: m in stream && CString(m.symbol) == name
    decreases |stream|
  {
    var front, m := stream[..|stream| - 1], stream[|stream| - 1];
    if m.kind != END && CString(m.symbol) == name {
      assert m in stream;
    } else {
      assert OfSymbol(stream, name) == OfSymbol(front, name);
      SymbolsInStream(front, name);
      var w :| w in front && CString(w.symbol) == name;
      assert w in stream;
    }
  }

  /** Crossed updates counted bucket by bucket. */
  ghost function CrossedIn(stream: seq<OrderMessage>, buckets: nat, bucketCount: nat): nat
    requires bucketCount > 0
    decreases buckets
  {
    if buckets == 0 then 0 else
      CrossedIn(stream, buckets - 1, bucketCount)
      + Replay(EMPTY_SET, OfBucket(stream, buckets - 1, bucketCount)).crossed
  }

  ghost function Counted(b: BookState, m: OrderMessage): nat {
    if Reports(b, m) then 1 else 0
  }

  lemma CrossedByLast(stream: seq<OrderMessage>)
    requires stream != []
    ensures var front, m := stream[..|stream| - 1], stream[|stream| - 1];
      Replay(EMPTY_SET, stream).crossed
        == Replay(EMPTY_SET, front).crossed + Counted(BookReplay(OfSymbol(front, CString(m.symbol))), m)
  {
    BookOfSymbol(stream[..|stream| - 1], CString(stream[|stream| - 1].symbol));
  }

  /** What message m adds to the crossed count of the bucket with k as its
      number, after front. */
  ghost function CrossedBy(front: seq<OrderMessage>, m: OrderMessage, k: nat, bucketCount: nat): nat
    requires bucketCount > 0
  {
    if BucketOf(m.symbol, bucketCount) == k then Counted(BookReplay(OfSymbol(front, CString(m.symbol))), m) else 0
  }

  /** The last message counts in its own bucket what it counts in the whole. */
  lemma CrossedInBucket(front: seq<OrderMessage>, m: OrderMessage, k: nat, bucketCount: nat)
    requires bucketCount > 0
    ensures Replay(EMPTY_SET, OfBucket(front + [m], k, bucketCount)).crossed
            == Replay(EMPTY_SET, OfBucket(front, k, bucketCount)).crossed + CrossedBy(front, m, k, bucketCount)
  {
    assert (front + [m])[..|front|] == front;
    var ours, was := OfBucket(front + [m], k, bucketCount), OfBucket(front, k, bucketCount);
    if BucketOf(m.symbol, bucketCount) == k {
      assert ours == was + [m];
      hide Replay, Counted, BookReplay, BucketOf, OfSymbol, OfBucket;
      assert ours[..|ours| - 1] == was;
      BucketCarriesSymbol(front, m.symbol, bucketCount);
      CrossedByLast(ours);
    } else {
      assert ours == was;
    }
  }

  /** One more message is counted in its own bucket exactly when it is counted
      in the whole stream. */
  lemma {:induction false} CrossedStep(front: seq<OrderMessage>, m: OrderMessage, buckets: nat, bucketCount: nat)
    requires bucketCount > 0
    ensures CrossedIn(front + [m], buckets, bucketCount) == CrossedIn(front, buckets, bucketCount)
      + (if BucketOf(m.symbol, bucketCount) < buckets
          then CrossedBy(front, m, BucketOf(m.symbol, bucketCount), bucketCount) else 0)
    decreases buckets
  {
    hide Replay, BucketOf, OfBucket, CrossedBy;
    if buckets > 0 {
      CrossedStep(front, m, buckets - 1, bucketCount);
      CrossedInBucket(front, m, buckets - 1, bucketCount);
      CrossedElsewhere(front, m, buckets - 1, bucketCount);
    }
  }

  lemma CrossedElsewhere(front: seq<OrderMessage>, m: OrderMessage, k: nat, bucketCount: nat)
    requires bucketCount > 0
    ensures BucketOf(m.symbol, bucketCount) != k ==> CrossedBy(front, m, k, bucketCount) == 0
  {
    hide BucketOf, Counted, BookReplay, OfSymbol;
  }

  lemma {:induction false} CrossedSums(stream: seq<OrderMessage>, bucketCount: nat)
    requires bucketCount > 0
    ensures Replay(EMPTY_SET, stream).crossed == CrossedIn(stream, bucketCount, bucketCount)
    decreases |stream|
  {
    if stream == [] {
      CrossedNone(bucketCount, bucketCount);
    } else {
      var front, m := stream[..|stream| - 1], stream[|stream| - 1];
      assert stream == front + [m] && BucketOf(m.symbol, bucketCount) < bucketCount;
      CrossedSums(front, bucketCount);
      CrossedStep(front, m, bucketCount, bucketCount);
      CrossedByLast(stream);
      hide Replay, BucketOf, CrossedIn, BookReplay, OfSymbol, Counted;
    }
  }

  lemma {:induction false} CrossedNone(buckets: nat, bucketCount: nat)
    requires bucketCount > 0
    ensures CrossedIn([], buckets, bucketCount) == 0
    decreases buckets
  {
    if buckets > 0 {
      CrossedNone(buckets - 1, bucketCount);
    }
  }

  lemma {:induction false} CrossedSame(p: seq<OrderMessage>, q: seq<OrderMessage>, buckets: nat, bucketCount: nat)
    requires bucketCount > 0
    requires forall i | 0 <= i < buckets :: OfBucket(p, i, bucketCount) == OfBucket(q, i, bucketCount)
    ensures CrossedIn(p, buckets, bucketCount) == CrossedIn(q, buckets, bucketCount)
    decreases buckets
  {
    hide Replay, OfBucket;
    if buckets > 0 {
      CrossedSame(p, q, buckets - 1, bucketCount);
    }
  }

  lemma SameSymbolMessages(p: seq<OrderMessage>, q: seq<OrderMessage>, name: Text, bucketCount: nat)
    requires bucketCount > 0
    requires forall i | 0 <= i < bucketCount :: OfBucket(p, i, bucketCount) == OfBucket(q, i, bucketCount)
    ensures OfSymbol(p, name) == OfSymbol(q, name)
  {
    if Mentions(p, name) {
      SymbolsInStream(p, name);
      var m :| m in p && CString(m.symbol) == name;
      BucketCarriesSymbol(p, m.symbol, bucketCount);
      BucketCarriesSymbol(q, m.symbol, bucketCount);
    } else if Mentions(q, name) {
      SymbolsInStream(q, name);
      var m :| m in q && CString(m.symbol) == name;
      BucketCarriesSymbol(p, m.symbol, bucketCount);
      BucketCarriesSymbol(q, m.symbol, bucketCount);
    }
  }

  lemma SameBooks(p: seq<OrderMessage>, q: seq<OrderMessage>, bucketCount: nat)
    requires bucketCount > 0
    requires forall i | 0 <= i < bucketCount :: OfBucket(p, i, bucketCount) == OfBucket(q, i, bucketCount)
    ensures Replay(EMPTY_SET, p).books == Replay(EMPTY_SET, q).books
  {
    var a, b := Replay(EMPTY_SET, p).books, Replay(EMPTY_SET, q).books;
    forall name: Text ensures (name in a <==> name in b) && On(a, name) == On(b, name) {
      SameSymbolMessages(p, q, name, bucketCount);
      BookOfSymbol(p, name);
      BookOfSymbol(q, name);
    }
    assert forall name | name in a :: a[name] == On(a, name) && b[name] == On(b, name);
  }

  lemma QuotesFollowBooks(s: BookSetState, t: BookSetState)
    requires Tidy(s) && Tidy(t) && s.books == t.books
    ensures s.lastQuote == t.lastQuote
  {
  }

  /** However the streams of the buckets are interleaved, replaying them builds
      the same book and the same quote for every symbol, and counts the same
      number of crossed updates. */
  lemma InterleavingIrrelevant(p: seq<OrderMessage>, q: seq<OrderMessage>, bucketCount: nat)
    requires bucketCount > 0
    requires forall i | 0 <= i < bucketCount :: OfBucket(p, i, bucketCount) == OfBucket(q, i, bucketCount)
    ensures Replay(EMPTY_SET, p).books == Replay(EMPTY_SET, q).books
    ensures Replay(EMPTY_SET, p).lastQuote == Replay(EMPTY_SET, q).lastQuote
    ensures Replay(EMPTY_SET, p).crossed == Replay(EMPTY_SET, q).crossed
  {
    SameBooks(p, q, bucketCount);
    ReplayStaysTidy(EMPTY_SET, p);
    ReplayStaysTidy(EMPTY_SET, q);
    QuotesFollowBooks(Replay(EMPTY_SET, p), Replay(EMPTY_SET, q));
    CrossedSums(p, bucketCount);
    CrossedSums(q, bucketCount);
    CrossedSame(p, q, bucketCount, bucketCount);
  }
}
