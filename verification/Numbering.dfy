// Which bucket a published message goes to and which number it gets there,
// counted on the stream itself, and what is sent to close the buckets.
module Numbering {
  import opened Bytes
  import opened Hashing
  import opened Messages
  import opened BookLaws
  import opened Publishers
  import opened Layouts

  /** The positions in the stream of the messages whose hashed symbol falls to
      the bucket. */
  function Places(stream: seq<OrderMessage>, bucket: nat, bucketCount: nat): set<nat>
    requires bucketCount > 0
  {
    set k: nat | k < |stream| && StirAll(1469598103934665603, CString(stream[k].symbol)) % bucketCount == bucket
  }

  /** A bucket is the hash of the characters before the first NUL, reduced to the
      number of buckets: the bytes behind that NUL do not matter. */
  lemma BucketOfText(text: seq<byte>, rest: seq<byte>, symbol: Symbol, bucketCount: nat)
    requires bucketCount > 0 && 0 !in text && symbol == text + [0] + rest
    ensures BucketOf(symbol, bucketCount) == StirAll(1469598103934665603, text) % bucketCount
  {
    hide StirAll;
    UpToNul(text, rest, symbol);
  }

  lemma UpToNul(text: seq<byte>, rest: seq<byte>, all: seq<byte>)
    requires 0 !in text && all == text + [0] + rest
    ensures CString(all) == text
  {
    var seen := CString(all);
    hide CString;
    assert all[|text|] == 0 && forall i | 0 <= i < |text| :: all[i] in text;
    assert forall i | 0 <= i < |seen| :: seen[i] == all[i];
    assert |seen| == |text|;
  }

  lemma OnePlaceMore(front: seq<OrderMessage>, m: OrderMessage, bucket: nat, bucketCount: nat)
    requires bucketCount > 0
    ensures var was := Places(front, bucket, bucketCount);
      |front| !in was && Places(front + [m], bucket, bucketCount)
        == if BucketOf(m.symbol, bucketCount) == bucket then was + {|front|} else was
  {
    hide StirAll;
  }

  /** A bucket carries one message for every place it has in the stream. */
  lemma {:induction false} CarriesEach(stream: seq<OrderMessage>, bucket: nat, bucketCount: nat)
    requires bucketCount > 0
    ensures |OfBucket(stream, bucket, bucketCount)| == |Places(stream, bucket, bucketCount)|
    decreases |stream|
  {
    if stream != [] {
      var front, m := stream[..|stream| - 1], stream[|stream| - 1];
      CarriesEach(front, bucket, bucketCount);
      OnePlaceMore(front, m, bucket, bucketCount);
      assert front + [m] == stream;
      hide Places, BucketOf;
    }
  }

  /** Message k of the stream is carried by the bucket its hash falls to, behind
      exactly the messages of earlier places of that bucket. */
  lemma {:induction false} EachInPlace(stream: seq<OrderMessage>, k: nat, bucketCount: nat)
    requires bucketCount > 0 && k < |stream|
    ensures var bucket := BucketOf(stream[k].symbol, bucketCount);
      var earlier := |Places(stream[..k], bucket, bucketCount)|;
      earlier < |OfBucket(stream, bucket, bucketCount)| && OfBucket(stream, bucket, bucketCount)[earlier] == stream[k]
    decreases |stream|
  {
    hide Places, BucketOf;
    var front, bucket := stream[..|stream| - 1], BucketOf(stream[k].symbol, bucketCount);
    CarriesEach(stream[..k], bucket, bucketCount);
    if k == |stream| - 1 {
      assert front == stream[..k];
    } else {
      EachInPlace(front, k, bucketCount);
      assert front[..k] == stream[..k];
    }
  }

  /** The datagram of a message, byte for byte: its bucket by the hash of its
      symbol, one more than the messages that bucket carried before, and the
      message. */
  lemma DatagramSays(stream: seq<OrderMessage>, m: OrderMessage, bucketCount: nat)
    requires 0 < bucketCount <= 0x1_0000 && |stream| + 1 < 0x1_0000_0000_0000_0000
    ensures var bytes, bucket := DatagramOf(stream, m, bucketCount),
        StirAll(1469598103934665603, CString(m.symbol)) % bucketCount;
      && |bytes| == 45 && Spells(bytes[4..6], bucket, 2)
      && Spells(bytes[6..14], |Places(stream, bucket, bucketCount)| + 1, 8) && bytes[16..45] == Encode(m)
  {
    hide DgramEncode, Encode, Spells, Places, OfBucket, StirAll, CString, LE;
    var bucket := BucketOf(m.symbol, bucketCount);
    RoomForOne(stream, m, bucketCount);
    CarriesEach(stream, bucket, bucketCount);
    DatagramLayout(bucket, |Divided(stream, bucketCount)[bucket]| + 1, Encode(m));
  }

  /** When nothing is dropped, every bucket is closed twenty times. */
  lemma {:induction false} EndsCounted(ends: seq<u64>, rounds: nat, lose: (nat, nat) -> bool)
    requires |ends| <= 0x1_0000 && forall r, i :: !lose(r, i)
    ensures |EndRounds(ends, rounds, lose)| == rounds * |ends| && END_ROUNDS == 20
    decreases rounds
  {
    hide EndRound, EndDatagramOf;
    if rounds > 0 {
      EndsCounted(ends, rounds - 1, lose);
      RoundCounted(ends, |ends|, rounds - 1, lose);
      OneRoundMore(rounds, |ends|);
    }
  }

  lemma OneRoundMore(rounds: nat, count: nat)
    ensures rounds * count == (rounds - 1) * count + count
  {
  }

  lemma {:induction false} RoundCounted(ends: seq<u64>, n: nat, round: nat, lose: (nat, nat) -> bool)
    requires n <= |ends| <= 0x1_0000 && forall r, i :: !lose(r, i)
    ensures |EndRound(ends, n, round, lose)| == n
    ensures forall i | 0 <= i < n :: EndRound(ends, n, round, lose)[i] == DgramEncode(i, ends[i], Encode(END_MESSAGE))
    decreases n
  {
    hide DgramEncode, Encode;
    if n > 0 {
      RoundCounted(ends, n - 1, round, lose);
    }
  }
}
