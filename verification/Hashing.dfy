// The 64-bit mixing arithmetic behind symbol bucketing and the book
// fingerprint: xor one byte into the low end, multiply by an odd prime,
// keep 64 bits.
module Hashing {
  import opened Bytes

  const MODULUS: nat := 0x1_0000_0000_0000_0000
  const PRIME: nat := 1099511628211
  const FNV_BASIS: u64 := 1469598103934665603
  const FINGERPRINT_BASIS: u64 := 6942098103934665603

  // PRIME * INVERSE == 1 + WRAPS * MODULUS, so multiplying by INVERSE undoes
  // multiplying by PRIME.
  const INVERSE: nat := 14886173955864302971
  const WRAPS: nat := 887285111055

  /** Bitwise exclusive or of two natural numbers. */
  function Xor(a: nat, b: nat): nat
    decreases a + b
  {
    if a == 0 && b == 0 then 0 else (a % 2 + b % 2) % 2 + 2 * Xor(a / 2, b / 2)
  }

  function Pow2(n: nat): nat {
    if n == 0 then 1 else 2 * Pow2(n - 1)
  }

  /** Xor works bit by bit. */
  lemma XorOf(bit: nat, high: nat, b: nat)
    requires bit < 2
    ensures Xor(bit + 2 * high, b) == (bit + b % 2) % 2 + 2 * Xor(high, b / 2)
  {
    assert (bit + 2 * high) / 2 == high && (bit + 2 * high) % 2 == bit;
  }

  lemma Parity(a: nat, b: nat)
    ensures ((a % 2 + b % 2) % 2 + b % 2) % 2 + 2 * (a / 2) == a
  {
  }

  lemma {:induction false} XorUndo(a: nat, b: nat)
    ensures Xor(Xor(a, b), b) == a
    decreases a + b
  {
    if a != 0 || b != 0 {
      var bit, high := (a % 2 + b % 2) % 2, Xor(a / 2, b / 2);
      calc {
        Xor(Xor(a, b), b);
        Xor(bit + 2 * high, b);
        { XorOf(bit, high, b); }
        (bit + b % 2) % 2 + 2 * Xor(high, b / 2);
        { XorUndo(a / 2, b / 2); }
        (bit + b % 2) % 2 + 2 * (a / 2);
        { Parity(a, b); }
        a;
      }
    }
  }

  lemma {:induction false} XorCommutes(a: nat, b: nat)
    ensures Xor(a, b) == Xor(b, a)
    decreases a + b
  {
    if a != 0 || b != 0 {
      XorCommutes(a / 2, b / 2);
    }
  }

  /** Bit k of a number. */
  function Bit(a: nat, k: nat): (bit: nat)
    ensures bit < 2
  {
    if k == 0 then a % 2 else Bit(a / 2, k - 1)
  }

  /** A bit of an exclusive or is set exactly when one of the two bits is. */
  lemma {:induction false} XorBits(a: nat, b: nat, k: nat)
    ensures Bit(Xor(a, b), k) == 1 <==> Bit(a, k) != Bit(b, k)
    decreases k
  {
    if a == 0 && b == 0 {
      assert Xor(a, b) == 0;
    }
    assert Xor(a, b) % 2 == (a % 2 + b % 2) % 2 && Xor(a, b) / 2 == Xor(a / 2, b / 2);
    if k > 0 {
      XorBits(a / 2, b / 2, k - 1);
    }
  }

  lemma {:induction false} XorFits(a: nat, b: nat, n: nat)
    requires a < Pow2(n) && b < Pow2(n)
    ensures Xor(a, b) < Pow2(n)
    decreases n
  {
    if n > 0 && (a != 0 || b != 0) {
      XorFits(a / 2, b / 2, n - 1);
    }
  }

  /** `hash ^= byte; hash *= PRIME` on 64-bit words. */
  function Stir(hash: u64, b: byte): u64 {
    (Xor(hash, b) * PRIME) % MODULUS
  }

  function StirAll(hash: u64, bytes: seq<byte>): u64
    decreases |bytes|
  {
    if bytes == [] then hash else StirAll(Stir(hash, bytes[0]), bytes[1..])
  }

  lemma ModOfSum(h: u64, k: int)
    ensures (h + MODULUS * k) % MODULUS == h
  {
  }

  /** Multiplication by the odd prime can be undone. */
  lemma TimesPrimeUndo(h: nat)
    requires h < MODULUS
    ensures (((h * PRIME) % MODULUS) * INVERSE) % MODULUS == h
  {
    var q, r := (h * PRIME) / MODULUS, (h * PRIME) % MODULUS;
    var k := h * WRAPS - q * INVERSE;
    assert r * INVERSE == h + MODULUS * k;
    ModOfSum(h, k);
  }

  lemma Pow2By8(n: nat)
    ensures Pow2(n + 8) == 256 * Pow2(n)
  {
    assert Pow2(n + 8) == 4 * Pow2(n + 6);
    assert Pow2(n + 6) == 4 * Pow2(n + 4);
    assert Pow2(n + 4) == 4 * Pow2(n + 2);
  }

  lemma Pow2Of64()
    ensures Pow2(64) == MODULUS
  {
    Pow2By8(0);
    Pow2By8(8);
    Pow2By8(16);
    Pow2By8(24);
    Pow2By8(32);
    Pow2By8(40);
    Pow2By8(48);
    Pow2By8(56);
  }

  lemma XorFits64(hash: u64, b: byte)
    ensures Xor(hash, b) < MODULUS
  {
    Pow2Of64();
    XorFits(hash, b, 64);
  }

  /** Mixing equal bytes never merges two different hashes. */
  lemma StirKeepsHashesApart(h: u64, g: u64, b: byte)
    ensures Stir(h, b) == Stir(g, b) <==> h == g
  {
    XorFits64(h, b);
    XorFits64(g, b);
    TimesPrimeUndo(Xor(h, b));
    TimesPrimeUndo(Xor(g, b));
    XorUndo(h, b);
    XorUndo(g, b);
  }

  /** Mixing different bytes into one hash never gives the same hash. */
  lemma StirKeepsBytesApart(h: u64, a: byte, b: byte)
    ensures Stir(h, a) == Stir(h, b) <==> a == b
  {
    XorFits64(h, a);
    XorFits64(h, b);
    TimesPrimeUndo(Xor(h, a));
    TimesPrimeUndo(Xor(h, b));
    XorCommutes(h, a);
    XorCommutes(h, b);
    XorUndo(a, h);
    XorUndo(b, h);
  }

  lemma {:induction false} StirAllAppend(h: u64, a: seq<byte>, b: seq<byte>)
    ensures StirAll(h, a + b) == StirAll(StirAll(h, a), b)
    decreases |a|
  {
    if a == [] {
      assert a + b == b;
    } else {
      assert (a + b)[1..] == a[1..] + b;
      StirAllAppend(Stir(h, a[0]), a[1..], b);
    }
  }

  /** Mixing in one byte more: exclusive or into the low end, times the prime,
      the low 64 bits kept. */
  lemma OneByteMore(h: u64, bytes: seq<byte>, b: byte)
    ensures StirAll(h, []) == h
    ensures StirAll(h, bytes + [b]) == (Xor(StirAll(h, bytes), b) * 1099511628211) % 0x1_0000_0000_0000_0000
  {
    StirAllAppend(h, bytes, [b]);
    var mid := StirAll(h, bytes);
    assert StirAll(mid, [b]) == StirAll(Stir(mid, b), [b][1..]) == Stir(mid, b);
  }

  /** The same bytes mixed into two hashes give equal results only when the
      hashes were equal: a divergence is never washed out. */
  lemma {:induction false} DivergenceSurvives(h: u64, g: u64, bytes: seq<byte>)
    ensures StirAll(h, bytes) == StirAll(g, bytes) <==> h == g
    decreases |bytes|
  {
    if bytes != [] {
      StirKeepsHashesApart(h, g, bytes[0]);
      DivergenceSurvives(Stir(h, bytes[0]), Stir(g, bytes[0]), bytes[1..]);
    }
  }

  /** Two traces of equal length that differ in exactly one byte always end
      with different fingerprints, whatever hash they start from. */
  lemma OneByteChangesEverything(h: u64, before: seq<byte>, x: byte, y: byte, after: seq<byte>)
    ensures StirAll(h, before + [x] + after) == StirAll(h, before + [y] + after) <==> x == y
  {
    var mid := StirAll(h, before);
    forall z: byte ensures StirAll(h, before + [z] + after) == StirAll(Stir(mid, z), after) {
      StirAllAppend(h, before + [z], after);
      StirAllAppend(h, before, [z]);
      assert StirAll(mid, [z]) == Stir(mid, z) by {
        assert [z][1..] == [];
      }
    }
    StirKeepsBytesApart(mid, x, y);
    DivergenceSurvives(Stir(mid, x), Stir(mid, y), after);
  }

  /** FNV-1a over a byte string, with the code's own starting basis. */
  method Fnv1a(data: seq<byte>) returns (hash: u64)
    ensures hash == StirAll(FNV_BASIS, data)
  {
    hash := FNV_BASIS;
    for i := 0 to |data|
      invariant StirAll(FNV_BASIS, data) == StirAll(hash, data[i..])
    {
      hash := Stir(hash, data[i]);
    }
  }

  /** A running, order-sensitive hash. */
  class Fingerprint {
    var hash: u64

    constructor ()
      ensures hash == FINGERPRINT_BASIS
    {
      hash := FINGERPRINT_BASIS;
    }

    /** Mixes the eight bytes of value, least significant first. */
    method Mix(value: u64)
      modifies this
      ensures hash == StirAll(old(hash), LE(value, 8))
    {
      var rest: nat := value;
      for i := 0 to 8
        invariant StirAll(old(hash), LE(value, 8)) == StirAll(hash, LE(rest, 8 - i))
      {
        assert LE(rest, 8 - i)[1..] == LE(rest / 256, 7 - i);
        hash := Stir(hash, rest % 256);
        rest := rest / 256;
      }
    }
  }
}
