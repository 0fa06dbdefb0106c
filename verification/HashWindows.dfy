// What the mixing can tell apart: any change within four bytes in a row.
module HashWindows {
  import opened Bytes
  import opened Hashing

  /** What is left of a number without its n lowest bits. */
  function DropBits(a: nat, n: nat): nat
    decreases n
  {
    if n == 0 then a else DropBits(a / 2, n - 1)
  }

  lemma {:induction false} XorZero(a: nat)
    ensures Xor(a, 0) == a
  {
    if a != 0 {
      XorZero(a / 2);
    }
  }

  lemma {:induction false} XorKeepsHighBits(a: nat, b: nat, n: nat)
    requires b < Pow2(n)
    ensures DropBits(Xor(a, b), n) == DropBits(a, n)
    decreases n
  {
    if n == 0 {
      XorZero(a);
    } else if a != 0 || b != 0 {
      XorKeepsHighBits(a / 2, b / 2, n - 1);
    }
  }

  lemma DropByte(a: nat)
    ensures DropBits(a, 8) == a / 256
  {
    assert DropBits(a, 8) == DropBits(a / 16, 4);
    assert DropBits(a / 16, 4) == a / 16 / 16;
  }

  /** Mixing a byte in changes the lowest byte only. */
  lemma XorNear(h: nat, b: byte)
    ensures Xor(h, b) / 256 == h / 256
  {
    Pow2By8(0);
    XorKeepsHighBits(h, b, 8);
    DropByte(h);
    DropByte(Xor(h, b));
  }

  /** So two hashes stay as far apart as they were, give or take two bytes. */
  lemma XorKeepsDistance(h: nat, g: nat, a: byte, b: byte)
    ensures -510 <= Xor(h, a) - Xor(g, b) - (h - g) <= 510
  {
    XorNear(h, a);
    XorNear(g, b);
  }

  lemma XorTellsBytes(h: nat, a: byte, b: byte)
    ensures Xor(h, a) == Xor(h, b) <==> a == b
  {
    XorCommutes(h, a);
    XorCommutes(h, b);
    XorUndo(a, h);
    XorUndo(b, h);
  }

  /** Mixing ends in the same hash only if the last xor did. */
  lemma LastXor(h: u64, g: u64, a: byte, b: byte)
    ensures Stir(h, a) == Stir(g, b) <==> Xor(h, a) == Xor(g, b)
  {
    XorFits64(h, a);
    XorFits64(g, b);
    TimesPrimeUndo(Xor(h, a));
    TimesPrimeUndo(Xor(g, b));
  }

  /** Four small distances, carried through the multiplications, add up to
      nothing modulo 2^64 only if all are nothing. */
  lemma NoSmallSum(d: int, e: int, f: int, g: int, k: int)
    requires -510 <= d <= 510 && -510 <= e <= 510 && -510 <= f <= 510 && -510 <= g <= 510
    requires d * (PRIME * PRIME * PRIME) + e * (PRIME * PRIME) + f * PRIME + g == k * MODULUS
    ensures d == e == f == g == 0
  {
    var low, high := 82312875 * d + 189225 * e + 435 * f + g, 567675 * d + 870 * e + f;
    var q2, q3 := (PRIME * PRIME) / MODULUS, (PRIME * PRIME * PRIME) / MODULUS;
    assert PRIME * PRIME == q2 * MODULUS + 870 * 0x100_0000_0000 + 189225;
    assert PRIME * PRIME * PRIME == q3 * MODULUS + 567675 * 0x100_0000_0000 + 82312875;
    var r := k - q2 * e - q3 * d;
    assert low + high * 0x100_0000_0000 == r * MODULUS;
    assert low == 0x100_0000_0000 * (r * 0x100_0000 - high);
    assert low == 0;
    assert high == r * 0x100_0000;
    assert -1 <= d <= 1;
    assert high == 0;
  }

  /** One byte more: the distance is multiplied, and then moved a little. */
  lemma Carried(u: nat, v: nat, a: byte, b: byte) returns (e: int, k: int)
    requires u < MODULUS && v < MODULUS
    ensures -510 <= e <= 510
    ensures Xor((u * PRIME) % MODULUS, a) - Xor((v * PRIME) % MODULUS, b) == (u - v) * PRIME + e - k * MODULUS
  {
    var h, g := (u * PRIME) % MODULUS, (v * PRIME) % MODULUS;
    XorKeepsDistance(h, g, a, b);
    e := Xor(h, a) - Xor(g, b) - (h - g);
    k := (u * PRIME) / MODULUS - (v * PRIME) / MODULUS;
  }

  lemma StirFour(h: u64, x: seq<byte>)
    requires |x| == 4
    ensures StirAll(h, x) == Stir(Stir(Stir(Stir(h, x[0]), x[1]), x[2]), x[3])
  {
    hide Stir;
    assert x == [x[0]] + [x[1]] + [x[2]] + [x[3]];
    var h1, h2, h3 := Stir(h, x[0]), Stir(Stir(h, x[0]), x[1]), Stir(Stir(Stir(h, x[0]), x[1]), x[2]);
    assert x[1..][1..][1..][1..] == [];
    assert StirAll(h, x) == StirAll(h1, x[1..]);
    assert StirAll(h1, x[1..]) == StirAll(h2, x[1..][1..]);
    assert StirAll(h2, x[1..][1..]) == StirAll(h3, x[1..][1..][1..]);
  }

  /** The sum behind four bytes: a last xor that agrees makes every distance on
      the way nothing. */
  lemma SumUp(d: int, d1: int, d2: int, d3: int, e: int, f: int, g: int, k: int, l: int, m: int)
    requires d1 == d * PRIME + e - k * MODULUS && d2 == d1 * PRIME + f - l * MODULUS
    requires d3 == d2 * PRIME + g - m * MODULUS == 0
    requires -510 <= d <= 510 && -510 <= e <= 510 && -510 <= f <= 510 && -510 <= g <= 510
    ensures d == e == f == g == 0
  {
    NoSmallSum(d, e, f, g, m + l * PRIME + k * (PRIME * PRIME));
  }

  /** Four different bytes in a row never give the same hash. */
  lemma FourBytesTellApart(h: u64, x: seq<byte>, y: seq<byte>)
    requires |x| == |y| == 4
    ensures StirAll(h, x) == StirAll(h, y) <==> x == y
  {
    StirFour(h, x);
    StirFour(h, y);
    hide Xor, StirAll;
    var h1, g1 := Stir(h, x[0]), Stir(h, y[0]);
    var h2, g2 := Stir(h1, x[1]), Stir(g1, y[1]);
    var h3, g3 := Stir(h2, x[2]), Stir(g2, y[2]);
    if Stir(h3, x[3]) == Stir(g3, y[3]) {
      AllXorsAgree(h, x, y);
      assert x == [x[0], x[1], x[2], x[3]] && y == [y[0], y[1], y[2], y[3]];
    }
  }

  lemma AllXorsAgree(h: u64, x: seq<byte>, y: seq<byte>)
    requires |x| == |y| == 4
    requires var h3, g3 := Stir(Stir(Stir(h, x[0]), x[1]), x[2]), Stir(Stir(Stir(h, y[0]), y[1]), y[2]);
      Stir(h3, x[3]) == Stir(g3, y[3])
    ensures x[0] == y[0] && x[1] == y[1] && x[2] == y[2] && x[3] == y[3]
  {
    hide Xor;
    var h1, g1 := Stir(h, x[0]), Stir(h, y[0]);
    var h2, g2 := Stir(h1, x[1]), Stir(g1, y[1]);
    var h3, g3 := Stir(h2, x[2]), Stir(g2, y[2]);
    XorFits64(h, x[0]);
    XorFits64(h, y[0]);
    XorFits64(h1, x[1]);
    XorFits64(g1, y[1]);
    XorFits64(h2, x[2]);
    XorFits64(g2, y[2]);
    LastXor(h3, g3, x[3], y[3]);
    XorKeepsDistance(h, h, x[0], y[0]);
    var e, k := Carried(Xor(h, x[0]), Xor(h, y[0]), x[1], y[1]);
    var f, l := Carried(Xor(h1, x[1]), Xor(g1, y[1]), x[2], y[2]);
    var g, m := Carried(Xor(h2, x[2]), Xor(g2, y[2]), x[3], y[3]);
    SumUp(Xor(h, x[0]) - Xor(h, y[0]), Xor(h1, x[1]) - Xor(g1, y[1]), Xor(h2, x[2]) - Xor(g2, y[2]),
          Xor(h3, x[3]) - Xor(g3, y[3]), e, f, g, k, l, m);
    XorTellsBytes(h, x[0], y[0]);
    XorTellsBytes(h1, x[1], y[1]);
    XorTellsBytes(h2, x[2], y[2]);
    XorTellsBytes(h3, x[3], y[3]);
  }

  /** Two traces of equal length that differ only within four bytes in a row end
      with different fingerprints, whatever hash they start from. */
  lemma WindowTellsApart(h: u64, before: seq<byte>, x: seq<byte>, y: seq<byte>, after: seq<byte>)
    requires |x| == |y| <= 4
    ensures StirAll(h, before + x + after) == StirAll(h, before + y + after) <==> x == y
  {
    hide Stir, StirAll;
    var pad := seq(4 - |x|, _ => 0);
    var mid := StirAll(h, before);
    StirAllAppend(h, before + x, after);
    StirAllAppend(h, before + y, after);
    StirAllAppend(h, before, x);
    StirAllAppend(h, before, y);
    DivergenceSurvives(StirAll(mid, x), StirAll(mid, y), after);
    StirAllAppend(mid, x, pad);
    StirAllAppend(mid, y, pad);
    DivergenceSurvives(StirAll(mid, x), StirAll(mid, y), pad);
    FourBytesTellApart(mid, x + pad, y + pad);
    assert (x + pad)[..|x|] == x && (y + pad)[..|y|] == y;
  }
}
