/** kernel/random.c: the ChaCha generator with 8 rounds, a 64-bit block counter and a
    64-bit nonce.  Machine words are integers below 2^32; the bitwise operators are
    arithmetic on their binary digits. */
module ChaCha {
  import opened Arithmetic

  type byte = b: int | 0 <= b < 256
  type u32 = w: int | 0 <= w < 0x1_0000_0000
  type Words = s: seq<u32> | |s| == 16 witness [0, 0, 0, 0, 0, 0, 0, 0, 0, 0, 0, 0, 0, 0, 0, 0]

  // ---------------------------------------------------------------- word operations

  /** Exclusive or, digit by digit. */
  function Xor(v: nat, w: nat): nat {
    if v == 0 && w == 0 then 0 else 2 * Xor(v / 2, w / 2) + (v + w) % 2
  }

  lemma {:induction false} XorBelow(v: nat, w: nat, n: nat)
    requires v < Pow2(n) && w < Pow2(n)
    ensures Xor(v, w) < Pow2(n)
  {
    if v == 0 && w == 0 {
    } else {
      XorBelow(v / 2, w / 2, n - 1);
    }
  }

  lemma XorDigits(v: nat, w: nat)
    ensures Xor(v, w) == 2 * Xor(v / 2, w / 2) + (v + w) % 2
    ensures Xor(v, w) / 2 == Xor(v / 2, w / 2) && Xor(v, w) % 2 == (v + w) % 2
  {
  }

  lemma ParityCancels(x: nat, v: nat, w: nat)
    requires x % 2 == (v + w) % 2
    ensures (x + w) % 2 == v % 2
  {
  }

  lemma {:induction false} XorCancels(v: nat, w: nat)
    ensures Xor(Xor(v, w), w) == v
  {
    if v > 0 || w > 0 {
      var x := Xor(v, w);
      XorDigits(v, w);
      XorDigits(x, w);
      XorCancels(v / 2, w / 2);
      hide Xor;
      ParityCancels(x, v, w);
      assert x / 2 == Xor(v / 2, w / 2) && Xor(x / 2, w / 2) == v / 2;
    }
  }

  lemma {:induction false} XorOfZero(w: nat)
    ensures Xor(0, w) == w
  {
    if w > 0 {
      XorOfZero(w / 2);
    }
  }

  lemma Pow2Of32()
    ensures Pow2(32) == 0x1_0000_0000
  {
    assert Pow2(8) == 0x100;
    Pow2Sum(8, 8);
    Pow2Sum(16, 16);
  }

  function Xor32(v: u32, w: u32): u32 {
    Pow2Of32();
    XorBelow(v, w, 32);
    Xor(v, w)
  }

  function Xor8(v: byte, w: byte): byte {
    assert Pow2(8) == 256;
    XorBelow(v, w, 8);
    Xor(v, w)
  }

  // Addition and subtraction wrap around.
  function Plus(v: u32, w: u32): u32 { if v + w < 0x1_0000_0000 then v + w else v + w - 0x1_0000_0000 }
  function Minus(v: u32, w: u32): u32 { if v >= w then v - w else v - w + 0x1_0000_0000 }

  /** Rotation to the left by n: `up` is 2^n and `low` is 2^(32 - n), the part of the
      word below `low` is moved up and the part above it comes in below. */
  function Rotate(v: u32, up: nat, low: nat): u32
    requires up * low == 0x1_0000_0000 && up > 0 && low > 0
  {
    Parts(v, up, low);
    v % low * up + v / low
  }

  lemma Parts(v: u32, up: nat, low: nat)
    requires up * low == 0x1_0000_0000 && up > 0 && low > 0
    ensures v == v / low * low + v % low && v / low < up && 0 <= v % low * up <= (low - 1) * up
    ensures v % low * up + v / low < 0x1_0000_0000
  {
    TimesMonotone(v % low, low - 1, up);
    if v / low >= up {
      TimesMonotone(up, v / low, low);
    }
  }

  lemma RotatesBack(v: u32, up: nat, low: nat)
    requires up * low == 0x1_0000_0000 && up > 0 && low > 0
    ensures Rotate(Rotate(v, up, low), low, up) == v
  {
    Parts(v, up, low);
    DivMod(v % low, up, v / low);
  }

  // ---------------------------------------------------------------- the quarter round

  datatype Four = Four(a: u32, b: u32, c: u32, d: u32)

  /** One line of the macro: p += q and r = ROTATE(r ^ p). */
  function Mix(p: u32, q: u32, r: u32, up: nat, low: nat): (u32, u32)
    requires up * low == 0x1_0000_0000 && up > 0 && low > 0
  {
    var sum := Plus(p, q);
    (sum, Rotate(Xor32(r, sum), up, low))
  }

  function Unmix(p: u32, q: u32, r: u32, up: nat, low: nat): (u32, u32)
    requires up * low == 0x1_0000_0000 && up > 0 && low > 0
  {
    (Minus(p, q), Xor32(Rotate(r, low, up), p))
  }

  lemma MixInverse(p: u32, q: u32, r: u32, up: nat, low: nat)
    requires up * low == 0x1_0000_0000 && up > 0 && low > 0
    ensures var m := Mix(p, q, r, up, low); Unmix(m.0, q, m.1, up, low) == (p, r)
    ensures var m := Unmix(p, q, r, up, low); Mix(m.0, q, m.1, up, low) == (p, r)
  {
    hide Rotate, Xor;
    var sum := Plus(p, q);
    RotatesBack(Xor32(r, sum), up, low);
    XorCancels(r, sum);
    RotatesBack(r, low, up);
    XorCancels(Rotate(r, low, up), p);
  }

  // The lines change a and d, c and b in turn; the amounts are 16, 12, 8 and 7.
  function Line1(f: Four): Four { var m := Mix(f.a, f.b, f.d, 0x1_0000, 0x1_0000); Four(m.0, f.b, f.c, m.1) }
  function Line2(f: Four): Four { var m := Mix(f.c, f.d, f.b, 0x1000, 0x10_0000); Four(f.a, m.1, m.0, f.d) }
  function Line3(f: Four): Four { var m := Mix(f.a, f.b, f.d, 0x100, 0x100_0000); Four(m.0, f.b, f.c, m.1) }
  function Line4(f: Four): Four { var m := Mix(f.c, f.d, f.b, 0x80, 0x200_0000); Four(f.a, m.1, m.0, f.d) }
  function Quarter(f: Four): Four { Line4(Line3(Line2(Line1(f)))) }

  function Unline1(f: Four): Four { var m := Unmix(f.a, f.b, f.d, 0x1_0000, 0x1_0000); Four(m.0, f.b, f.c, m.1) }
  function Unline2(f: Four): Four { var m := Unmix(f.c, f.d, f.b, 0x1000, 0x10_0000); Four(f.a, m.1, m.0, f.d) }
  function Unline3(f: Four): Four { var m := Unmix(f.a, f.b, f.d, 0x100, 0x100_0000); Four(m.0, f.b, f.c, m.1) }
  function Unline4(f: Four): Four { var m := Unmix(f.c, f.d, f.b, 0x80, 0x200_0000); Four(f.a, m.1, m.0, f.d) }
  function Unquarter(f: Four): Four { Unline1(Unline2(Unline3(Unline4(f)))) }

  lemma LineInverse(f: Four)
    ensures Unline1(Line1(f)) == f && Unline2(Line2(f)) == f && Unline3(Line3(f)) == f && Unline4(Line4(f)) == f
    ensures Line1(Unline1(f)) == f && Line2(Unline2(f)) == f && Line3(Unline3(f)) == f && Line4(Unline4(f)) == f
  {
    hide Mix, Unmix;
    MixInverse(f.a, f.b, f.d, 0x1_0000, 0x1_0000);
    MixInverse(f.c, f.d, f.b, 0x1000, 0x10_0000);
    MixInverse(f.a, f.b, f.d, 0x100, 0x100_0000);
    MixInverse(f.c, f.d, f.b, 0x80, 0x200_0000);
  }

  /** The quarter round is a permutation of four words. */
  lemma QuarterInverse(f: Four)
    ensures Unquarter(Quarter(f)) == f && Quarter(Unquarter(f)) == f
  {
    hide Line1, Line2, Line3, Line4, Unline1, Unline2, Unline3, Unline4;
    LineInverse(f);
    LineInverse(Line1(f));
    LineInverse(Line2(Line1(f)));
    LineInverse(Line3(Line2(Line1(f))));
    LineInverse(Unline4(f));
    LineInverse(Unline3(Unline4(f)));
    LineInverse(Unline2(Unline3(Unline4(f))));
  }

  // ---------------------------------------------------------------- the rounds

  predicate Distinct(a: nat, b: nat, c: nat, d: nat) {
    a < 16 && b < 16 && c < 16 && d < 16 && a != b && a != c && a != d && b != c && b != d && c != d
  }

  function Put(s: Words, a: nat, b: nat, c: nat, d: nat, f: Four): Words
    requires Distinct(a, b, c, d)
  {
    s[a := f.a][b := f.b][c := f.c][d := f.d]
  }

  function Get(s: Words, a: nat, b: nat, c: nat, d: nat): Four
    requires Distinct(a, b, c, d)
  {
    Four(s[a], s[b], s[c], s[d])
  }

  function QuarterAt(s: Words, a: nat, b: nat, c: nat, d: nat): Words
    requires Distinct(a, b, c, d)
  {
    Put(s, a, b, c, d, Quarter(Get(s, a, b, c, d)))
  }

  function UnquarterAt(s: Words, a: nat, b: nat, c: nat, d: nat): Words
    requires Distinct(a, b, c, d)
  {
    Put(s, a, b, c, d, Unquarter(Get(s, a, b, c, d)))
  }

  lemma QuarterAtInverse(s: Words, a: nat, b: nat, c: nat, d: nat)
    requires Distinct(a, b, c, d)
    ensures UnquarterAt(QuarterAt(s, a, b, c, d), a, b, c, d) == s
    ensures QuarterAt(UnquarterAt(s, a, b, c, d), a, b, c, d) == s
  {
    hide Quarter, Unquarter;
    var f := Get(s, a, b, c, d);
    QuarterInverse(f);
    assert Get(Put(s, a, b, c, d, Quarter(f)), a, b, c, d) == Quarter(f);
    assert Get(Put(s, a, b, c, d, Unquarter(f)), a, b, c, d) == Unquarter(f);
  }

  function ColumnRound(s: Words): Words {
    QuarterAt(QuarterAt(QuarterAt(QuarterAt(s, 0, 4, 8, 12), 1, 5, 9, 13), 2, 6, 10, 14), 3, 7, 11, 15)
  }

  function DiagonalRound(s: Words): Words {
    QuarterAt(QuarterAt(QuarterAt(QuarterAt(s, 0, 5, 10, 15), 1, 6, 11, 12), 2, 7, 8, 13), 3, 4, 9, 14)
  }

  function UncolumnRound(s: Words): Words {
    UnquarterAt(UnquarterAt(UnquarterAt(UnquarterAt(s, 3, 7, 11, 15), 2, 6, 10, 14), 1, 5, 9, 13), 0, 4, 8, 12)
  }

  function UndiagonalRound(s: Words): Words {
    UnquarterAt(UnquarterAt(UnquarterAt(UnquarterAt(s, 3, 4, 9, 14), 2, 7, 8, 13), 1, 6, 11, 12), 0, 5, 10, 15)
  }

  lemma ColumnRoundInverse(s: Words)
    ensures UncolumnRound(ColumnRound(s)) == s && ColumnRound(UncolumnRound(s)) == s
  {
    hide QuarterAt, UnquarterAt;
    var s1 := QuarterAt(s, 0, 4, 8, 12);
    var s2 := QuarterAt(s1, 1, 5, 9, 13);
    var s3 := QuarterAt(s2, 2, 6, 10, 14);
    QuarterAtInverse(s, 0, 4, 8, 12);
    QuarterAtInverse(s1, 1, 5, 9, 13);
    QuarterAtInverse(s2, 2, 6, 10, 14);
    QuarterAtInverse(s3, 3, 7, 11, 15);
    var t3 := UnquarterAt(s, 3, 7, 11, 15);
    var t2 := UnquarterAt(t3, 2, 6, 10, 14);
    var t1 := UnquarterAt(t2, 1, 5, 9, 13);
    QuarterAtInverse(s, 3, 7, 11, 15);
    QuarterAtInverse(t3, 2, 6, 10, 14);
    QuarterAtInverse(t2, 1, 5, 9, 13);
    QuarterAtInverse(t1, 0, 4, 8, 12);
  }

  lemma DiagonalRoundInverse(s: Words)
    ensures UndiagonalRound(DiagonalRound(s)) == s && DiagonalRound(UndiagonalRound(s)) == s
  {
    hide QuarterAt, UnquarterAt;
    var s1 := QuarterAt(s, 0, 5, 10, 15);
    var s2 := QuarterAt(s1, 1, 6, 11, 12);
    var s3 := QuarterAt(s2, 2, 7, 8, 13);
    QuarterAtInverse(s, 0, 5, 10, 15);
    QuarterAtInverse(s1, 1, 6, 11, 12);
    QuarterAtInverse(s2, 2, 7, 8, 13);
    QuarterAtInverse(s3, 3, 4, 9, 14);
    var t3 := UnquarterAt(s, 3, 4, 9, 14);
    var t2 := UnquarterAt(t3, 2, 7, 8, 13);
    var t1 := UnquarterAt(t2, 1, 6, 11, 12);
    QuarterAtInverse(s, 3, 4, 9, 14);
    QuarterAtInverse(t3, 2, 7, 8, 13);
    QuarterAtInverse(t2, 1, 6, 11, 12);
    QuarterAtInverse(t1, 0, 5, 10, 15);
  }

  /** The state as a 4 by 4 matrix with row r rotated left by r columns. */
  function Skew(s: Words): Words {
    [s[0], s[1], s[2], s[3], s[5], s[6], s[7], s[4], s[10], s[11], s[8], s[9], s[15], s[12], s[13], s[14]]
  }

  lemma SkewedQuarters(s: Words)
    ensures Skew(QuarterAt(s, 0, 5, 10, 15)) == QuarterAt(Skew(s), 0, 4, 8, 12)
    ensures Skew(QuarterAt(s, 1, 6, 11, 12)) == QuarterAt(Skew(s), 1, 5, 9, 13)
    ensures Skew(QuarterAt(s, 2, 7, 8, 13)) == QuarterAt(Skew(s), 2, 6, 10, 14)
    ensures Skew(QuarterAt(s, 3, 4, 9, 14)) == QuarterAt(Skew(s), 3, 7, 11, 15)
  {
    hide Quarter;
  }

  /** The second half of a double round is the first half on the diagonals. */
  lemma DiagonalsAreSkewedColumns(s: Words)
    ensures Skew(DiagonalRound(s)) == ColumnRound(Skew(s))
  {
    hide QuarterAt, UnquarterAt;
    var s1 := QuarterAt(s, 0, 5, 10, 15);
    var s2 := QuarterAt(s1, 1, 6, 11, 12);
    SkewedQuarters(s);
    SkewedQuarters(s1);
    SkewedQuarters(s2);
    SkewedQuarters(QuarterAt(s2, 2, 7, 8, 13));
  }

  function Rounds(s: Words, doubles: nat): Words {
    if doubles == 0 then s else DiagonalRound(ColumnRound(Rounds(s, doubles - 1)))
  }

  function Unrounds(s: Words, doubles: nat): Words
    decreases doubles
  {
    if doubles == 0 then s else Unrounds(UncolumnRound(UndiagonalRound(s)), doubles - 1)
  }

  /** The rounds before the feed-forward are a permutation of the 512-bit states. */
  lemma {:induction false} RoundsInvertible(s: Words, doubles: nat)
    ensures Unrounds(Rounds(s, doubles), doubles) == s
    ensures Rounds(Unrounds(s, doubles), doubles) == s
    decreases doubles
  {
    hide ColumnRound, DiagonalRound, UncolumnRound, UndiagonalRound;
    if doubles > 0 {
      var r := Rounds(s, doubles - 1);
      RoundsInvertible(s, doubles - 1);
      ColumnRoundInverse(r);
      DiagonalRoundInverse(ColumnRound(r));
      var u := UncolumnRound(UndiagonalRound(s));
      RoundsInvertible(u, doubles - 1);
      DiagonalRoundInverse(s);
      ColumnRoundInverse(UndiagonalRound(s));
    }
  }

  // ---------------------------------------------------------------- one block

  function ByteOf(w: u32, j: nat): byte
    requires j < 4
  {
    if j == 0 then w % 0x100 else if j == 1 then w / 0x100 % 0x100 else if j == 2 then w / 0x1_0000 % 0x100 else w / 0x100_0000
  }

  function WordOf(b0: byte, b1: byte, b2: byte, b3: byte): u32 { b0 + 0x100 * b1 + 0x1_0000 * b2 + 0x100_0000 * b3 }

  lemma WordBytes(b0: byte, b1: byte, b2: byte, b3: byte)
    ensures var w := WordOf(b0, b1, b2, b3); ByteOf(w, 0) == b0 && ByteOf(w, 1) == b1 && ByteOf(w, 2) == b2 && ByteOf(w, 3) == b3
  {
    var w := WordOf(b0, b1, b2, b3);
    assert w / 0x100 == b1 + 0x100 * b2 + 0x1_0000 * b3;
    assert w / 0x1_0000 == b2 + 0x100 * b3;
  }

  /** The bytes of the words, the low byte of each first. */
  function Serialized(s: Words): (b: seq<byte>)
    ensures |b| == 64
  {
    seq(64, i requires 0 <= i < 64 => ByteOf(s[i / 4], i % 4))
  }

  function Sum(r: Words, s: Words): Words {
    seq(16, i requires 0 <= i < 16 => Plus(r[i], s[i]))
  }

  function Block(s: Words): (b: seq<byte>)
    ensures |b| == 64
  {
    Serialized(Sum(Rounds(s, 4), s))
  }

  /** QUARTERROUND */
  method QuarterRound(x: array<u32>, a: nat, b: nat, c: nat, d: nat)
    requires x.Length == 16 && Distinct(a, b, c, d)
    modifies x
    ensures x[..] == QuarterAt(old(x[..]), a, b, c, d)
  {
    hide Rotate, Xor;
    ghost var f := Get(x[..], a, b, c, d);
    x[a] := Plus(x[a], x[b]);
    x[d] := Rotate(Xor32(x[d], x[a]), 0x1_0000, 0x1_0000);
    assert Four(x[a], x[b], x[c], x[d]) == Line1(f);
    x[c] := Plus(x[c], x[d]);
    x[b] := Rotate(Xor32(x[b], x[c]), 0x1000, 0x10_0000);
    assert Four(x[a], x[b], x[c], x[d]) == Line2(Line1(f));
    x[a] := Plus(x[a], x[b]);
    x[d] := Rotate(Xor32(x[d], x[a]), 0x100, 0x100_0000);
    assert Four(x[a], x[b], x[c], x[d]) == Line3(Line2(Line1(f)));
    x[c] := Plus(x[c], x[d]);
    x[b] := Rotate(Xor32(x[b], x[c]), 0x80, 0x200_0000);
    assert Four(x[a], x[b], x[c], x[d]) == Quarter(f);
    assert x[..] == Put(old(x[..]), a, b, c, d, Quarter(f));
  }

  /** The body of the round loop. */
  method DoubleRound(x: array<u32>)
    requires x.Length == 16
    modifies x
    ensures x[..] == DiagonalRound(ColumnRound(old(x[..])))
  {
    hide QuarterAt;
    QuarterRound(x, 0, 4, 8, 12);
    QuarterRound(x, 1, 5, 9, 13);
    QuarterRound(x, 2, 6, 10, 14);
    QuarterRound(x, 3, 7, 11, 15);
    QuarterRound(x, 0, 5, 10, 15);
    QuarterRound(x, 1, 6, 11, 12);
    QuarterRound(x, 2, 7, 8, 13);
    QuarterRound(x, 3, 4, 9, 14);
  }

  /** The words as bytes: U32TO8_LITTLE for each of them. */
  method Store(output: array<byte>, x: array<u32>)
    requires output.Length == 64 && x.Length == 16
    modifies output
    ensures output[..] == Serialized(x[..])
  {
    hide ByteOf;
    for n := 0 to 16
      invariant forall k :: 0 <= k < 4 * n ==> output[k] == ByteOf(x[k / 4], k % 4)
    {
      output[4 * n] := ByteOf(x[n], 0);
      output[4 * n + 1] := ByteOf(x[n], 1);
      output[4 * n + 2] := ByteOf(x[n], 2);
      output[4 * n + 3] := ByteOf(x[n], 3);
    }
  }

  /** _Round */
  method Round(output: array<byte>, input: array<u32>)
    requires output.Length == 64 && input.Length == 16
    modifies output
    ensures output[..] == Block(input[..])
  {
    hide DiagonalRound, ColumnRound, ByteOf, Plus;
    ghost var s := input[..];
    var x := new u32[16](i requires 0 <= i < 16 reads input => input[i]);
    assert x[..] == s;
    var i := 8;
    while i > 0
      invariant 0 <= i <= 8 && i % 2 == 0 && x[..] == Rounds(s, 4 - i / 2)
    {
      DoubleRound(x);
      i := i - 2;
    }
    ghost var r := x[..];
    for n := 0 to 16
      invariant forall k :: 0 <= k < 16 ==> x[k] == if k < n then Plus(r[k], s[k]) else r[k]
    {
      x[n] := Plus(x[n], input[n]);
    }
    assert x[..] == Sum(r, s);
    Store(output, x);
  }

  // ---------------------------------------------------------------- the counter

  /** Words 12 and 13 as one number. */
  function Counter(s: Words): nat { s[12] as nat + 0x1_0000_0000 * s[13] as nat }

  const COUNTERS := 0x1_0000_0000_0000_0000

  function WithCounter(s: Words, c: nat): Words
    requires c < COUNTERS
  {
    s[12 := c % 0x1_0000_0000][13 := c / 0x1_0000_0000]
  }

  /** The state after one block. */
  function Bump(s: Words): Words {
    var low := Plus(s[12], 1);
    if low == 0 then s[12 := low][13 := Plus(s[13], 1)] else s[12 := low]
  }

  function Advance(s: Words, blocks: nat): Words {
    if blocks == 0 then s else Bump(Advance(s, blocks - 1))
  }

  lemma BumpCounts(s: Words)
    ensures Bump(s) == WithCounter(s, if Counter(s) == COUNTERS - 1 then 0 else Counter(s) + 1)
  {
  }

  lemma NextRemainder(n: nat, m: nat)
    requires m > 0
    ensures (n + 1) % m == if n % m == m - 1 then 0 else n % m + 1
  {
    var q, r := n / m, n % m;
    if r == m - 1 {
      assert n + 1 == (q + 1) * m + 0;
      DivMod(q + 1, m, 0);
    } else {
      assert n + 1 == q * m + (r + 1);
      DivMod(q, m, r + 1);
    }
  }

  lemma CounterParts(s: Words, c: nat)
    requires c < COUNTERS
    ensures Counter(WithCounter(s, c)) == c && WithCounter(s, Counter(s)) == s && Counter(s) < COUNTERS
    ensures forall c' :: 0 <= c' < COUNTERS ==> WithCounter(WithCounter(s, c), c') == WithCounter(s, c')
  {
  }

  /** They are one 64-bit counter of blocks, and nothing else changes. */
  lemma {:induction false} AdvanceCounts(s: Words, blocks: nat)
    ensures Advance(s, blocks) == WithCounter(s, (Counter(s) + blocks) % COUNTERS)
  {
    hide Bump, WithCounter, Counter;
    CounterParts(s, 0);
    if blocks == 0 {
    } else {
      AdvanceCounts(s, blocks - 1);
      var c := (Counter(s) + (blocks - 1)) % COUNTERS;
      BumpCounts(Advance(s, blocks - 1));
      CounterParts(s, c);
      NextRemainder(Counter(s) + (blocks - 1), COUNTERS);
    }
  }

  lemma SameRemainder(a: int, b: int, m: nat)
    requires m > 0
    ensures a % m == b % m <==> (b - a) % m == 0
  {
    var q, r := a / m, a % m;
    var q', r' := b / m, b % m;
    assert b - a == (q' - q) * m + (r' - r) by {
      assert a == q * m + r && b == q' * m + r';
    }
    if r == r' {
      MultipleHasNoRemainder(q' - q, m);
    } else if (b - a) % m == 0 {
      var k := (b - a) / m;
      assert (k - (q' - q)) * m == r' - r;
      MultipleInside(k - (q' - q), m, r' - r);
    }
  }

  lemma MultipleHasNoRemainder(k: int, m: nat)
    requires m > 0
    ensures k * m % m == 0
  {
    var q, r := k * m / m, k * m % m;
    assert (k - q) * m == r;
    MultipleInside(k - q, m, r);
  }

  /** Two blocks of one key and nonce come from the same input exactly when they are a
      multiple of 2^64 blocks apart; up to 2^70 bytes, no input is used twice. */
  lemma InputsRepeatOnlyAfterWrap(s: Words, i: nat, j: nat)
    ensures Advance(s, i) == Advance(s, j) <==> (j - i) % COUNTERS == 0
  {
    AdvanceCounts(s, i);
    AdvanceCounts(s, j);
    var c := Counter(s);
    CounterParts(s, (c + i) % COUNTERS);
    CounterParts(s, (c + j) % COUNTERS);
    hide *;
    SameRemainder(c + i, c + j, COUNTERS);
  }

  lemma {:induction false} AdvanceTwice(s: Words, i: nat, j: nat)
    ensures Advance(Advance(s, i), j) == Advance(s, i + j)
  {
    hide Bump;
    if j > 0 {
      AdvanceTwice(s, i, j - 1);
    }
  }

  // ---------------------------------------------------------------- the stream

  function Blocks(bytes: nat): nat { (bytes + 63) / 64 }

  /** Byte i of the key stream that starts in state s. */
  function KeyByte(s: Words, i: nat): byte { Block(Advance(s, i / 64))[i % 64] }

  function Encrypted(s: Words, m: seq<byte>): (c: seq<byte>)
    ensures |c| == |m|
  {
    seq(|m|, i requires 0 <= i < |m| => Xor8(m[i], KeyByte(s, i)))
  }

  /** The copying loops of chachaEncrypt, the output being written over the input. */
  method XorBlock(buf: array<byte>, at: nat, bytes: nat, output: array<byte>)
    requires at + bytes <= buf.Length && bytes <= 64 == output.Length && buf != output
    modifies buf
    ensures forall k :: 0 <= k < buf.Length ==> buf[k] == if at <= k < at + bytes then Xor8(old(buf[k]), output[k - at]) else old(buf[k])
  {
    hide Xor;
    for i := 0 to bytes
      invariant forall k :: 0 <= k < buf.Length ==> buf[k] == if at <= k < at + i then Xor8(old(buf[k]), output[k - at]) else old(buf[k])
    {
      buf[at + i] := Xor8(buf[at + i], output[i]);
    }
  }

  lemma KeyBytesOfBlock(s: Words, n: nat, k: nat)
    requires 64 * n <= k < 64 * n + 64
    ensures KeyByte(s, k) == Block(Advance(s, n))[k - 64 * n]
  {
    hide Block, Advance;
    assert k / 64 == n && k % 64 == k - 64 * n;
  }

  /** chachaEncrypt, in place */
  method Encrypt(x: array<u32>, buf: array<byte>)
    requires x.Length == 16
    modifies x, buf
    ensures x[..] == Advance(old(x[..]), Blocks(buf.Length))
    ensures buf[..] == Encrypted(old(x[..]), old(buf[..]))
  {
    hide Block, Xor8, KeyByte;
    ghost var s, m := x[..], buf[..];
    var output := new byte[64];
    var bytes, at := buf.Length, 0;
    ghost var n := 0;
    while bytes > 0
      invariant at == 64 * n && bytes >= 0 && at + bytes == buf.Length && x[..] == Advance(s, n)
      invariant forall k :: 0 <= k < buf.Length ==> buf[k] == if k < at then Xor8(m[k], KeyByte(s, k)) else m[k]
    {
      Round(output, x);
      assert output[..] == Block(Advance(s, n));
      x[12] := Plus(x[12], 1);
      if x[12] == 0 {
        x[13] := Plus(x[13], 1);
      }
      assert x[..] == Advance(s, n + 1);
      forall k | at <= k < at + 64 ensures KeyByte(s, k) == output[k - at] {
        KeyBytesOfBlock(s, n, k);
      }
      if bytes <= 64 {
        XorBlock(buf, at, bytes, output);
        assert Blocks(buf.Length) == n + 1;
        return;
      }
      XorBlock(buf, at, 64, output);
      bytes := bytes - 64;
      at := at + 64;
      n := n + 1;
    }
    assert buf.Length == 64 * n && (64 * n + 63) / 64 == n;
  }

  /** Encrypting twice from the same state gives the message back. */
  lemma EncryptInvolution(s: Words, m: seq<byte>)
    ensures Encrypted(s, Encrypted(s, m)) == m
  {
    hide KeyByte, Xor;
    forall i | 0 <= i < |m| ensures Encrypted(s, Encrypted(s, m))[i] == m[i] {
      XorCancels(m[i], KeyByte(s, i));
    }
  }

  lemma KeyByteLater(s: Words, n: nat, i: nat)
    ensures KeyByte(Advance(s, n), i) == KeyByte(s, 64 * n + i)
  {
    hide Block, Advance;
    var q, r := i / 64, i % 64;
    AdvanceTwice(s, n, q);
    KeyBytesOfBlock(Advance(s, n), q, i);
    KeyBytesOfBlock(s, n + q, 64 * n + i);
  }

  /** A message can be cut after any whole number of blocks. */
  lemma EncryptSplits(s: Words, a: seq<byte>, b: seq<byte>)
    requires |a| % 64 == 0
    ensures Encrypted(s, a + b) == Encrypted(s, a) + Encrypted(Advance(s, Blocks(|a|)), b)
    ensures Advance(Advance(s, Blocks(|a|)), Blocks(|b|)) == Advance(s, Blocks(|a + b|))
  {
    hide KeyByte, Xor;
    var n := Blocks(|a|);
    assert |a| == 64 * n;
    forall i | 0 <= i < |b| ensures Encrypted(s, a + b)[|a| + i] == Encrypted(Advance(s, n), b)[i] {
      KeyByteLater(s, n, i);
    }
    AdvanceTwice(s, n, Blocks(|b|));
    assert Blocks(|a + b|) == n + Blocks(|b|);
  }

  // ---------------------------------------------------------------- the generator

  /** "expand 32-byte k" */
  const SIGMA: seq<byte> := [101, 120, 112, 97, 110, 100, 32, 51, 50, 45, 98, 121, 116, 101, 32, 107]
  const ZEROS: seq<byte> := [0, 0, 0, 0, 0, 0, 0, 0]

  function Load(b: seq<byte>, at: nat): u32
    requires at + 4 <= |b|
  {
    WordOf(b[at], b[at + 1], b[at + 2], b[at + 3])
  }

  function LoadAll(b: seq<byte>): (w: seq<u32>)
    requires |b| % 4 == 0
    ensures |w| == |b| / 4
  {
    seq(|b| / 4, i requires 0 <= i < |b| / 4 => Load(b, 4 * i))
  }

  /** chachaInit */
  function Start(key: seq<byte>, iv: seq<byte>): Words
    requires |key| == 32 && |iv| == 8
  {
    LoadAll(SIGMA) + LoadAll(key) + [0, 0] + LoadAll(iv)
  }

  lemma LoadBytes(b: seq<byte>, at: nat, j: nat)
    requires at + 4 <= |b| && j < 4
    ensures ByteOf(Load(b, at), j) == b[at + j]
  {
    WordBytes(b[at], b[at + 1], b[at + 2], b[at + 3]);
  }

  /** The 64 bytes of the first input are the constant, the key, a zero counter and
      the nonce. */
  lemma StartLayout(key: seq<byte>, iv: seq<byte>)
    requires |key| == 32 && |iv| == 8
    ensures Serialized(Start(key, iv)) == SIGMA + key + ZEROS + iv
  {
    hide Load, ByteOf;
    var s, whole := Start(key, iv), SIGMA + key + ZEROS + iv;
    forall i | 0 <= i < 64 ensures Serialized(s)[i] == whole[i] {
      var n, j := i / 4, i % 4;
      assert i == 4 * n + j;
      if n < 4 {
        LoadBytes(SIGMA, 4 * n, j);
      } else if n < 12 {
        LoadBytes(key, 4 * n - 16, j);
      } else if n >= 14 {
        LoadBytes(iv, 4 * n - 56, j);
      } else {
        ZeroBytes(j);
      }
    }
  }

  lemma ZeroBytes(j: nat)
    requires j < 4
    ensures ByteOf(0, j) == 0
  {
  }

  lemma StreamOverZeros(s: Words, n: nat, zeros: seq<byte>)
    requires forall i :: 0 <= i < |zeros| ==> zeros[i] == 0
    ensures forall i :: 0 <= i < |zeros| ==> Encrypted(Advance(s, n), zeros)[i] == KeyByte(s, 64 * n + i)
  {
    hide KeyByte, Xor;
    forall i | 0 <= i < |zeros| ensures Encrypted(Advance(s, n), zeros)[i] == KeyByte(s, 64 * n + i) {
      KeyByteLater(s, n, i);
      XorOfZero(KeyByte(Advance(s, n), i));
    }
  }

  /** The generator of random.c; the kernel's seed, read once, is a parameter. */
  class Generator {
    var init: bool
    const chacha: array<u32>

    /** The key, and how many blocks of its stream have been used. */
    ghost var key: seq<byte>
    ghost var used: nat

    ghost predicate Valid()
      reads this, chacha
    {
      && chacha.Length == 16 && |key| == 32 && (!init ==> used == 0)
      && (init ==> chacha[..] == Advance(Start(key, ZEROS), used))
    }

    constructor ()
      ensures Valid() && !init && used == 0 && fresh(chacha)
    {
      init, used := false, 0;
      chacha := new u32[16];
      key := seq(32, _ => 0);
    }

    /** _randomInit with chachaInit: the seed is taken by the first call only. */
    method RandomInit(seed: seq<byte>)
      requires Valid() && |seed| == 32
      modifies this, chacha
      ensures Valid() && init && used == old(used)
      ensures key == if old(init) then old(key) else seed
    {
      if init {
        return;
      }
      var start := Start(seed, ZEROS);
      forall i | 0 <= i < 16 {
        chacha[i] := start[i];
      }
      assert chacha[..] == start;
      key := seed;
      init := true;
    }

    /** randomGet: the buffer receives the next bytes of one key stream, from the first
        block that no earlier call has touched. */
    method RandomGet(buf: array<byte>, seed: seq<byte>)
      requires Valid() && |seed| == 32
      modifies this, chacha, buf
      ensures Valid() && init && used == old(used) + Blocks(buf.Length)
      ensures key == if old(init) then old(key) else seed
      ensures forall i :: 0 <= i < buf.Length ==> buf[i] == KeyByte(Start(key, ZEROS), 64 * old(used) + i)
    {
      hide KeyByte, Advance, Start, Encrypted;
      RandomInit(seed);
      ghost var start := Start(key, ZEROS);
      forall i | 0 <= i < buf.Length {
        buf[i] := 0;
      }
      ghost var zeros := buf[..];
      assert chacha[..] == Advance(start, used);
      Encrypt(chacha, buf);
      AdvanceTwice(start, used, Blocks(buf.Length));
      StreamOverZeros(start, used, zeros);
      forall i | 0 <= i < buf.Length ensures buf[i] == KeyByte(start, 64 * used + i) {
        assert buf[i] == buf[..][i] == Encrypted(Advance(start, used), zeros)[i];
      }
      used := used + Blocks(buf.Length);
    }
  }
}
