/** display/framebuffer.c: the conversion of a linear image to the block-linear
    layout.  An image row is `stride` bytes; a GOB is 64 bytes by 8 rows, stored as
    512 consecutive bytes in 16-byte units; a block is a column of 2^n GOBs. */
module Framebuffer {
  import opened Arithmetic

  type byte = b: int | 0 <= b < 256

  // ---------------------------------------------------------------- inside a GOB

  // The row and the column of unit i of a GOB, 0 <= i < 32.  The masks and shifts
  // are written as arithmetic on the bits of i.
  function UnitRow(i: nat): nat { 2 * (i / 4 % 4) + i % 2 }
  function UnitCol(i: nat): nat { 16 * (i / 2 % 2) + 32 * (i / 16 % 2) }

  /** The place of byte (x, y) of a GOB. */
  function Swizzle(x: nat, y: nat): nat {
    16 * (y % 2 + 2 * (x / 16 % 2) + 4 * (y / 2 % 2) + 8 * (y / 4 % 2) + 16 * (x / 32 % 2)) + x % 16
  }

  function FromBits(b0: nat, b1: nat, b2: nat, b3: nat, b4: nat): nat { b0 + 2 * b1 + 4 * b2 + 8 * b3 + 16 * b4 }

  predicate AreBits(b0: nat, b1: nat, b2: nat, b3: nat, b4: nat) { b0 < 2 && b1 < 2 && b2 < 2 && b3 < 2 && b4 < 2 }

  lemma Split(i: nat) returns (b0: nat, b1: nat, b2: nat, b3: nat, b4: nat)
    requires i < 32
    ensures AreBits(b0, b1, b2, b3, b4) && i == FromBits(b0, b1, b2, b3, b4)
  {
    var h1 := i / 2;
    var h2 := h1 / 2;
    var h3 := h2 / 2;
    b0, b1, b2, b3, b4 := i % 2, h1 % 2, h2 % 2, h3 % 2, h3 / 2;
  }

  lemma SplitColumn(x: nat) returns (b1: nat, b4: nat, j: nat)
    requires x < 64
    ensures b1 < 2 && b4 < 2 && j < 16 && x == 16 * b1 + 32 * b4 + j
  {
    var h := x / 16;
    b1, b4, j := h % 2, h / 2, x % 16;
  }

  lemma SplitRow(y: nat) returns (b0: nat, b2: nat, b3: nat)
    requires y < 8
    ensures b0 < 2 && b2 < 2 && b3 < 2 && y == b0 + 2 * b2 + 4 * b3
  {
    var h := y / 2;
    b0, b2, b3 := y % 2, h % 2, h / 2;
  }

  lemma RowOfBits(b0: nat, b1: nat, b2: nat, b3: nat, b4: nat)
    requires AreBits(b0, b1, b2, b3, b4)
    ensures UnitRow(FromBits(b0, b1, b2, b3, b4)) == b0 + 2 * b2 + 4 * b3
  {
    var i, q := FromBits(b0, b1, b2, b3, b4), b2 + 2 * b3 + 4 * b4;
    FourTimes(q, b0 + 2 * b1);
    FourTimes(b4, b2 + 2 * b3);
    assert i == 4 * q + (b0 + 2 * b1) && q == 4 * b4 + (b2 + 2 * b3);
    Halve(b1 + 2 * q, b0);
  }

  lemma ColOfBits(b0: nat, b1: nat, b2: nat, b3: nat, b4: nat)
    requires AreBits(b0, b1, b2, b3, b4)
    ensures UnitCol(FromBits(b0, b1, b2, b3, b4)) == 16 * b1 + 32 * b4
  {
    var i, q := FromBits(b0, b1, b2, b3, b4), b2 + 2 * b3 + 4 * b4;
    Halve(b1 + 2 * q, b0);
    Halve(q, b1);
    assert i == 16 * b4 + (b0 + 2 * b1 + 4 * b2 + 8 * b3) && i == 2 * (b1 + 2 * q) + b0;
    assert i / 16 == b4;
  }

  lemma UnitOfBits(b0: nat, b1: nat, b2: nat, b3: nat, b4: nat)
    requires AreBits(b0, b1, b2, b3, b4)
    ensures UnitRow(FromBits(b0, b1, b2, b3, b4)) == b0 + 2 * b2 + 4 * b3
    ensures UnitCol(FromBits(b0, b1, b2, b3, b4)) == 16 * b1 + 32 * b4
  {
    RowOfBits(b0, b1, b2, b3, b4);
    ColOfBits(b0, b1, b2, b3, b4);
    hide *;
  }

  lemma FourTimes(q: nat, r: nat)
    requires r < 4
    ensures (4 * q + r) / 4 == q && (4 * q + r) % 4 == r
  {
  }

  lemma Halve(q: nat, b: nat)
    requires b < 2
    ensures (2 * q + b) / 2 == q && (2 * q + b) % 2 == b
  {
  }

  lemma SwizzleOfBits(b0: nat, b1: nat, b2: nat, b3: nat, b4: nat, j: nat)
    requires AreBits(b0, b1, b2, b3, b4) && j < 16
    ensures Swizzle(16 * b1 + 32 * b4 + j, b0 + 2 * b2 + 4 * b3) == 16 * FromBits(b0, b1, b2, b3, b4) + j
  {
    ColumnBits(b1, b4, j);
    RowBits(b0, b2, b3);
  }

  lemma ColumnBits(b1: nat, b4: nat, j: nat)
    requires b1 < 2 && b4 < 2 && j < 16
    ensures var x := 16 * b1 + 32 * b4 + j; x / 16 % 2 == b1 && x / 32 % 2 == b4 && x % 16 == j
  {
    var x := 16 * b1 + 32 * b4 + j;
    assert x / 16 == b1 + 2 * b4 && x / 32 == b4;
  }

  lemma RowBits(b0: nat, b2: nat, b3: nat)
    requires b0 < 2 && b2 < 2 && b3 < 2
    ensures var y := b0 + 2 * b2 + 4 * b3; y % 2 == b0 && y / 2 % 2 == b2 && y / 4 % 2 == b3
  {
    var y := b0 + 2 * b2 + 4 * b3;
    assert y / 2 == b2 + 2 * b3 && y / 4 == b3;
  }

  lemma AndEven(a: nat, b: nat)
    ensures And(a, 2 * b) == 2 * And(a / 2, b)
  {
    AndDigits(a, 2 * b);
  }

  lemma AndOne(a: nat)
    ensures And(a, 1) == a % 2
  {
    AndDigits(a, 1);
    assert And(a / 2, 0) == 0;
  }

  lemma RowMask(i: nat)
    ensures And(i / 2, 0x06) == 2 * (i / 4 % 2) + 4 * (i / 8 % 2)
  {
    var h := i / 4;
    AndEven(i / 2, 3);
    AndDigits(h, 3);
    AndOne(h / 2);
    hide And;
    assert i / 2 / 2 == h && i / 8 == h / 2;
  }

  lemma ColumnMasks(i: nat)
    ensures And(i * 8, 0x10) == 16 * (i / 2 % 2) && And(i * 2, 0x20) == 32 * (i / 16 % 2)
  {
    AndEven(i * 8, 8);
    AndEven(i * 4, 4);
    AndEven(i * 2, 2);
    AndEven(i, 1);
    AndOne(i / 2);
    AndEven(i * 2, 16);
    AndEven(i, 8);
    AndEven(i / 2, 4);
    AndEven(i / 4, 2);
    AndEven(i / 8, 1);
    AndOne(i / 16);
    hide And;
    assert i * 8 / 2 == i * 4 && i * 4 / 2 == i * 2 && i * 2 / 2 == i;
    assert i / 2 / 2 == i / 4 && i / 4 / 2 == i / 8 && i / 8 / 2 == i / 16;
  }

  lemma OrOfRow(even: nat, bit: nat)
    requires bit < 2
    ensures Or(2 * even, bit) == 2 * even + bit
  {
    assert Pow2(1) == 2;
    OrDisjoint(even, bit, 1);
  }

  lemma OrOfColumn(low: nat, high: nat)
    requires low < 2 && high < 2
    ensures Or(16 * low, 32 * high) == 16 * low + 32 * high
  {
    assert Pow2(5) == 32;
    OrParts(0, 16 * low, high, 0, 5);
    OrZero(high);
    OrZero(16 * low);
  }

  lemma UnitRowMask(i: nat)
    ensures UnitRow(i) == Or(And(i / 2, 0x06), And(i, 0x01))
  {
    hide And, Or;
    var q := i / 4;
    RowMask(i);
    AndOne(i);
    assert i / 8 == q / 2;
    FourParts(q);
    OrOfRow(q % 2 + 2 * (q / 2 % 2), i % 2);
  }

  lemma UnitColMask(i: nat)
    ensures UnitCol(i) == Or(And(i * 8, 0x10), And(i * 2, 0x20))
  {
    hide And, Or;
    ColumnMasks(i);
    OrOfColumn(i / 2 % 2, i / 16 % 2);
  }

  /** The masks and shifts of the code compute the row and the column of unit i. */
  lemma UnitMasks(i: nat)
    ensures UnitRow(i) == Or(And(i / 2, 0x06), And(i, 0x01))
    ensures UnitCol(i) == Or(And(i * 8, 0x10), And(i * 2, 0x20))
  {
    UnitRowMask(i);
    UnitColMask(i);
    hide *;
  }

  lemma FourParts(a: nat)
    ensures a % 4 == a % 2 + 2 * (a / 2 % 2)
  {
    var h, r := a / 2, a % 2;
    var q, r' := h / 2, h % 2;
    assert a == 4 * q + (r + 2 * r');
    FourTimes(q, r + 2 * r');
  }

  /** The units cover the GOB, each byte once. */
  lemma UnitThenSwizzle(i: nat, j: nat)
    requires i < 32 && j < 16
    ensures UnitRow(i) < 8 && UnitCol(i) + j < 64 && Swizzle(UnitCol(i) + j, UnitRow(i)) == 16 * i + j
  {
    var b0, b1, b2, b3, b4 := Split(i);
    UnitOfBits(b0, b1, b2, b3, b4);
    SwizzleOfBits(b0, b1, b2, b3, b4, j);
  }

  lemma BitsThenUnit(b0: nat, b1: nat, b2: nat, b3: nat, b4: nat, j: nat)
    requires AreBits(b0, b1, b2, b3, b4) && j < 16
    ensures var x, y := 16 * b1 + 32 * b4 + j, b0 + 2 * b2 + 4 * b3;
      && Swizzle(x, y) < 512
      && UnitRow(Swizzle(x, y) / 16) == y && UnitCol(Swizzle(x, y) / 16) + Swizzle(x, y) % 16 == x
  {
    var i := FromBits(b0, b1, b2, b3, b4);
    UnitOfBits(b0, b1, b2, b3, b4);
    SwizzleOfBits(b0, b1, b2, b3, b4, j);
    assert (16 * i + j) / 16 == i && (16 * i + j) % 16 == j;
  }

  lemma SwizzleThenUnit(x: nat, y: nat)
    requires x < 64 && y < 8
    ensures Swizzle(x, y) < 512
    ensures UnitRow(Swizzle(x, y) / 16) == y && UnitCol(Swizzle(x, y) / 16) + Swizzle(x, y) % 16 == x
  {
    var b1, b4, j := SplitColumn(x);
    var b0, b2, b3 := SplitRow(y);
    BitsThenUnit(b0, b1, b2, b3, b4, j);
  }

  // ---------------------------------------------------------------- the whole image

  /** The dimensions of a conversion: row length in bytes, rows, GOBs in a block. */
  datatype Layout = Layout(stride: nat, height: nat, gobs: nat) {
    predicate Valid() { stride % 64 == 0 && gobs > 0 }

    function Columns(): nat { stride / 64 }
    function BlockRows(): nat requires gobs > 0 { (height + 8 * gobs - 1) / (8 * gobs) }
    function GobCount(): nat requires gobs > 0 { BlockRows() * Columns() * gobs }

    /** GOB g: its first row and its first column; GOBs run down a block, blocks
        along a row of blocks. */
    function GobY(g: nat): nat requires gobs > 0 && Columns() > 0 { BlockTop(g / gobs / Columns()) + g % gobs * 8 }
    function BlockTop(blockY: nat): nat { blockY * (8 * gobs) }
    function GobX(g: nat): nat requires gobs > 0 && Columns() > 0 { g / gobs % Columns() * 64 }

    /** The GOB of byte (x, y), and the closed form of its offset. */
    function GobOf(x: nat, y: nat): int requires gobs > 0 { (y / (8 * gobs) * Columns() + x / 64) * gobs + y % (8 * gobs) / 8 }
    function OffsetOf(x: nat, y: nat): int requires gobs > 0 { 512 * GobOf(x, y) + Swizzle(x % 64, y % 8) }
  }

  /** The coordinates of a GOB, from its place in the three loops. */
  lemma GobCoordinates(l: Layout, blockY: nat, blockX: nat, gobY: nat)
    requires l.Valid() && blockX < l.Columns() && gobY < l.gobs
    ensures var g := (blockY * l.Columns() + blockX) * l.gobs + gobY;
      && 0 <= g && l.GobY(g) == blockY * (8 * l.gobs) + gobY * 8
      && l.GobX(g) == blockX * 64
  {
    DivMod(blockY * l.Columns() + blockX, l.gobs, gobY);
    DivMod(blockY, l.Columns(), blockX);
  }

  // ---------------------------------------------------------------- the conversion

  /** Where unit i of a GOB comes from, the GOB's first byte being at `ingob`. */
  function UnitSource(ingob: nat, stride: nat, i: nat): nat {
    ingob + UnitRow(i) * stride + UnitCol(i)
  }

  lemma UnitSourceBound(ingob: nat, stride: nat, i: nat)
    requires i < 32
    ensures UnitSource(ingob, stride, i) + 16 <= ingob + 7 * stride + 64
  {
    UnitThenSwizzle(i, 15);
    TimesMonotone(UnitRow(i), 7, stride);
  }

  /** The copy of one 128-bit unit. */
  method CopyUnit(out: array<byte>, pos: nat, inbuf: seq<byte>, from: nat)
    requires pos + 16 <= out.Length && from + 16 <= |inbuf|
    modifies out
    ensures out[pos..pos + 16] == inbuf[from..from + 16]
    ensures forall k :: 0 <= k < out.Length && !(pos <= k < pos + 16) ==> out[k] == old(out[k])
  {
    for j := 0 to 16
      invariant forall k :: 0 <= k < out.Length ==> out[k] == if pos <= k < pos + j then inbuf[from + (k - pos)] else old(out[k])
    {
      out[pos + j] := inbuf[from + j];
    }
  }

  /** Unit i of the GOB at outgob is the unit of the image it is taken from. */
  ghost predicate UnitDone(out: seq<byte>, outgob: nat, inbuf: seq<byte>, ingob: nat, stride: nat, i: nat) {
    && outgob + 16 * i + 16 <= |out| && UnitSource(ingob, stride, i) + 16 <= |inbuf|
    && out[outgob + 16 * i..outgob + 16 * i + 16] == inbuf[UnitSource(ingob, stride, i)..UnitSource(ingob, stride, i) + 16]
  }

  ghost predicate UnitsDone(out: seq<byte>, outgob: nat, inbuf: seq<byte>, ingob: nat, stride: nat) {
    forall i :: 0 <= i < 32 ==> UnitDone(out, outgob, inbuf, ingob, stride, i)
  }

  lemma UnitKept(a: seq<byte>, b: seq<byte>, outgob: nat, inbuf: seq<byte>, ingob: nat, stride: nat, i: nat)
    requires UnitDone(a, outgob, inbuf, ingob, stride, i) && |a| == |b|
    requires forall k :: outgob + 16 * i <= k < outgob + 16 * i + 16 ==> a[k] == b[k]
    ensures UnitDone(b, outgob, inbuf, ingob, stride, i)
  {
    assert b[outgob + 16 * i..outgob + 16 * i + 16] == a[outgob + 16 * i..outgob + 16 * i + 16];
  }

  /** _convertGobTo16Bx2: 32 units, in the order of their place in the output. */
  method ConvertGob(out: array<byte>, outgob: nat, inbuf: seq<byte>, ingob: nat, stride: nat)
    requires outgob + 512 <= out.Length && ingob + 7 * stride + 64 <= |inbuf|
    modifies out
    ensures UnitsDone(out[..], outgob, inbuf, ingob, stride)
    ensures forall k :: 0 <= k < out.Length && !(outgob <= k < outgob + 512) ==> out[k] == old(out[k])
  {
    var pos := outgob;
    for i := 0 to 32
      invariant pos == outgob + 16 * i
      invariant forall u :: 0 <= u < i ==> UnitDone(out[..], outgob, inbuf, ingob, stride, u)
      invariant forall k :: 0 <= k < out.Length && !(outgob <= k < pos) ==> out[k] == old(out[k])
    {
      ghost var before := out[..];
      UnitSourceBound(ingob, stride, i);
      CopyUnit(out, pos, inbuf, UnitSource(ingob, stride, i));
      forall u | 0 <= u < i ensures UnitDone(out[..], outgob, inbuf, ingob, stride, u) {
        UnitKept(before, out[..], outgob, inbuf, ingob, stride, u);
      }
      pos := pos + 16;
    }
  }

  /** n rounded up to a multiple of m. */
  function RoundUp(n: nat, m: nat): int
    requires m > 0
  {
    (n + m - 1) / m * m
  }

  /** GOB g of the output, once it has been passed: converted from its rows of the
      image, or left as it was if it lies wholly below the image. */
  ghost predicate GobDone(out: seq<byte>, before: seq<byte>, l: Layout, inbuf: seq<byte>, g: nat)
    requires l.Valid() && l.Columns() > 0
  {
    if l.GobY(g) < l.height
    then UnitsDone(out, 512 * g, inbuf, l.GobY(g) * l.stride + l.GobX(g), l.stride)
    else 512 * g + 512 <= |out| && |out| == |before| && out[512 * g..512 * g + 512] == before[512 * g..512 * g + 512]
  }

  lemma GobKept(a: seq<byte>, b: seq<byte>, before: seq<byte>, l: Layout, inbuf: seq<byte>, g: nat)
    requires l.Valid() && l.Columns() > 0 && GobDone(a, before, l, inbuf, g) && |a| == |b|
    requires forall k :: 512 * g <= k < 512 * g + 512 && k < |a| ==> a[k] == b[k]
    ensures GobDone(b, before, l, inbuf, g)
  {
    if l.GobY(g) < l.height {
      var ingob := l.GobY(g) * l.stride + l.GobX(g);
      forall i | 0 <= i < 32 ensures UnitDone(b, 512 * g, inbuf, ingob, l.stride, i) {
        UnitKept(a, b, 512 * g, inbuf, ingob, l.stride, i);
      }
    } else {
      assert b[512 * g..512 * g + 512] == a[512 * g..512 * g + 512];
    }
  }

  /** The loops stay inside the GOBs of the output. */
  lemma GobInRange(l: Layout, blockY: nat, blockX: nat, gobY: nat)
    requires l.Valid() && blockY < l.BlockRows() && blockX < l.Columns() && gobY < l.gobs
    ensures (blockY * l.Columns() + blockX) * l.gobs + gobY < l.GobCount()
  {
    TimesMonotone(blockY + 1, l.BlockRows(), l.Columns());
    TimesMonotone(blockY * l.Columns() + blockX + 1, l.BlockRows() * l.Columns(), l.gobs);
  }

  /** A GOB that starts inside the image is read inside the padded image. */
  lemma GobReadable(stride: nat, height: nat, y: nat, x: nat)
    requires y % 8 == 0 && y < height && x + 64 <= stride
    ensures y * stride + x + 7 * stride + 64 <= RoundUp(height, 8) * stride
  {
    assert y + 8 <= RoundUp(height, 8);
    TimesMonotone(y + 8, RoundUp(height, 8), stride);
  }

  lemma Multiple8(a: nat, b: nat, c: nat)
    ensures (a * (8 * b) + c * 8) % 8 == 0
  {
    assert a * (8 * b) + c * 8 == 8 * (a * b + c);
  }

  lemma NextProduct(a: int, n: int)
    ensures a * n + n == (a + 1) * n
  {
  }

  /** What the three loops know of the GOB they are at. */
  lemma GobOfLoops(l: Layout, blockY: nat, blockX: nat, gobY: nat)
    requires l.Valid() && blockY < l.BlockRows() && blockX < l.Columns() && gobY < l.gobs
    ensures var g, x, y := (blockY * l.Columns() + blockX) * l.gobs + gobY, blockX * 64, blockY * (8 * l.gobs) + gobY * 8;
      && 0 <= g < l.GobCount() && l.GobX(g) == x && l.GobY(g) == y
      && (y < l.height ==> y * l.stride + x + 7 * l.stride + 64 <= RoundUp(l.height, 8) * l.stride)
  {
    GobInRange(l, blockY, blockX, gobY);
    GobCoordinates(l, blockY, blockX, gobY);
    var y := blockY * (8 * l.gobs) + gobY * 8;
    if y < l.height {
      Multiple8(blockY, l.gobs, gobY);
      GobReadable(l.stride, l.height, y, blockX * 64);
    }
  }

  /** The first g GOBs are done and the rest is untouched. */
  ghost predicate Progress(out: seq<byte>, before: seq<byte>, l: Layout, inbuf: seq<byte>, g: nat)
    requires l.Valid()
  {
    && |out| == |before|
    && (l.Columns() > 0 ==> forall h :: 0 <= h < g ==> GobDone(out, before, l, inbuf, h))
    && forall k :: 512 * g <= k < |out| ==> out[k] == before[k]
  }

  lemma ProgressStep(a: seq<byte>, b: seq<byte>, before: seq<byte>, l: Layout, inbuf: seq<byte>, g: nat)
    requires l.Valid() && l.Columns() > 0 && Progress(a, before, l, inbuf, g) && 512 * g + 512 <= |a| == |b|
    requires forall k :: 0 <= k < |a| && !(512 * g <= k < 512 * g + 512) ==> a[k] == b[k]
    requires if l.GobY(g) < l.height then GobDone(b, before, l, inbuf, g) else a == b
    ensures Progress(b, before, l, inbuf, g + 1)
  {
    forall h | 0 <= h < g + 1 ensures GobDone(b, before, l, inbuf, h) {
      if h < g {
        GobKept(a, b, before, l, inbuf, h);
      }
    }
  }

  lemma NoProgress(out: seq<byte>, l: Layout, inbuf: seq<byte>)
    requires l.Valid()
    ensures Progress(out, out, l, inbuf, 0)
  {
  }

  lemma UnitsMakeGob(out: seq<byte>, before: seq<byte>, l: Layout, inbuf: seq<byte>, g: nat, y: nat, x: nat)
    requires l.Valid() && l.Columns() > 0 && l.GobY(g) == y < l.height && l.GobX(g) == x
    requires UnitsDone(out, 512 * g, inbuf, y * l.stride + x, l.stride)
    ensures GobDone(out, before, l, inbuf, g)
  {
  }

  /** The body of the three loops, at the GOB whose first column and row are x and y. */
  method ConvertGobAt(out: array<byte>, inbuf: seq<byte>, ghost before: seq<byte>, ghost l: Layout, stride: nat, height: nat,
                      x: nat, y: nat, outgob: nat, ghost g: nat)
    requires l.Valid() && l.Columns() > 0 && l.stride == stride && l.height == height
    requires l.GobX(g) == x && l.GobY(g) == y && outgob == 512 * g && 512 * g + 512 <= out.Length
    requires y < height ==> y * stride + x + 7 * stride + 64 <= |inbuf|
    requires Progress(out[..], before, l, inbuf, g)
    modifies out
    ensures Progress(out[..], before, l, inbuf, g + 1)
  {
    hide Progress, GobDone, UnitsDone, Layout.GobX, Layout.GobY;
    ghost var was := out[..];
    if y < height {
      ConvertGob(out, outgob, inbuf, y * stride + x, stride);
      UnitsMakeGob(out[..], before, l, inbuf, g, y, x);
    }
    ProgressStep(was, out[..], before, l, inbuf, g);
  }

  /** _convertToBlocklinear */
  method ConvertToBlocklinear(out: array<byte>, inbuf: seq<byte>, stride: nat, height: nat, blockHeightLog2: nat) returns (ghost l: Layout)
    requires stride % 64 == 0 && |inbuf| >= RoundUp(height, 8) * stride
    requires out.Length >= 512 * Layout(stride, height, Pow2(blockHeightLog2)).GobCount()
    modifies out
    ensures l == Layout(stride, height, Pow2(blockHeightLog2))
    ensures Progress(out[..], old(out[..]), l, inbuf, l.GobCount())
    ensures forall x, y :: 0 <= x < stride && 0 <= y < RoundUp(height, 8) ==> Placed(out[..], l, inbuf, x, y)
  {
    var blockHeightGobs := Pow2(blockHeightLog2);
    var blockHeightPx := 8 * blockHeightGobs;
    var widthBlocks := stride / 64;
    var heightBlocks := (height + blockHeightPx - 1) / blockHeightPx;
    var outgob := 0;
    l := Layout(stride, height, blockHeightGobs);
    ghost var before := out[..];
    ghost var g := 0;
    NoProgress(out[..], l, inbuf);
    assert heightBlocks == l.BlockRows() && widthBlocks == l.Columns();
    assert heightBlocks * widthBlocks * blockHeightGobs == l.GobCount();
    hide Progress, RoundUp, Placed, Layout.GobX, Layout.GobY, Layout.BlockRows, Layout.Columns, Layout.GobCount;
    for blockY := 0 to heightBlocks
      invariant outgob == 512 * g && g == blockY * widthBlocks * blockHeightGobs
      invariant Progress(out[..], before, l, inbuf, g)
    {
      for blockX := 0 to widthBlocks
        invariant outgob == 512 * g && g == (blockY * widthBlocks + blockX) * blockHeightGobs
        invariant Progress(out[..], before, l, inbuf, g)
      {
        for gobY := 0 to blockHeightGobs
          invariant outgob == 512 * g && g == (blockY * widthBlocks + blockX) * blockHeightGobs + gobY
          invariant Progress(out[..], before, l, inbuf, g)
        {
          var x := blockX * 64;
          var y := blockY * blockHeightPx + gobY * 8;
          GobOfLoops(l, blockY, blockX, gobY);
          ConvertGobAt(out, inbuf, before, l, stride, height, x, y, outgob, g);
          outgob := outgob + 512;
          g := g + 1;
        }
        NextProduct(blockY * widthBlocks + blockX, blockHeightGobs);
      }
      NextProduct(blockY, widthBlocks);
    }
    EveryBytePlaced(out[..], before, l, inbuf);
  }

  // ---------------------------------------------------------------- the closed form

  /** Byte (x, y) of the image is at its closed-form offset. */
  ghost predicate Placed(out: seq<byte>, l: Layout, inbuf: seq<byte>, x: nat, y: nat)
    requires l.Valid()
  {
    && 0 <= l.OffsetOf(x, y) < |out| && y * l.stride + x < |inbuf|
    && out[l.OffsetOf(x, y)] == inbuf[y * l.stride + x]
  }

  lemma DivBelow(y: nat, q: nat, n: nat)
    requires n > 0 && y < q * n
    ensures y / n < q
  {
    if y / n >= q {
      TimesMonotone(q, y / n, n);
    }
  }

  /** A row, by its row of blocks, its GOB there, and its place in the GOB. */
  lemma RowParts(y: nat, gobs: nat) returns (blockY: nat, gobY: nat, r: nat)
    requires gobs > 0
    ensures blockY == y / (8 * gobs) && gobY == y % (8 * gobs) / 8 && r == y % 8
    ensures y == blockY * (8 * gobs) + gobY * 8 + r && gobY < gobs
  {
    var row: nat;
    blockY, row := DivParts(y, 8 * gobs);
    RowSplit(blockY, gobs, row);
    gobY, r := DivParts(row, 8);
  }

  lemma DivParts(a: nat, n: nat) returns (q: nat, r: nat)
    requires n > 0
    ensures q == a / n && r == a % n && a == q * n + r && r < n
  {
    q, r := a / n, a % n;
  }

  /** The GOB of a byte starts at the multiples of 8 and of 64 below its row and its
      column. */
  lemma GobStart(l: Layout, x: nat, y: nat)
    requires l.Valid() && x < l.stride
    ensures 0 <= l.GobOf(x, y) && l.GobY(l.GobOf(x, y)) == y - y % 8 && l.GobX(l.GobOf(x, y)) == x - x % 64
  {
    var blockX := x / 64;
    assert blockX < l.Columns() && x == blockX * 64 + x % 64;
    var blockY, gobY, r := RowParts(y, l.gobs);
    GobCoordinates(l, blockY, blockX, gobY);
  }

  lemma GobBelowCount(l: Layout, x: nat, y: nat)
    requires l.Valid() && x < l.stride && y < l.BlockRows() * (8 * l.gobs)
    ensures l.GobOf(x, y) < l.GobCount()
  {
    var blockX := x / 64;
    assert blockX < l.Columns();
    DivBelow(y, l.BlockRows(), 8 * l.gobs);
    var blockY, gobY, r := RowParts(y, l.gobs);
    GobInRange(l, blockY, blockX, gobY);
  }

  lemma RowSplit(blockY: nat, gobs: nat, row: nat)
    ensures (blockY * (8 * gobs) + row) % 8 == row % 8
  {
    assert blockY * (8 * gobs) + row == 8 * (blockY * gobs) + row;
  }

  lemma RoundUpIsLeast(h: nat, y: nat, m: nat)
    requires y < RoundUp(h, 8)
    ensures y - y % 8 < h
    ensures m % 8 == 0 && h <= m ==> RoundUp(h, 8) <= m
  {
  }

  /** The blocks cover the image, padded to whole GOBs. */
  lemma BlocksCover(l: Layout, y: nat)
    requires l.Valid() && y < RoundUp(l.height, 8)
    ensures y - y % 8 < l.height && y < l.BlockRows() * (8 * l.gobs)
  {
    var q, r := DivParts(l.height + 8 * l.gobs - 1, 8 * l.gobs);
    RowSplit(q, l.gobs, 0);
    RoundUpIsLeast(l.height, y, q * (8 * l.gobs));
  }

  lemma ByteOfUnit(out: seq<byte>, outgob: nat, inbuf: seq<byte>, ingob: nat, stride: nat, i: nat, j: nat)
    requires UnitDone(out, outgob, inbuf, ingob, stride, i) && j < 16
    ensures out[outgob + 16 * i + j] == inbuf[UnitSource(ingob, stride, i) + j]
  {
    assert out[outgob + 16 * i + j] == out[outgob + 16 * i..outgob + 16 * i + 16][j];
    assert inbuf[UnitSource(ingob, stride, i) + j] == inbuf[UnitSource(ingob, stride, i)..UnitSource(ingob, stride, i) + 16][j];
  }

  lemma UnitByte(out: seq<byte>, outgob: nat, inbuf: seq<byte>, ingob: nat, stride: nat, x: nat, y: nat)
    requires UnitsDone(out, outgob, inbuf, ingob, stride) && x < 64 && y < 8
    ensures outgob + Swizzle(x, y) < |out| && ingob + y * stride + x < |inbuf|
    ensures out[outgob + Swizzle(x, y)] == inbuf[ingob + y * stride + x]
  {
    var i, j := DivParts(Swizzle(x, y), 16);
    assert i < 32 && UnitRow(i) == y && UnitCol(i) + j == x by {
      SwizzleThenUnit(x, y);
    }
    assert UnitDone(out, outgob, inbuf, ingob, stride, i);
    ByteOfUnit(out, outgob, inbuf, ingob, stride, i, j);
  }

  lemma SourceIndex(x: nat, c: nat, y: nat, r: nat, stride: nat)
    requires c <= x && r <= y
    ensures (y - r) * stride + (x - c) + r * stride + c == y * stride + x
  {
    assert (y - r) * stride + r * stride == y * stride;
  }

  lemma BytePlaced(out: seq<byte>, before: seq<byte>, l: Layout, inbuf: seq<byte>, x: nat, y: nat)
    requires l.Valid() && x < l.stride && y < RoundUp(l.height, 8)
    requires Progress(out, before, l, inbuf, l.GobCount())
    ensures Placed(out, l, inbuf, x, y)
  {
    var g, r, c := l.GobOf(x, y), y % 8, x % 64;
    assert g >= 0 && l.GobY(g) == y - r && l.GobX(g) == x - c by {
      GobStart(l, x, y);
    }
    assert y - r < l.height && g < l.GobCount() by {
      BlocksCover(l, y);
      GobBelowCount(l, x, y);
    }
    assert GobDone(out, before, l, inbuf, g);
    UnitByte(out, 512 * g, inbuf, (y - r) * l.stride + (x - c), l.stride, c, r);
    SourceIndex(x, c, y, r, l.stride);
  }

  lemma EveryBytePlaced(out: seq<byte>, before: seq<byte>, l: Layout, inbuf: seq<byte>)
    requires l.Valid() && Progress(out, before, l, inbuf, l.GobCount())
    ensures forall x, y :: 0 <= x < l.stride && 0 <= y < RoundUp(l.height, 8) ==> Placed(out, l, inbuf, x, y)
  {
    forall x, y | 0 <= x < l.stride && 0 <= y < RoundUp(l.height, 8) ensures Placed(out, l, inbuf, x, y) {
      BytePlaced(out, before, l, inbuf, x, y);
    }
  }

  // ---------------------------------------------------------------- the inverse

  /** The column and the row of the byte at offset k of the output. */
  function XOf(l: Layout, k: nat): nat
    requires l.Valid() && l.Columns() > 0
  {
    l.GobX(k / 512) + UnitCol(k % 512 / 16) + k % 16
  }

  function YOf(l: Layout, k: nat): nat
    requires l.Valid() && l.Columns() > 0
  {
    l.GobY(k / 512) + UnitRow(k % 512 / 16)
  }

  lemma Digits(g: nat, s: nat)
    requires s < 512
    ensures (512 * g + s) / 512 == g && (512 * g + s) % 512 == s && (512 * g + s) % 16 == s % 16
  {
    assert 512 * g + s == 16 * (32 * g) + s;
  }

  lemma CoordinatesOf(l: Layout, g: nat, s: nat)
    requires l.Valid() && l.Columns() > 0 && s < 512
    ensures XOf(l, 512 * g + s) == l.GobX(g) + UnitCol(s / 16) + s % 16
    ensures YOf(l, 512 * g + s) == l.GobY(g) + UnitRow(s / 16)
  {
    Digits(g, s);
  }

  /** The offset map is injective: the coordinates can be computed back from it. */
  lemma OffsetInvertible(l: Layout, x: nat, y: nat)
    requires l.Valid() && x < l.stride
    ensures 0 <= l.OffsetOf(x, y) && XOf(l, l.OffsetOf(x, y)) == x && YOf(l, l.OffsetOf(x, y)) == y
  {
    var g, s := l.GobOf(x, y), Swizzle(x % 64, y % 8);
    assert g >= 0 && l.GobY(g) == y - y % 8 && l.GobX(g) == x - x % 64 by {
      GobStart(l, x, y);
    }
    assert s < 512 && UnitRow(s / 16) == y % 8 && UnitCol(s / 16) + s % 16 == x % 64 by {
      SwizzleThenUnit(x % 64, y % 8);
    }
    CoordinatesOf(l, g, s);
  }

  lemma QuotientMoves(y: nat, m: nat, k: nat, d: nat)
    requires m > 0 && y % m + d < m
    ensures (y + k * m + d) / m == y / m + k && (y + k * m + d) % m == y % m + d
  {
    var q, r := y / m, y % m;
    assert y + k * m + d == (q + k) * m + (r + d);
    DivMod(q + k, m, r + d);
  }

  lemma EightMore(r: nat)
    ensures (r + 8) / 8 == r / 8 + 1 && (r + 8) % 8 == r % 8
  {
  }

  lemma NextGobRow(y: nat, m: nat)
    requires m > 0 && y % m + 8 < m
    ensures (y + 8) / m == y / m && (y + 8) % m / 8 == y % m / 8 + 1 && (y + 8) % 8 == y % 8
  {
    QuotientMoves(y, m, 0, 8);
    EightMore(y % m);
    EightMore(y);
  }

  lemma NextBlockRow(y: nat, gobs: nat)
    requires gobs > 0
    ensures (y + 8 * gobs) / (8 * gobs) == y / (8 * gobs) + 1 && (y + 8 * gobs) % (8 * gobs) == y % (8 * gobs) && (y + 8 * gobs) % 8 == y % 8
  {
    QuotientMoves(y, 8 * gobs, 1, 0);
    QuotientMoves(y, 8, gobs, 0);
  }

  /** The order of the bytes: the first GOB is the swizzled one; a GOB down the block is
      512 bytes on, the next block a whole column of GOBs, and the next row of blocks as
      many rows of the image as it has. */
  lemma OffsetSteps(l: Layout, x: nat, y: nat)
    requires l.Valid()
    ensures x < 64 && y < 8 ==> l.OffsetOf(x, y) == Swizzle(x, y)
    ensures y % (8 * l.gobs) + 8 < 8 * l.gobs ==> l.OffsetOf(x, y + 8) == l.OffsetOf(x, y) + 512
    ensures l.OffsetOf(x + 64, y) == l.OffsetOf(x, y) + 512 * l.gobs
    ensures l.OffsetOf(x, y + 8 * l.gobs) == l.OffsetOf(x, y) + 8 * l.gobs * l.stride
  {
    hide Swizzle;
    FirstGob(l, x, y);
    StepRight(l, x, y);
    StepBlockRow(l, x, y);
    if y % (8 * l.gobs) + 8 < 8 * l.gobs {
      StepDown(l, x, y);
    }
    hide *;
  }

  lemma StepDown(l: Layout, x: nat, y: nat)
    requires l.Valid() && y % (8 * l.gobs) + 8 < 8 * l.gobs
    ensures l.OffsetOf(x, y + 8) == l.OffsetOf(x, y) + 512
  {
    hide Swizzle;
    NextGobRow(y, 8 * l.gobs);
  }

  lemma FirstGob(l: Layout, x: nat, y: nat)
    requires l.Valid()
    ensures x < 64 && y < 8 ==> l.OffsetOf(x, y) == Swizzle(x, y)
  {
    hide Swizzle;
    if x < 64 && y < 8 {
      DivMod(0, 8 * l.gobs, y);
    }
  }

  lemma StepRight(l: Layout, x: nat, y: nat)
    requires l.Valid()
    ensures l.OffsetOf(x + 64, y) == l.OffsetOf(x, y) + 512 * l.gobs
  {
    hide Swizzle;
    var r := y / (8 * l.gobs) * l.Columns() + x / 64;
    NextProduct(r, l.gobs);
    assert (x + 64) / 64 == x / 64 + 1 && (x + 64) % 64 == x % 64;
  }

  lemma StepBlockRow(l: Layout, x: nat, y: nat)
    requires l.Valid()
    ensures l.OffsetOf(x, y + 8 * l.gobs) == l.OffsetOf(x, y) + 8 * l.gobs * l.stride
  {
    hide Swizzle;
    var m, c := 8 * l.gobs, l.Columns();
    NextBlockRow(y, l.gobs);
    NextProduct(y / m, c);
    var r := y / m * c + x / 64;
    assert (r + c) * l.gobs == r * l.gobs + c * l.gobs;
    assert l.stride == 64 * c;
    assert 512 * (c * l.gobs) == 8 * l.gobs * (64 * c);
  }

  lemma OutputSize(rows: int, columns: int, gobs: int)
    ensures 512 * (rows * columns * gobs) == (64 * columns) * (rows * (8 * gobs))
  {
    assert rows * columns * gobs == columns * (rows * gobs);
    assert rows * (8 * gobs) == 8 * (rows * gobs);
    assert (64 * columns) * (8 * (rows * gobs)) == 512 * (columns * (rows * gobs));
  }

  /** The GOBs fill stride times the height rounded up to whole blocks. */
  lemma GobsFillOutput(l: Layout)
    requires l.Valid()
    ensures 512 * l.GobCount() == l.stride * RoundUp(l.height, 8 * l.gobs)
  {
    OutputSize(l.BlockRows(), l.Columns(), l.gobs);
    assert l.stride == 64 * l.Columns();
  }

  /** It stays below the size of the output, which is stride times the height
      rounded up to whole blocks. */
  lemma OffsetBound(l: Layout, x: nat, y: nat)
    requires l.Valid() && x < l.stride && y < RoundUp(l.height, 8 * l.gobs)
    ensures l.OffsetOf(x, y) < l.stride * RoundUp(l.height, 8 * l.gobs)
  {
    var g, s := l.GobOf(x, y), Swizzle(x % 64, y % 8);
    assert g < l.GobCount() by {
      GobBelowCount(l, x, y);
    }
    assert s < 512 by {
      SwizzleThenUnit(x % 64, y % 8);
    }
    GobsFillOutput(l);
    assert l.OffsetOf(x, y) == 512 * g + s;
  }

  lemma RowOfParts(l: Layout, blockY: nat, gobY: nat, r: nat)
    requires l.gobs > 0 && gobY < l.gobs && r < 8
    ensures var y := blockY * (8 * l.gobs) + gobY * 8 + r;
      y / (8 * l.gobs) == blockY && y % (8 * l.gobs) / 8 == gobY && y % 8 == r
  {
    DivMod(blockY, 8 * l.gobs, gobY * 8 + r);
    RowSplit(blockY, l.gobs, gobY * 8 + r);
  }

  /** The GOB a GOB number stands for, found again from its first row and column. */
  lemma GobOntoItself(l: Layout, g: nat, c: nat, r: nat)
    requires l.Valid() && l.Columns() > 0 && c < 64 && r < 8
    ensures l.GobX(g) + c < l.stride && l.GobOf(l.GobX(g) + c, l.GobY(g) + r) == g
    ensures (l.GobX(g) + c) % 64 == c && (l.GobY(g) + r) % 8 == r
  {
    var column, gobY := DivParts(g, l.gobs);
    var blockY, blockX := DivParts(column, l.Columns());
    RowOfParts(l, blockY, gobY, r);
    assert (blockX * 64 + c) / 64 == blockX && (blockX * 64 + c) % 64 == c;
  }

  lemma OffsetInGob(l: Layout, g: nat, c: nat, r: nat)
    requires l.Valid() && l.Columns() > 0 && c < 64 && r < 8
    ensures l.OffsetOf(l.GobX(g) + c, l.GobY(g) + r) == 512 * g + Swizzle(c, r)
  {
    GobOntoItself(l, g, c, r);
  }

  lemma CoordinatesOfUnit(l: Layout, k: nat, g: nat, i: nat, j: nat)
    requires l.Valid() && l.Columns() > 0 && i < 32 && j < 16 && k == 512 * g + (16 * i + j)
    ensures XOf(l, k) == l.GobX(g) + (UnitCol(i) + j)
    ensures YOf(l, k) == l.GobY(g) + UnitRow(i)
  {
    CoordinatesOf(l, g, 16 * i + j);
    assert (16 * i + j) / 16 == i && (16 * i + j) % 16 == j;
  }

  lemma OffsetOfUnit(l: Layout, k: nat, g: nat, i: nat, j: nat)
    requires l.Valid() && l.Columns() > 0 && i < 32 && j < 16 && k == 512 * g + (16 * i + j)
    ensures l.GobX(g) + (UnitCol(i) + j) < l.stride
    ensures l.OffsetOf(l.GobX(g) + (UnitCol(i) + j), l.GobY(g) + UnitRow(i)) == k
  {
    UnitThenSwizzle(i, j);
    GobOntoItself(l, g, UnitCol(i) + j, UnitRow(i));
    OffsetInGob(l, g, UnitCol(i) + j, UnitRow(i));
  }

  /** And it is onto: every byte of the output is the place of one byte, so the
      conversion permutes the padded image. */
  lemma OffsetOnto(l: Layout, k: nat)
    requires l.Valid() && l.Columns() > 0
    ensures XOf(l, k) < l.stride && l.OffsetOf(XOf(l, k), YOf(l, k)) == k
  {
    var g, s := DivParts(k, 512);
    var i, j := DivParts(s, 16);
    CoordinatesOfUnit(l, k, g, i, j);
    OffsetOfUnit(l, k, g, i, j);
  }

  /** So the output determines the linear image: two images that are converted to the
      same output are the same, padding rows included. */
  lemma ImageDetermined(out: seq<byte>, l: Layout, a: seq<byte>, a': seq<byte>, b: seq<byte>, b': seq<byte>, p: nat)
    requires l.Valid() && p < l.stride * RoundUp(l.height, 8)
    requires Progress(out, a', l, a, l.GobCount()) && Progress(out, b', l, b, l.GobCount())
    ensures p < |a| && p < |b| && a[p] == b[p]
  {
    assert l.stride > 0;
    var y, x := DivParts(p, l.stride);
    DivBelow(p, RoundUp(l.height, 8), l.stride);
    BytePlaced(out, a', l, a, x, y);
    BytePlaced(out, b', l, b, x, y);
  }
}
