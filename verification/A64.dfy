/** Utils.cs: the A64 encoders and decoders.  Machine words are integers; shifts and
    masks are written as division and remainder, | as the operation on binary digits. */
module A64 {
  import opened Arithmetic
  import opened Wrappers
  import Processor

  type byte = Processor.byte
  type u16 = w: int | 0 <= w < 0x1_0000
  type u32 = Processor.u32
  type long = w: int | -0x8000_0000_0000_0000 <= w < 0x8000_0000_0000_0000

  datatype Error = Rejected | Overflow | TooShort

  type Result<+T> = Outcome<T, Error>

  const MOVZ_ID := 0xA5        // 0b010100101
  const MOVK_ID := 0xE5        // 0b011100101
  const ADRP_ID := 0x120       // 0b100100000
  const ADD_IMM_ID := 0x122    // 0b100100010
  const ORR_ID := 0xC8         // 0b0011001000
  const B_ID := 0x1400_0000
  const BL_ID := 0x9400_0000
  const WZR: byte := 0x1F

  // ---------------------------------------------------------------- bitwise or

  lemma Powers()
    ensures Pow2(5) == 0x20 && Pow2(10) == 0x400 && Pow2(12) == 0x1000 && Pow2(21) == 0x20_0000 && Pow2(22) == 0x40_0000
    ensures Pow2(23) == 0x80_0000 && Pow2(26) == 0x400_0000 && Pow2(29) == 0x2000_0000 && Pow2(32) == 0x1_0000_0000
  {
    assert Pow2(5) == 32;
    Pow2Sum(5, 5);
    Pow2Sum(10, 1);
    Pow2Sum(10, 2);
    Pow2Sum(10, 11);
    Pow2Sum(10, 12);
    Pow2Sum(11, 12);
    Pow2Sum(21, 5);
    Pow2Sum(24, 5);
    Pow2Sum(12, 12);
    Pow2Sum(22, 10);
  }

  function Or32(a: u32, b: u32): u32 {
    Powers();
    OrBelow(a, b, 32);
    Or(a, b)
  }

  // ---------------------------------------------------------------- bytes

  function GetBytes(w: u32): (b: seq<byte>)
    ensures |b| == 4
  {
    [w % 0x100, w / 0x100 % 0x100, w / 0x1_0000 % 0x100, w / 0x100_0000]
  }

  function ToUInt32(b: seq<byte>): Result<u32> {
    if |b| < 4 then Err(TooShort)
    else Ok(b[0] as int + 0x100 * b[1] as int + 0x1_0000 * b[2] as int + 0x100_0000 * b[3] as int)
  }

  lemma WordRoundTrip(w: u32)
    ensures ToUInt32(GetBytes(w)) == Ok(w)
  {
    assert w / 0x1_0000 == w / 0x100 / 0x100 && w / 0x100_0000 == w / 0x1_0000 / 0x100;
  }

  function Take4(b: seq<byte>): seq<byte> { if |b| < 4 then b else b[..4] }
  function Skip4(b: seq<byte>): seq<byte> { if |b| < 4 then [] else b[4..] }

  lemma SplitPair(a: seq<byte>, b: seq<byte>)
    requires |a| == 4 && |b| == 4
    ensures Take4(a + b) == a && Take4(Skip4(a + b)) == b
  {
    assert (a + b)[..4] == a && (a + b)[4..] == b;
  }

  // ---------------------------------------------------------------- encoders

  function MoveWord(id: u16, wd: byte, imm: u16, hw: nat): u32
    requires id < 0x200 && hw < 4
  {
    Or32(Or32(Or32(id * 0x80_0000, hw * 0x20_0000), imm * 0x20), wd)
  }

  function EncodeMove(id: u16, wd: byte, imm: u16, lsl: int): Result<seq<byte>>
    requires id < 0x200
  {
    if lsl != 0 && lsl != 16 && lsl != 32 && lsl != 48 then Err(Rejected)
    else if wd > 0x1F then Err(Rejected)
    else Ok(GetBytes(MoveWord(id, wd, imm, lsl / 16)))
  }

  function EncodeMovz(wd: byte, imm: u16, lsl: int): Result<seq<byte>> { EncodeMove(MOVZ_ID, wd, imm, lsl) }
  function EncodeMovk(wd: byte, imm: u16, lsl: int): Result<seq<byte>> { EncodeMove(MOVK_ID, wd, imm, lsl) }

  /** A long as the unsigned number with the same digits. */
  function Unsigned(v: long): nat { if v < 0 then v + 0x1_0000_0000_0000_0000 else v }

  /** The low 20 digits of the difference of two page numbers. */
  function PageField(target: long, pc: long): (v: nat)
    ensures v < 0x10_0000
  {
    (Unsigned(target) / 0x1000 - Unsigned(pc) / 0x1000) % 0x10_0000
  }

  function AdrpWord(xd: byte, v: nat, neg: bool): u32
    requires v < 0x10_0000
  {
    Or32(Or32(Or32(Or32(ADRP_ID * 0x80_0000, v % 4 * 0x2000_0000), v / 4 * 0x20), xd), if neg then 0x80_0000 else 0)
  }

  function Abs(v: int): nat { if v < 0 then -v else v }

  function EncodeAdrp(xd: byte, target: long, pc: long): Result<seq<byte>> {
    if target == -0x8000_0000_0000_0000 then Err(Overflow) // Math.Abs has no result
    else if Abs(target) > 0xFFFF_F000 then Err(Rejected)
    else Ok(GetBytes(AdrpWord(xd, PageField(target, pc), target < 0)))
  }

  function AddWord(xd: byte, xn: byte, imm: u16, sh: nat): u32
    requires sh < 2
  {
    Or32(Or32(Or32(Or32(ADD_IMM_ID * 0x80_0000, sh * 0x40_0000), imm * 0x400), xn * 0x20), xd)
  }

  function EncodeAddImm(xd: byte, xn: byte, imm: u16, lsl: int): Result<seq<byte>> {
    if lsl != 0 && lsl != 12 then Err(Rejected)
    else if xd > 0x1F || xn > 0x1F then Err(Rejected)
    else Ok(GetBytes(AddWord(xd, xn, imm, lsl / 12)))
  }

  /** The displacement does not reach into the opcode. */
  lemma BranchFields(id: u32, target: u32)
    requires target <= 0x7FF_FFFC && (id == B_ID || id == BL_ID)
    ensures Or(id, target / 16 * 4) == id + target / 16 * 4
  {
    Powers();
    OrDisjoint(id / 0x400_0000, target / 16 * 4, 26);
    hide Or;
    assert Times(id / 0x400_0000, 0x400_0000) == id;
  }

  function BranchWord(id: u32, target: u32): u32
    requires target <= 0x7FF_FFFC && (id == B_ID || id == BL_ID)
  {
    BranchFields(id, target);
    Or32(id, target / 16 * 4) + target % 16 / 4
  }

  function EncodeBranch(id: u32, target: u32): Result<seq<byte>>
    requires id == B_ID || id == BL_ID
  {
    if target > 0x7FF_FFFC then Err(Rejected)
    else if target % 4 != 0 then Err(Rejected)
    else Ok(GetBytes(BranchWord(id, target)))
  }

  function EncodeB(target: u32): Result<seq<byte>> { EncodeBranch(B_ID, target) }
  function EncodeBl(target: u32): Result<seq<byte>> { EncodeBranch(BL_ID, target) }

  function EncodeMovzMovk(value: u32, wd: byte): Result<seq<byte>> {
    var movz :- EncodeMovz(wd, value / 0x1_0000, 16);
    var movk :- EncodeMovk(wd, value % 0x1_0000, 0);
    Ok(movz + movk)
  }

  function EncodeAdrpAdd(pc: u32, xd: byte, value: long): Result<seq<byte>> {
    var adrp :- EncodeAdrp(xd, value, pc);
    var add :- EncodeAddImm(xd, xd, value % 0x1000, 0);
    Ok(adrp + add)
  }

  // ---------------------------------------------------------------- decoders

  /** DecodeBitMasks.  The bit scan of the original tests its own index and returns 37
      for every argument, which makes the element 1 << 37 = 32 bits wide. */
  function BitMask(imms: nat, immr: nat): nat
    requires imms < 31 && immr < 32
  {
    var ones := Pow2(imms + 1) - 1;
    var mask := if immr == 0 then ones else Or(ones / Pow2(immr), ones * Pow2(32 - immr)) % 0x1_0000_0000;
    Or(mask, mask * 0x1_0000_0000) // BitfieldReplicate
  }

  /** Armv8Decode_orr */
  function DecodeOrr(ins: u32, wd: byte, wn: byte): Result<nat> {
    if ins / 0x40_0000 != ORR_ID then Err(Rejected)
    else if ins / 0x20 % 0x20 != wn then Err(Rejected)
    else if ins % 0x20 != wd then Err(Rejected)
    else if ins / 0x400 % 0x20 == 31 then Err(Rejected)
    else Ok(BitMask(ins / 0x400 % 0x20, ins / 0x1_0000 % 0x20))
  }

  /** The immediate of a move-wide word, for the shifts 0 and 16. */
  function MoveField(ins: u32): u32 {
    if ins / 0x20_0000 % 4 == 0 then ins / 0x20 % 0x1_0000 else ins / 0x20 % 0x1_0000 * 0x1_0000
  }

  function DecodeMove(id: u16, ins: u32, wd: byte): Result<u32> {
    if ins / 0x80_0000 != id || ins / 0x20_0000 % 4 > 1 then Err(Rejected)
    else if ins % 0x20 != wd then Err(Rejected)
    else Ok(MoveField(ins))
  }

  function DecodeMovz(opcode: seq<byte>, wd: byte): Result<u32> {
    var ins :- ToUInt32(opcode);
    var orr := DecodeOrr(ins, wd, WZR);
    if orr.Ok? then Ok(orr.value % 0x1_0000_0000) else DecodeMove(MOVZ_ID, ins, wd)
  }

  function DecodeMovk(opcode: seq<byte>, wd: byte): Result<u32> {
    var ins :- ToUInt32(opcode);
    DecodeMove(MOVK_ID, ins, wd)
  }

  /** The page count and the sign of an adrp word, as the decoder takes them apart. */
  function AdrpPages(ins: u32): nat { ins / 0x20 % 0x4_0000 * 4 + ins / 0x2000_0000 % 4 }
  function AdrpSign(ins: u32): bool { ins / 0x80_0000 % 2 == 1 }

  /** The offset: 0 - (long)(0 - val) in 32-bit arithmetic when the sign is set. */
  function AdrpOffset(pages: nat, neg: bool): int {
    var val := pages * 0x1000;
    if neg && val != 0 then val - 0x1_0000_0000 else val
  }

  /** Bits 6 and 7 of the upper 9 hold the lower page bits and bit 0 the sign; the rest
      is the opcode. */
  function AdrpOpcode(ins: u32): nat { ins / 0x80_0000 / 0x100 * 0x100 + ins / 0x80_0000 % 0x40 / 2 * 2 }

  function DecodeAdrp(opcode: seq<byte>, xd: byte, pc: u32): Result<int> {
    var ins :- ToUInt32(opcode);
    if AdrpOpcode(ins) != ADRP_ID then Err(Rejected)
    else if ins % 0x20 != xd then Err(Rejected)
    else Ok(AdrpOffset(AdrpPages(ins), AdrpSign(ins)) + pc / 0x1000 * 0x1000)
  }

  /** Signed 64-bit addition of a small number. */
  function AddLong(a: nat, v: int): int {
    if a + v >= 0x8000_0000_0000_0000 then a + v - 0x1_0000_0000_0000_0000 else a + v
  }

  function AddField(ins: u32): nat {
    if ins / 0x40_0000 % 2 == 0 then ins / 0x400 % 0x1000 else ins / 0x400 % 0x1000 * 0x1000
  }

  function DecodeAddImm(opcode: seq<byte>, xd: byte, xn: byte, xnValue: int): Result<int> {
    var ins :- ToUInt32(opcode);
    if ins / 0x80_0000 != ADD_IMM_ID then Err(Rejected)
    else if ins / 0x20 % 0x20 != xn then Err(Rejected)
    else if ins % 0x20 != xd then Err(Rejected)
    else Ok(AddLong(AddField(ins), xnValue))
  }

  function DecodeMovzMovk(opcode: seq<byte>, wd: byte): Result<u32> {
    var movz :- DecodeMovz(Take4(opcode), wd);
    var movk :- DecodeMovk(Take4(Skip4(opcode)), wd);
    Ok(Or32(movz, movk))
  }

  function DecodeAdrpAdd(opcode: seq<byte>, pc: u32, xd: byte): Result<int> {
    var data :- DecodeAdrp(Take4(opcode), xd, pc);
    DecodeAddImm(Take4(Skip4(opcode)), xd, xd, data)
  }

  // ---------------------------------------------------------------- movz and movk

  /** The fields of a move-wide word do not overlap. */
  lemma MoveWordIs(id: u16, wd: byte, imm: u16, hw: nat)
    requires id < 0x200 && hw < 4 && wd < 0x20
    ensures MoveWord(id, wd, imm, hw) == id * 0x80_0000 + hw * 0x20_0000 + imm * 0x20 + wd
  {
    hide Or;
    Powers();
    OrDisjoint(id, hw * 0x20_0000, 23);
    OrDisjoint(id * 4 + hw, imm * 0x20, 21);
    OrDisjoint(id * 0x4_0000 + hw * 0x1_0000 + imm, wd, 5);
  }

  lemma MoveFields(id: u16, wd: byte, imm: u16, hw: nat)
    requires id < 0x200 && hw < 4 && wd < 0x20
    ensures var ins := MoveWord(id, wd, imm, hw);
      && ins / 0x80_0000 == id && ins / 0x40_0000 == 2 * id + hw / 2 && ins / 0x20_0000 % 4 == hw
      && ins / 0x20 % 0x1_0000 == imm && ins % 0x20 == wd
  {
    hide MoveWord;
    MoveWordIs(id, wd, imm, hw);
    SplitMove(id, hw, imm, wd);
  }

  lemma SplitMove(id: nat, hw: nat, imm: nat, d: nat)
    requires hw < 4 && imm < 0x1_0000 && d < 0x20
    ensures var w := id * 0x80_0000 + hw * 0x20_0000 + imm * 0x20 + d;
      && w / 0x80_0000 == id && w / 0x40_0000 == 2 * id + hw / 2 && w / 0x20_0000 % 4 == hw
      && w / 0x20 % 0x1_0000 == imm && w % 0x20 == d && w / 0x2000_0000 == id / 0x40
  {
    var w, x := id * 0x80_0000 + hw * 0x20_0000 + imm * 0x20 + d, id * 4 + hw;
    assert w == x * 0x20_0000 + imm * 0x20 + d;
    SplitLow(x, imm, d);
    NestedShifts(w);
    Quotients(id, hw);
  }

  lemma SplitLow(x: nat, imm: nat, d: nat)
    requires imm < 0x1_0000 && d < 0x20
    ensures var w := x * 0x20_0000 + imm * 0x20 + d;
      w / 0x20_0000 == x && w / 0x20 % 0x1_0000 == imm && w % 0x20 == d
  {
    var w, a := x * 0x20_0000 + imm * 0x20 + d, x * 0x1_0000 + imm;
    DivMod(a, 0x20, d);
    DivMod(x, 0x1_0000, imm);
    assert w == a * 0x20 + d && w / 0x20_0000 == w / 0x20 / 0x1_0000;
  }

  lemma NestedShifts(w: nat)
    ensures w / 0x40_0000 == w / 0x20_0000 / 2 && w / 0x80_0000 == w / 0x20_0000 / 4
    ensures w / 0x2000_0000 == w / 0x20_0000 / 0x100 && w / 0x2000_0000 == w / 0x80_0000 / 0x40
  {
  }

  lemma Quotients(id: nat, hw: nat)
    requires hw < 4
    ensures var x := id * 4 + hw; x / 2 == 2 * id + hw / 2 && x / 4 == id && x % 4 == hw && x / 0x100 == id / 0x40
  {
  }

  lemma MovzDecodes(wd: byte, imm: u16, hw: nat, other: byte)
    requires wd < 0x20 && hw < 4
    ensures DecodeMovz(GetBytes(MoveWord(MOVZ_ID, wd, imm, hw)), other) ==
      if hw > 1 || other != wd then Err(Rejected) else Ok(if hw == 0 then imm else imm * 0x1_0000)
  {
    hide MoveWord, GetBytes, ToUInt32, BitMask;
    MoveFields(MOVZ_ID, wd, imm, hw);
    WordRoundTrip(MoveWord(MOVZ_ID, wd, imm, hw));
  }

  /** A lone movz comes back when its shift stays in the lower word; the decoder refuses
      the upper one. */
  lemma MovzRoundTrip(wd: byte, imm: u16, lsl: int)
    requires wd <= 0x1F && (lsl == 0 || lsl == 16 || lsl == 32 || lsl == 48)
    ensures EncodeMovz(wd, imm, lsl).Ok?
    ensures DecodeMovz(EncodeMovz(wd, imm, lsl).value, wd) ==
            if lsl == 0 then Ok(imm) else if lsl == 16 then Ok(imm * 0x1_0000) else Err(Rejected)
  {
    hide MoveWord, GetBytes, DecodeMovz;
    MovzDecodes(wd, imm, lsl / 16, wd);
  }

  lemma MovkDecodes(wd: byte, imm: u16, hw: nat, other: byte)
    requires wd < 0x20 && hw < 4
    ensures DecodeMovk(GetBytes(MoveWord(MOVK_ID, wd, imm, hw)), other) ==
      if hw > 1 || other != wd then Err(Rejected) else Ok(if hw == 0 then imm else imm * 0x1_0000)
  {
    hide MoveWord, GetBytes, ToUInt32;
    MoveFields(MOVK_ID, wd, imm, hw);
    WordRoundTrip(MoveWord(MOVK_ID, wd, imm, hw));
  }

  /** Every 32-bit value comes back from the pair, for the register it was encoded for
      and for no other; only registers above 31 are refused. */
  lemma MovzMovkRoundTrip(value: u32, wd: byte, other: byte)
    ensures EncodeMovzMovk(value, wd) == Err(Rejected) <==> wd > 0x1F
    ensures wd <= 0x1F ==> EncodeMovzMovk(value, wd).Ok?
    ensures wd <= 0x1F ==> DecodeMovzMovk(EncodeMovzMovk(value, wd).value, other) == if other == wd then Ok(value) else Err(Rejected)
  {
    hide MoveWord, GetBytes, DecodeMovz, DecodeMovk, Take4, Skip4, Or, Pow2;
    var high, low := value / 0x1_0000, value % 0x1_0000;
    if wd <= 0x1F {
      var movz, movk := GetBytes(MoveWord(MOVZ_ID, wd, high, 1)), GetBytes(MoveWord(MOVK_ID, wd, low, 0));
      assert EncodeMovzMovk(value, wd) == Ok(movz + movk);
      hide EncodeMovzMovk;
      MovzDecodes(wd, high, 1, other);
      MovkDecodes(wd, low, 0, other);
      SplitPair(movz, movk);
      HalvesJoin(high, low);
    }
  }

  lemma HalvesJoin(high: u16, low: u16)
    ensures Or(high * 0x1_0000, low) == high * 0x1_0000 + low
  {
    Powers();
    Pow2Sum(12, 4);
    OrDisjoint(high, low, 16);
  }

  // ---------------------------------------------------------------- adrp and add

  /** The fields of an adrp word do not overlap. */
  lemma AdrpWordIs(xd: byte, v: nat, neg: bool)
    requires v < 0x10_0000 && xd < 0x20
    ensures AdrpWord(xd, v, neg) == 0x9000_0000 + v % 4 * 0x2000_0000 + (if neg then 0x80_0000 else 0) + v / 4 * 0x20 + xd
  {
    hide Or, Pow2;
    Powers();
    var low := v % 4;
    assert Or(4, low) == 4 + low by {
      SmallOr(low);
    }
    OrParts(4, 0x1000_0000, low, 0, 29);
    OrZero(0x1000_0000);
    var upper := (4 + low) * 0x40 + 0x20;
    OrDisjoint(upper, v / 4 * 0x20, 23);
    OrDisjoint(upper * 0x4_0000 + v / 4, xd, 5);
    var body := v / 4 * 0x20 + xd;
    var bit := if neg then 1 else 0;
    OrParts(upper, body, bit, 0, 23);
    OrZero(body);
    EvenOr(upper / 2, bit);
  }

  lemma SmallOr(low: nat)
    requires low < 4
    ensures Or(4, low) == 4 + low
  {
    assert Pow2(2) == 4;
    OrDisjoint(1, low, 2);
  }

  lemma EvenOr(q: nat, bit: nat)
    requires bit < 2
    ensures Or(2 * q, bit) == 2 * q + bit
  {
    assert Pow2(1) == 2;
    OrDisjoint(q, bit, 1);
  }

  lemma AdrpFields(xd: byte, v: nat, neg: bool)
    requires v < 0x10_0000 && xd < 0x20
    ensures var ins := AdrpWord(xd, v, neg);
      && AdrpOpcode(ins) == ADRP_ID && ins % 0x20 == xd && AdrpPages(ins) == v && AdrpSign(ins) == neg
  {
    hide AdrpWord;
    AdrpWordIs(xd, v, neg);
    var upper := 0x120 + v % 4 * 0x40 + (if neg then 1 else 0);
    SplitAdrp(upper, v / 4, xd);
    UpperFields(v % 4, if neg then 1 else 0);
  }

  lemma SplitAdrp(upper: nat, q: nat, d: nat)
    requires q < 0x4_0000 && d < 0x20
    ensures var w := upper * 0x80_0000 + q * 0x20 + d;
      w / 0x80_0000 == upper && w / 0x20 == upper * 0x4_0000 + q && w % 0x20 == d && w / 0x2000_0000 == upper / 0x40
  {
    var w, a := upper * 0x80_0000 + q * 0x20 + d, upper * 0x4_0000 + q;
    DivMod(a, 0x20, d);
    DivMod(upper, 0x4_0000, q);
    assert w == a * 0x20 + d && w / 0x80_0000 == w / 0x20 / 0x4_0000;
    NestedShifts(w);
  }

  lemma UpperFields(low: nat, bit: nat)
    requires low < 4 && bit < 2
    ensures var x := 0x120 + low * 0x40 + bit;
      x / 0x100 == 1 && x % 0x40 == 0x20 + bit && x / 0x40 == 4 + low && x % 2 == bit
  {
  }

  function Page(v: int): int { v / 0x1000 }

  /** The targets the pair is right for: not negative and not on a page below that of
      pc, or negative and less than 2^20 pages below it. */
  predicate Reached(target: long, pc: u32) {
    if target < 0 then Page(target) - Page(pc) > -0x10_0000 else Page(target) >= Page(pc)
  }

  lemma PageFieldIs(target: long, pc: u32)
    ensures PageField(target, pc) == (Page(target) - Page(pc)) % 0x10_0000
  {
    if target < 0 {
      assert Unsigned(target) / 0x1000 == Page(target) + 0x10_0000_0000_0000;
      AddMultiple(Page(target) - Page(pc), 0x1_0000_0000, 0x10_0000);
    }
  }

  lemma AddMultiple(a: int, k: int, m: nat)
    requires m > 0
    ensures (a + k * m) % m == a % m
  {
    var q, r := a / m, a % m;
    var q', r' := (a + k * m) / m, (a + k * m) % m;
    assert (q + k - q') * m == r' - r;
    MultipleInside(q + k - q', m, r' - r);
  }

  /** The page offset the decoder computes is the true one exactly in reach. */
  lemma OffsetInReach(target: long, pc: u32)
    requires Abs(target) <= 0xFFFF_F000
    ensures AdrpOffset(PageField(target, pc), target < 0) == (Page(target) - Page(pc)) * 0x1000 <==> Reached(target, pc)
  {
    PageFieldIs(target, pc);
    hide PageField;
    var d := Page(target) - Page(pc);
    assert -0x20_0000 < d < 0x10_0000;
    assert d % 0x10_0000 == if d >= 0 then d else if d >= -0x10_0000 then d + 0x10_0000 else d + 0x20_0000;
  }

  lemma AdrpDecodes(xd: byte, target: long, pc: u32)
    requires xd < 0x20
    ensures DecodeAdrp(GetBytes(AdrpWord(xd, PageField(target, pc), target < 0)), xd, pc)
      == Ok(AdrpOffset(PageField(target, pc), target < 0) + Page(pc) * 0x1000)
  {
    hide AdrpWord, GetBytes, ToUInt32, PageField, AdrpOffset, AdrpPages, AdrpSign, AdrpOpcode;
    AdrpFields(xd, PageField(target, pc), target < 0);
    WordRoundTrip(AdrpWord(xd, PageField(target, pc), target < 0));
  }

  /** The upper 10 digits of an add word, with what runs into them from an immediate of
      more than 12 digits. */
  function AddUpper(imm: u16, sh: nat): nat { Or(2 * ADD_IMM_ID + sh, imm / 0x1000) }

  lemma AddWordIs(xd: byte, xn: byte, imm: u16, sh: nat)
    requires sh < 2 && xd < 0x20 && xn < 0x20
    ensures AddWord(xd, xn, imm, sh) == AddUpper(imm, sh) * 0x40_0000 + imm % 0x1000 * 0x400 + xn * 0x20 + xd
  {
    hide Or, Pow2;
    Powers();
    OrDisjoint(ADD_IMM_ID, sh * 0x40_0000, 23);
    var upper := 2 * ADD_IMM_ID + sh;
    OrParts(upper, 0, imm / 0x1000, imm % 0x1000 * 0x400, 22);
    OrZero(imm % 0x1000 * 0x400);
    var top := AddUpper(imm, sh);
    OrDisjoint(top * 0x1000 + imm % 0x1000, xn * 0x20, 10);
    OrDisjoint((top * 0x1000 + imm % 0x1000) * 0x20 + xn, xd, 5);
  }

  lemma AddFields(xd: byte, xn: byte, imm: u16, sh: nat)
    requires sh < 2 && xd < 0x20 && xn < 0x20
    ensures var ins := AddWord(xd, xn, imm, sh);
      && ins / 0x40_0000 == AddUpper(imm, sh) && ins / 0x400 % 0x1000 == imm % 0x1000 && ins / 0x20 % 0x20 == xn && ins % 0x20 == xd
  {
    hide AddWord, AddUpper;
    AddWordIs(xd, xn, imm, sh);
    SplitFields(AddUpper(imm, sh), imm % 0x1000, xn, xd);
  }

  lemma SplitFields(top: nat, mid: nat, n: nat, d: nat)
    requires mid < 0x1000 && n < 0x20 && d < 0x20
    ensures var w := top * 0x40_0000 + mid * 0x400 + n * 0x20 + d;
      w / 0x40_0000 == top && w / 0x400 % 0x1000 == mid && w / 0x20 % 0x20 == n && w % 0x20 == d
  {
    var w, a := top * 0x40_0000 + mid * 0x400 + n * 0x20 + d, top * 0x1000 + mid;
    DivMod(a * 0x20 + n, 0x20, d);
    DivMod(a, 0x20, n);
    DivMod(top, 0x1000, mid);
    assert w == (a * 0x20 + n) * 0x20 + d;
    NestedFields(w);
  }

  lemma NestedFields(w: nat)
    ensures w / 0x400 == w / 0x20 / 0x20 && w / 0x40_0000 == w / 0x400 / 0x1000
  {
  }

  lemma AddUpperSmall(imm: u16, sh: nat)
    requires sh < 2 && imm <= 0xFFF
    ensures AddUpper(imm, sh) == 2 * ADD_IMM_ID + sh
  {
    OrZero(2 * ADD_IMM_ID + sh);
  }

  lemma AddUpperShift(imm: u16)
    ensures AddUpper(imm, 1) % 2 == 1
  {
    hide Or;
    var high := imm / 0x1000;
    OrDigits(2 * ADD_IMM_ID + 1, high);
    OddSum(Or((2 * ADD_IMM_ID + 1) / 2, high / 2));
  }

  lemma OddSum(h: nat)
    ensures (2 * h + 1) % 2 == 1
  {
  }

  lemma AddDecodes(xd: byte, xn: byte, imm: u16, sh: nat, v: int)
    requires sh < 2 && xd < 0x20 && xn < 0x20
    ensures var upper := AddUpper(imm, sh);
      DecodeAddImm(GetBytes(AddWord(xd, xn, imm, sh)), xd, xn, v) ==
        if upper / 2 != ADD_IMM_ID then Err(Rejected) else Ok(AddLong(if upper % 2 == 0 then imm % 0x1000 else imm % 0x1000 * 0x1000, v))
  {
    hide AddWord, AddUpper, GetBytes, ToUInt32, AddLong;
    AddFields(xd, xn, imm, sh);
    WordRoundTrip(AddWord(xd, xn, imm, sh));
    var ins := AddWord(xd, xn, imm, sh);
    assert ins / 0x80_0000 == ins / 0x40_0000 / 2;
  }

  lemma AddLongInjective(a: nat, b: nat, v: long)
    requires a < 0x1000_0000 && b < 0x1000_0000
    ensures AddLong(a, v) == AddLong(b, v) <==> a == b
  {
  }

  /** add (immediate) comes back exactly for immediates of 12 bits; the encoder takes 16
      and lets the others run into the shift and the opcode. */
  lemma AddImmRoundTrip(xd: byte, xn: byte, imm: u16, lsl: int, v: long)
    requires xd <= 0x1F && xn <= 0x1F && (lsl == 0 || lsl == 12)
    ensures EncodeAddImm(xd, xn, imm, lsl).Ok?
    ensures var sum := AddLong(if lsl == 0 then imm else imm * 0x1000, v);
      DecodeAddImm(EncodeAddImm(xd, xn, imm, lsl).value, xd, xn, v) == Ok(sum) <==> imm <= 0xFFF
  {
    hide AddWord, AddUpper, GetBytes, AddLong, DecodeAddImm;
    var sh := lsl / 12;
    AddDecodes(xd, xn, imm, sh, v);
    var low, wanted := imm % 0x1000, if lsl == 0 then imm else imm * 0x1000;
    AddLongInjective(low, wanted, v);
    AddLongInjective(low * 0x1000, wanted, v);
    if imm <= 0xFFF {
      AddUpperSmall(imm, sh);
    } else if lsl == 12 {
      AddUpperShift(imm);
    }
  }

  /** The least immediate that is lost: its only digit lands in the shift, and 0 comes
      back. */
  lemma WideImmediateIsLost()
    ensures EncodeAddImm(0, 0, 0x1000, 0).Ok?
    ensures DecodeAddImm(EncodeAddImm(0, 0, 0x1000, 0).value, 0, 0, 0) == Ok(0)
  {
    assert Or(2 * ADD_IMM_ID, 1) == 2 * ADD_IMM_ID + 1 by {
      EvenOr(ADD_IMM_ID, 1);
    }
    hide Or, AddWord, GetBytes, DecodeAddImm;
    AddDecodes(0, 0, 0x1000, 0, 0);
  }

  /** What the two encoders write for a pair. */
  function PairBytes(pc: u32, xd: byte, target: long): seq<byte> {
    GetBytes(AdrpWord(xd, PageField(target, pc), target < 0)) + GetBytes(AddWord(xd, xd, target % 0x1000, 0))
  }

  function DecodedPage(pc: u32, target: long): int {
    AdrpOffset(PageField(target, pc), target < 0) + Page(pc) * 0x1000
  }

  lemma PairEncodes(pc: u32, xd: byte, target: long)
    ensures EncodeAdrpAdd(pc, xd, target) ==
      if target == -0x8000_0000_0000_0000 then Err(Overflow)
      else if Abs(target) > 0xFFFF_F000 || xd > 0x1F then Err(Rejected)
      else Ok(PairBytes(pc, xd, target))
  {
    hide AdrpWord, AddWord, GetBytes, PageField;
  }

  lemma PairDecodes(pc: u32, xd: byte, target: long)
    requires xd <= 0x1F
    ensures DecodeAdrpAdd(PairBytes(pc, xd, target), pc, xd) == Ok(AddLong(target % 0x1000, DecodedPage(pc, target)))
  {
    hide AdrpWord, AddWord, AddUpper, GetBytes, DecodeAdrp, DecodeAddImm, Take4, Skip4, PageField, AdrpOffset, AddLong;
    AdrpDecodes(xd, target, pc);
    AddDecodes(xd, xd, target % 0x1000, 0, DecodedPage(pc, target));
    AddUpperSmall(target % 0x1000, 0);
    SplitPair(GetBytes(AdrpWord(xd, PageField(target, pc), target < 0)), GetBytes(AddWord(xd, xd, target % 0x1000, 0)));
  }

  /** The decoder gives the target back exactly for the targets in reach. */
  lemma AdrpAddRoundTrip(pc: u32, xd: byte, target: long)
    ensures EncodeAdrpAdd(pc, xd, target).Ok? <==> xd <= 0x1F && Abs(target) <= 0xFFFF_F000
    ensures EncodeAdrpAdd(pc, xd, target).Ok? ==>
      (DecodeAdrpAdd(EncodeAdrpAdd(pc, xd, target).value, pc, xd) == Ok(target) <==> Reached(target, pc))
  {
    hide EncodeAdrpAdd, DecodeAdrpAdd, PairBytes, AddLong, PageField, AdrpOffset, Reached;
    PairEncodes(pc, xd, target);
    if xd <= 0x1F && Abs(target) <= 0xFFFF_F000 {
      PairDecodes(pc, xd, target);
      OffsetInReach(target, pc);
      OffsetBounds(PageField(target, pc), target < 0);
      PageAndRest(target, DecodedPage(pc, target));
    }
  }

  lemma PageAndRest(target: long, page: int)
    requires -0x4_0000_0000 < page < 0x4_0000_0000
    ensures AddLong(target % 0x1000, page) == target <==> page == Page(target) * 0x1000
  {
  }

  lemma OffsetBounds(pages: nat, neg: bool)
    requires pages < 0x10_0000
    ensures -0x1_0000_0000 <= AdrpOffset(pages, neg) < 0x1_0000_0000
  {
  }

  /** The simplest target that is lost: one page back. */
  lemma BackwardPageIsLost()
    ensures EncodeAdrpAdd(0x2000, 0, 0x1000).Ok?
    ensures DecodeAdrpAdd(EncodeAdrpAdd(0x2000, 0, 0x1000).value, 0x2000, 0) != Ok(0x1000)
  {
    assert !Reached(0x1000, 0x2000);
    hide EncodeAdrpAdd, DecodeAdrpAdd, Reached;
    AdrpAddRoundTrip(0x2000, 0, 0x1000);
  }

  lemma AdrpPagesRun(xd: byte, v: nat, neg: bool)
    requires v < 0x10_0000 && xd < 0x20
    ensures var ins := AdrpWord(xd, v, neg);
      ins / 0x20 % 0x8_0000 * 4 + ins / 0x2000_0000 % 4 == v + (if neg then 0x10_0000 else 0)
  {
    hide AdrpWord;
    AdrpWordIs(xd, v, neg);
    var bit := if neg then 1 else 0;
    var upper := 0x120 + v % 4 * 0x40 + bit;
    SplitAdrp(upper, v / 4, xd);
    UpperFields(v % 4, bit);
    SignBit(upper, v / 4, bit);
  }

  lemma SignBit(upper: nat, q: nat, bit: nat)
    requires upper % 2 == bit && q < 0x4_0000
    ensures (upper * 0x4_0000 + q) % 0x8_0000 == bit * 0x4_0000 + q
  {
    assert upper * 0x4_0000 + q == upper / 2 * 0x8_0000 + (bit * 0x4_0000 + q);
  }

  // ---------------------------------------------------------------- branches

  lemma BranchWordIs(id: u32, target: u32)
    requires (id == B_ID || id == BL_ID) && target <= 0x7FF_FFFC && target % 4 == 0
    ensures BranchWord(id, target) == id + target / 4
  {
    BranchFields(id, target);
    hide Or;
    assert target / 16 * 4 + target % 16 / 4 == target / 4;
  }

  lemma SplitBranch(opcode: nat, words: nat)
    requires words < 0x400_0000
    ensures (opcode * 0x400_0000 + words) / 0x400_0000 == opcode && (opcode * 0x400_0000 + words) % 0x400_0000 == words
  {
    DivMod(opcode, 0x400_0000, words);
  }

  lemma BranchEncodes(id: u32, target: u32)
    requires id == B_ID || id == BL_ID
    ensures EncodeBranch(id, target) ==
            if target % 4 == 0 && target < 0x800_0000 then Ok(GetBytes(BranchWord(id, target))) else Err(Rejected)
    ensures target % 4 == 0 ==> (target < 0x800_0000 <==> target <= 0x7FF_FFFC)
  {
    hide BranchWord, GetBytes;
  }

  lemma BranchDecodes(id: u32, target: u32)
    requires (id == B_ID || id == BL_ID) && target <= 0x7FF_FFFC && target % 4 == 0
    ensures BranchWord(id, target) / 0x400_0000 == id / 0x400_0000 && BranchWord(id, target) % 0x400_0000 == target / 4
  {
    hide BranchWord;
    BranchWordIs(id, target);
    var opcode, words := id / 0x400_0000, target / 4;
    assert id == opcode * 0x400_0000 && target == words * 4;
    SplitBranch(opcode, words);
  }
}
