/** Utils.cs against a processor: the encoders write the instructions they are named for,
    and the decoders read words as a processor would. */
module A64Execution {
  import opened A64
  import opened Arithmetic
  import opened Wrappers
  import opened Options
  import P = Processor
  import A64Masks

  // ---------------------------------------------------------------- bits of words

  lemma WordOfBytes(w: u32)
    ensures P.Word(GetBytes(w)) == w
  {
    WordRoundTrip(w);
  }

  lemma BytesAreRead(b: seq<byte>)
    requires |b| >= 4
    ensures ToUInt32(b) == Ok(P.Word(b))
  {
  }

  lemma Bit22(w: nat)
    ensures w / 0x20_0000 % 4 == w / 0x40_0000 % 2 * 2 + w / 0x20_0000 % 2
  {
    var q := w / 0x20_0000;
    assert w / 0x40_0000 == q / 2;
    assert q % 4 == q / 2 % 2 * 2 + q % 2;
  }

  lemma TopTen(w: nat)
    ensures w / 0x40_0000 == w / 0x80_0000 * 2 + w / 0x40_0000 % 2
  {
    assert w / 0x80_0000 == w / 0x40_0000 / 2;
  }

  /** Bit 23 is the highest of the 19 bits above the register. */
  lemma Bit23(w: nat)
    ensures w / 0x20 % 0x8_0000 == w / 0x80_0000 % 2 * 0x4_0000 + w / 0x20 % 0x4_0000
  {
    var q := w / 0x20;
    var h, r := q / 0x4_0000, q % 0x4_0000;
    assert w / 0x80_0000 == h;
    assert q == h / 2 * 0x8_0000 + (h % 2 * 0x4_0000 + r);
  }

  lemma OpcodeBits(top: nat)
    requires top < 0x200
    ensures top / 0x100 * 0x100 + top % 0x40 / 2 * 2 == ADRP_ID <==> top / 0x100 == 1 && top / 2 % 0x20 == 0x10
  {
  }

  // ---------------------------------------------------------------- encoders

  lemma MoveDisassembles(wd: byte, imm: u16, hw: nat)
    requires wd < 0x20 && hw < 4
    ensures P.Disassembled(MoveWord(MOVZ_ID, wd, imm, hw)) == if hw < 2 then P.MoveZero(wd, hw, imm) else P.Other
    ensures P.Disassembled(MoveWord(MOVK_ID, wd, imm, hw)) == if hw < 2 then P.MoveKeep(wd, hw, imm) else P.Other
  {
    hide MoveWord;
    MoveFields(MOVZ_ID, wd, imm, hw);
    MoveFields(MOVK_ID, wd, imm, hw);
    Bit22(MoveWord(MOVZ_ID, wd, imm, hw));
    Bit22(MoveWord(MOVK_ID, wd, imm, hw));
  }

  /** movz and movk write the instructions of these names, for the two halves of a
      register of 32 bits; for the other two they write a word that is none. */
  lemma MovesEncode(wd: byte, imm: u16, lsl: int)
    ensures EncodeMovz(wd, imm, lsl).Ok? == EncodeMovk(wd, imm, lsl).Ok? == (wd < 32 && (lsl == 0 || lsl == 16 || lsl == 32 || lsl == 48))
    ensures EncodeMovz(wd, imm, lsl).Ok? ==>
              && P.Disassembled(P.Word(EncodeMovz(wd, imm, lsl).value)) == (if lsl <= 16 then P.MoveZero(wd, lsl / 16, imm) else P.Other)
              && P.Disassembled(P.Word(EncodeMovk(wd, imm, lsl).value)) == (if lsl <= 16 then P.MoveKeep(wd, lsl / 16, imm) else P.Other)
  {
    hide MoveWord, GetBytes, P.Disassembled, P.Word;
    if wd < 32 && (lsl == 0 || lsl == 16 || lsl == 32 || lsl == 48) {
      MoveDisassembles(wd, imm, lsl / 16);
      WordOfBytes(MoveWord(MOVZ_ID, wd, imm, lsl / 16));
      WordOfBytes(MoveWord(MOVK_ID, wd, imm, lsl / 16));
    }
  }

  /** adrp writes the page difference modulo 2^20, below 0 for a negative target. */
  lemma AdrpDisassembles(xd: byte, v: nat, neg: bool)
    requires xd < 0x20 && v < 0x10_0000
    ensures P.Disassembled(AdrpWord(xd, v, neg)) == P.PageAddress(xd, if neg then v - 0x10_0000 else v)
  {
    hide AdrpWord;
    AdrpFields(xd, v, neg);
    AdrpPagesRun(xd, v, neg);
    OpcodeBits(AdrpWord(xd, v, neg) / 0x80_0000);
  }

  lemma AddDisassembles(xd: byte, xn: byte, imm: u16, sh: nat)
    requires xd < 0x20 && xn < 0x20 && imm <= 0xFFF && sh < 2
    ensures P.Disassembled(AddWord(xd, xn, imm, sh)) == P.AddImmediate(xd, xn, if sh == 0 then imm else imm * 0x1000)
  {
    hide AddWord, AddUpper;
    AddFields(xd, xn, imm, sh);
    AddUpperSmall(imm, sh);
    TopTen(AddWord(xd, xn, imm, sh));
  }

  lemma BranchDisassembles(target: u32)
    requires target <= 0x7FF_FFFC && target % 4 == 0
    ensures P.Disassembled(BranchWord(B_ID, target)) == P.Branch(target)
    ensures P.Disassembled(BranchWord(BL_ID, target)) == P.BranchLink(target)
  {
    hide BranchWord;
    BranchDecodes(B_ID, target);
    BranchDecodes(BL_ID, target);
    TopSix(BranchWord(B_ID, target));
    TopSix(BranchWord(BL_ID, target));
  }

  lemma TopSix(w: nat)
    ensures w / 0x80_0000 / 8 == w / 0x400_0000
  {
  }

  // ---------------------------------------------------------------- running what was encoded

  lemma PairOfBytes(a: seq<byte>, b: seq<byte>, cpu: P.Cpu)
    requires |a| == 4 && |b| == 4 && cpu.Valid()
    ensures P.ExecutePair(a + b, cpu) == match P.Execute(P.Word(a), cpu) case Some(after) => P.Execute(P.Word(b), after) case None => None
  {
    assert (a + b)[..4] == a && (a + b)[4..] == b;
  }

  lemma TwoNext(pc: P.u64)
    ensures P.Wrap(P.Wrap(pc + 4) + 4) == P.Wrap(pc + 8)
  {
  }

  /** The pair leaves the value in its register, whatever was there, and touches nothing
      else; the zero register stays zero. */
  lemma MovzMovkRuns(value: u32, wd: byte, cpu: P.Cpu)
    requires wd < 0x20 && cpu.Valid()
    ensures EncodeMovzMovk(value, wd).Ok? && |EncodeMovzMovk(value, wd).value| == 8
    ensures P.ExecutePair(EncodeMovzMovk(value, wd).value, cpu) == Some(cpu.Set(wd, value).(pc := P.Wrap(cpu.pc + 8)))
  {
    hide MoveWord, GetBytes, P.Disassembled, P.Word, P.Wrap;
    var high, low := value / 0x1_0000, value % 0x1_0000;
    var movz, movk := MoveWord(MOVZ_ID, wd, high, 1), MoveWord(MOVK_ID, wd, low, 0);
    assert EncodeMovzMovk(value, wd) == Ok(GetBytes(movz) + GetBytes(movk));
    hide EncodeMovzMovk;
    MoveDisassembles(wd, high, 1);
    MoveDisassembles(wd, low, 0);
    WordOfBytes(movz);
    WordOfBytes(movk);
    PairOfBytes(GetBytes(movz), GetBytes(movk), cpu);
    TwoNext(cpu.pc);
    if wd < 31 {
      assert cpu.x[wd := high * 0x1_0000][wd := value] == cpu.x[wd := value];
    }
  }

  function Pages(target: long, pc: u32): int { if target < 0 then PageField(target, pc) - 0x10_0000 else PageField(target, pc) }

  /** What the pair leaves in its register. */
  function PairResult(target: long, pc: u32): P.u64 {
    P.Wrap(P.Wrap(Page(pc) * 0x1000 + Pages(target, pc) * 0x1000) + target % 0x1000)
  }

  lemma AdrpExecutes(target: long, xd: byte, cpu: P.Cpu)
    requires xd < 0x20 && cpu.Valid() && cpu.pc < 0x1_0000_0000
    ensures P.Execute(AdrpWord(xd, PageField(target, cpu.pc), target < 0), cpu)
            == Some(cpu.Set(xd, P.Wrap(Page(cpu.pc) * 0x1000 + Pages(target, cpu.pc) * 0x1000)).Next())
  {
    AdrpDisassembles(xd, PageField(target, cpu.pc), target < 0);
    hide AdrpWord, P.Disassembled, P.Wrap, PageField;
  }

  lemma AddExecutes(xd: byte, xn: byte, imm: u16, sh: nat, cpu: P.Cpu)
    requires xd < 0x20 && xn < 0x20 && imm <= 0xFFF && sh < 2 && cpu.Valid()
    ensures P.Execute(AddWord(xd, xn, imm, sh), cpu)
            == Some(cpu.SetSp(xd, P.Wrap(cpu.GetSp(xn) + (if sh == 0 then imm else imm * 0x1000))).Next())
  {
    AddDisassembles(xd, xn, imm, sh);
    hide AddWord, P.Disassembled, P.Wrap;
  }

  lemma PairExecutes(target: long, xd: byte, cpu: P.Cpu)
    requires xd < 0x20 && Abs(target) <= 0xFFFF_F000 && cpu.Valid() && cpu.pc < 0x1_0000_0000
    ensures EncodeAdrpAdd(cpu.pc, xd, target).Ok? && |EncodeAdrpAdd(cpu.pc, xd, target).value| == 8
    ensures P.ExecutePair(EncodeAdrpAdd(cpu.pc, xd, target).value, cpu) == Some(
              if xd < 31 then cpu.(x := cpu.x[xd := PairResult(target, cpu.pc)], pc := P.Wrap(cpu.pc + 8))
              else cpu.(sp := P.Wrap(cpu.sp + target % 0x1000), pc := P.Wrap(cpu.pc + 8)))
  {
    hide AdrpWord, AddWord, GetBytes, PageField, Page, EncodeAdrpAdd, P.Execute, P.Word, P.Wrap;
    var adrp, add := AdrpWord(xd, PageField(target, cpu.pc), target < 0), AddWord(xd, xd, target % 0x1000, 0);
    PairEncodes(cpu.pc, xd, target);
    WordOfBytes(adrp);
    WordOfBytes(add);
    PairOfBytes(GetBytes(adrp), GetBytes(add), cpu);
    hide P.ExecutePair;
    AdrpExecutes(target, xd, cpu);
    var page := P.Wrap(Page(cpu.pc) * 0x1000 + Pages(target, cpu.pc) * 0x1000);
    AddExecutes(xd, xd, target % 0x1000, 0, cpu.Set(xd, page).Next());
    TwoNext(cpu.pc);
    if xd < 31 {
      assert cpu.x[xd := page][xd := PairResult(target, cpu.pc)] == cpu.x[xd := PairResult(target, cpu.pc)];
    }
  }

  lemma WrapsEqual(a: int, b: int)
    requires -0x8000_0000_0000_0000 <= a < 0x8000_0000_0000_0000 && -0x8000_0000_0000_0000 <= b < 0x8000_0000_0000_0000
    ensures P.Wrap(a) == P.Wrap(b) <==> a == b
  {
  }

  lemma WrapSum(a: int, b: int)
    ensures P.Wrap(P.Wrap(a) + b) == P.Wrap(a + b)
  {
  }

  /** A processor has the target in the register exactly if it is in reach, or negative and
      exactly 2^20 pages below; nothing else changes.  With register 31 the target is lost
      and the stack pointer moves by its last 12 bits. */
  lemma AdrpAddRuns(target: long, xd: byte, cpu: P.Cpu)
    requires xd < 0x20 && Abs(target) <= 0xFFFF_F000 && cpu.Valid() && cpu.pc < 0x1_0000_0000
    ensures EncodeAdrpAdd(cpu.pc, xd, target).Ok? && |EncodeAdrpAdd(cpu.pc, xd, target).value| == 8
    ensures xd < 31 ==>
              (P.ExecutePair(EncodeAdrpAdd(cpu.pc, xd, target).value, cpu) == Some(cpu.Set(xd, P.Wrap(target)).(pc := P.Wrap(cpu.pc + 8)))
               <==> Reached(target, cpu.pc) || (target < 0 && Page(target) - Page(cpu.pc) == -0x10_0000))
    ensures xd == 31 ==>
              P.ExecutePair(EncodeAdrpAdd(cpu.pc, xd, target).value, cpu) == Some(cpu.(sp := P.Wrap(cpu.sp + target % 0x1000), pc := P.Wrap(cpu.pc + 8)))
  {
    PairExecutes(target, xd, cpu);
    PairReaches(target, cpu.pc);
    PagesAre(target, cpu.pc);
    hide Pages, PairResult, EncodeAdrpAdd, P.ExecutePair, P.Wrap, Reached;
    if xd < 31 {
      assert cpu.x[xd := PairResult(target, cpu.pc)] == cpu.x[xd := P.Wrap(target)] <==> PairResult(target, cpu.pc) == P.Wrap(target) by {
        assert cpu.x[xd := PairResult(target, cpu.pc)][xd] == PairResult(target, cpu.pc);
        assert cpu.x[xd := P.Wrap(target)][xd] == P.Wrap(target);
      }
    }
  }

  lemma DifferenceDigits(d: int)
    requires -0x20_0000 < d < 0x10_0000
    ensures d % 0x10_0000 == if d >= 0 then d else if d >= -0x10_0000 then d + 0x10_0000 else d + 0x20_0000
  {
  }

  /** The page count of the word is the true one. */
  lemma PagesAre(target: long, pc: u32)
    requires Abs(target) <= 0xFFFF_F000
    ensures Pages(target, pc) == Page(target) - Page(pc) <==> Reached(target, pc) || (target < 0 && Page(target) - Page(pc) == -0x10_0000)
    ensures -0x10_0000 <= Pages(target, pc) < 0x10_0000
  {
    PageFieldIs(target, pc);
    DifferenceDigits(Page(target) - Page(pc));
    hide PageField;
  }

  lemma PairReaches(target: long, pc: u32)
    requires Abs(target) <= 0xFFFF_F000
    ensures PairResult(target, pc) == P.Wrap(target) <==> Pages(target, pc) == Page(target) - Page(pc)
  {
    PagesAre(target, pc);
    var pages := Pages(target, pc);
    WrapSum(Page(pc) * 0x1000 + pages * 0x1000, target % 0x1000);
    WrapsEqual(Page(pc) * 0x1000 + pages * 0x1000 + target % 0x1000, target);
    hide P.Wrap, Pages, Reached;
    assert target == Page(target) * 0x1000 + target % 0x1000;
  }

  /** add with an immediate of 12 bits adds it, shifted or not. */
  lemma AddRuns(xd: byte, xn: byte, imm: u16, lsl: int, cpu: P.Cpu)
    requires xd < 0x20 && xn < 0x20 && imm <= 0xFFF && (lsl == 0 || lsl == 12) && cpu.Valid()
    ensures EncodeAddImm(xd, xn, imm, lsl).Ok?
    ensures P.Execute(P.Word(EncodeAddImm(xd, xn, imm, lsl).value), cpu)
            == Some(cpu.SetSp(xd, P.Wrap(cpu.GetSp(xn) + (if lsl == 0 then imm else imm * 0x1000))).Next())
  {
    hide AddWord, GetBytes, P.Execute, P.Word, P.Wrap;
    AddExecutes(xd, xn, imm, lsl / 12, cpu);
    WordOfBytes(AddWord(xd, xn, imm, lsl / 12));
  }

  lemma BranchExecutes(w: u32, offset: int, cpu: P.Cpu)
    requires cpu.Valid()
    ensures P.Disassembled(w) == P.Branch(offset) ==> P.Execute(w, cpu) == Some(cpu.(pc := P.Wrap(cpu.pc + offset)))
    ensures P.Disassembled(w) == P.BranchLink(offset) ==>
              P.Execute(w, cpu) == Some(cpu.(pc := P.Wrap(cpu.pc + offset), x := cpu.x[30 := P.Wrap(cpu.pc + 4)]))
  {
    hide P.Disassembled, P.Wrap;
  }

  /** b jumps by the displacement and leaves every register alone; bl does the same and
      leaves the address of the next instruction in register 30.  Accepted are the
      multiples of 4 below 2^27. */
  lemma BranchesRun(target: u32, cpu: P.Cpu)
    requires cpu.Valid()
    ensures EncodeB(target).Ok? == EncodeBl(target).Ok? == (target % 4 == 0 && target < 0x800_0000)
    ensures EncodeB(target).Ok? ==>
              && P.Execute(P.Word(EncodeB(target).value), cpu) == Some(cpu.(pc := P.Wrap(cpu.pc + target)))
              && P.Execute(P.Word(EncodeBl(target).value), cpu) == Some(cpu.(pc := P.Wrap(cpu.pc + target), x := cpu.x[30 := P.Wrap(cpu.pc + 4)]))
  {
    BranchEncodes(B_ID, target);
    BranchEncodes(BL_ID, target);
    hide EncodeBranch, BranchWord, GetBytes, P.Execute, P.Disassembled, P.Word, P.Wrap;
    if target % 4 == 0 && target <= 0x7FF_FFFC {
      BranchDisassembles(target);
      BranchExecutes(BranchWord(B_ID, target), target, cpu);
      BranchExecutes(BranchWord(BL_ID, target), target, cpu);
      WordOfBytes(BranchWord(B_ID, target));
      WordOfBytes(BranchWord(BL_ID, target));
    }
  }

  // ---------------------------------------------------------------- decoders

  /** The movk decoder accepts exactly the movk words of its register, with their value. */
  lemma MovkMeaning(b: seq<byte>, wd: byte)
    requires |b| >= 4
    ensures DecodeMovk(b, wd) == match P.Disassembled(P.Word(b))
                                 case MoveKeep(rd, half, imm) => if rd == wd then Ok(if half == 0 then imm else imm * 0x1_0000) else Err(Rejected)
                                 case _ => Err(Rejected)
  {
    BytesAreRead(b);
    Bit22(P.Word(b));
    hide P.Word, ToUInt32;
  }

  /** The add decoder accepts exactly the additions of its registers, and adds. */
  lemma AddMeaning(b: seq<byte>, xd: byte, xn: byte, xnValue: long)
    requires |b| >= 4
    ensures DecodeAddImm(b, xd, xn, xnValue) == match P.Disassembled(P.Word(b))
                                                case AddImmediate(rd, rn, imm) => if rd == xd && rn == xn then Ok(AddLong(imm, xnValue)) else Err(Rejected)
                                                case _ => Err(Rejected)
  {
    BytesAreRead(b);
    hide P.Word, ToUInt32, AddLong;
  }

  /** AddLong is the signed reading of the 64-bit sum. */
  lemma AddLongWraps(imm: nat, v: long)
    requires imm < 0x100_0000
    ensures -0x8000_0000_0000_0000 <= AddLong(imm, v) < 0x8000_0000_0000_0000 && P.Wrap(AddLong(imm, v)) == P.Wrap(imm + v)
  {
  }

  /** The adrp decoder accepts exactly the adrp words of its register; the address is the
      processor's except for the farthest page below, which it takes for none at all. */
  lemma AdrpMeaning(b: seq<byte>, xd: byte, pc: u32)
    requires |b| >= 4
    ensures match P.Disassembled(P.Word(b))
            case PageAddress(rd, pages) =>
              && (rd != xd ==> DecodeAdrp(b, xd, pc) == Err(Rejected))
              && (rd == xd ==> DecodeAdrp(b, xd, pc) == Ok(Page(pc) * 0x1000 + (if pages == -0x10_0000 then 0 else pages * 0x1000)))
            case _ => DecodeAdrp(b, xd, pc) == Err(Rejected)
  {
    var ins := P.Word(b);
    BytesAreRead(b);
    OpcodeBits(ins / 0x80_0000);
    Bit23(ins);
    hide P.Word, ToUInt32;
  }

  /** What a processor puts into the register, for the words that load a constant. */
  function Loaded(w: u32, wd: byte): Option<u32> {
    match P.Disassembled(w)
    case MoveZero(rd, half, imm) => if rd == wd then Some(if half == 0 then imm else imm * 0x1_0000) else None
    case OrImmediate(rd, rn, imm) => if rd == wd && rn == 31 && imm < 0x1_0000_0000 then Some(imm) else None
    case _ => None
  }

  /** An orr of the zero register into wd with an element of fewer than 32 bits. */
  predicate ShortMask(w: u32, wd: byte) {
    w / 0x40_0000 == 0xC8 && w % 0x20 == wd && w / 0x20 % 0x20 == 31 && 0x20 <= w / 0x400 % 0x40 < 0x3F
  }

  lemma LowFive(q: nat)
    ensures q % 0x20 == q % 0x40 % 32
  {
    var a, b := q / 0x40, q % 0x40;
    DivMod(2 * a + b / 32, 32, b % 32);
  }

  lemma ReservedIff(imms: nat)
    requires imms < 0x40
    ensures imms < 0x20 ==> (P.Reserved(imms) <==> imms == 31)
    ensures imms == 0x3F ==> P.Reserved(imms)
  {
  }

  /** The movz decoder gives what a processor loads, and refuses what loads nothing, for
      every word except an orr with a short mask: its decoder takes the size of the
      element for 32 whatever the word says. */
  lemma MovzMeaning(b: seq<byte>, wd: byte)
    requires |b| >= 4
    ensures DecodeMovz(b, wd) == AsResult(Loaded(P.Word(b), wd)) <==> !ShortMask(P.Word(b), wd)
  {
    var ins := P.Word(b);
    BytesAreRead(b);
    hide P.Word, ToUInt32;
    if ins / 0x40_0000 == ORR_ID {
      OrrMeaning(ins, wd);
    } else {
      Bit22(ins);
      TopTen(ins);
    }
  }

  /** The register fields are the ones wanted, the size and rotation as given. */
  predicate OrrFields(w: u32, wd: byte, imms: nat, immr: nat) {
    w / 0x40_0000 == 0xC8 && w % 0x20 == wd && w / 0x20 % 0x20 == 31 && w / 0x400 % 0x40 == imms && w / 0x1_0000 % 0x40 == immr
  }

  lemma OrrDecodes(w: u32, wd: byte, imms: nat, immr: nat)
    requires OrrFields(w, wd, imms, immr)
    ensures imms % 32 < 31 ==> DecodeOrr(w, wd, WZR) == Ok(BitMask(imms % 32, immr % 32))
    ensures imms % 32 == 31 ==> DecodeOrr(w, wd, WZR) == Err(Rejected)
    ensures DecodeMove(MOVZ_ID, w, wd) == Err(Rejected)
  {
    TopTen(w);
    LowFive(w / 0x400);
    LowFive(w / 0x1_0000);
    hide BitMask;
  }

  lemma OrrLoads(w: u32, wd: byte, imms: nat, immr: nat)
    requires OrrFields(w, wd, imms, immr)
    ensures Loaded(w, wd) == if P.Reserved(imms) then None else Some(P.BitMask(imms, immr, 32))
    ensures ShortMask(w, wd) <==> 0x20 <= imms < 0x3F
  {
    TopTen(w);
    MaskBelow(imms, immr);
    hide P.BitMask, P.Reserved;
  }

  lemma MaskBelow(imms: nat, immr: nat)
    ensures P.BitMask(imms, immr, 32) < 0x1_0000_0000
  {
    A64Masks.ProcessorDigit(imms, immr, 32, 0);
    A64Masks.Pow2Of32();
  }

  /** Words with this opcode for other registers: both refuse them. */
  lemma OtherRegisters(w: u32, wd: byte)
    requires w / 0x40_0000 == 0xC8 && (w % 0x20 != wd || w / 0x20 % 0x20 != 31)
    ensures DecodeOrr(w, wd, WZR) == Err(Rejected) && DecodeMove(MOVZ_ID, w, wd) == Err(Rejected)
    ensures Loaded(w, wd) == None && !ShortMask(w, wd)
  {
    TopTen(w);
    hide P.BitMask, P.Reserved, BitMask;
  }

  /** What a constant decoder answers, and what it should. */
  function MovzRead(w: u32, wd: byte): Result<u32> {
    var orr := DecodeOrr(w, wd, WZR);
    if orr.Ok? then Ok(orr.value % 0x1_0000_0000) else DecodeMove(MOVZ_ID, w, wd)
  }

  function AsResult(v: Option<u32>): Result<u32> {
    match v
    case Some(w) => Ok(w)
    case None => Err(Rejected)
  }

  lemma OrrMeaning(w: u32, wd: byte)
    requires w / 0x40_0000 == 0xC8
    ensures MovzRead(w, wd) == AsResult(Loaded(w, wd)) <==> !ShortMask(w, wd)
  {
    hide P.BitMask, BitMask, P.Reserved, DecodeOrr, DecodeMove, Loaded, ShortMask, OrrFields;
    if w % 0x20 != wd || w / 0x20 % 0x20 != 31 {
      OtherRegisters(w, wd);
    } else {
      FieldsOf(w, wd);
      OrrOf(w, wd, w / 0x400 % 0x40, w / 0x1_0000 % 0x40);
    }
  }

  lemma FieldsOf(w: u32, wd: byte)
    requires w / 0x40_0000 == 0xC8 && w % 0x20 == wd && w / 0x20 % 0x20 == 31
    ensures OrrFields(w, wd, w / 0x400 % 0x40, w / 0x1_0000 % 0x40)
  {
  }

  /** A size field of ones only: nothing is read, and nothing is loaded. */
  lemma OrrOfNothing(w: u32, wd: byte, imms: nat, immr: nat)
    requires OrrFields(w, wd, imms, immr) && (imms == 31 || imms == 63)
    ensures MovzRead(w, wd) == AsResult(Loaded(w, wd)) && !ShortMask(w, wd)
  {
    OrrDecodes(w, wd, imms, immr);
    OrrLoads(w, wd, imms, immr);
    ReservedIff(imms);
    hide P.BitMask, BitMask, P.Reserved, P.Disassembled, DecodeOrr, DecodeMove, Loaded, ShortMask, OrrFields;
  }

  lemma OrrOfMask(w: u32, wd: byte, imms: nat, immr: nat, s: nat, r: nat)
    requires OrrFields(w, wd, imms, immr) && imms < 0x40 && immr < 0x40 && s == imms % 32 < 31 && r == immr % 32
    ensures MovzRead(w, wd) == AsResult(Loaded(w, wd)) <==> !ShortMask(w, wd)
  {
    OrrDecodes(w, wd, imms, immr);
    OrrLoads(w, wd, imms, immr);
    MaskBelow(imms, immr);
    ReservedIff(imms);
    A64Masks.MasksAgreeIff(imms, immr);
    assert A64Masks.Decoded(s, r) == BitMask(s, r) % 0x1_0000_0000;
    var decoded, mask, reserved := BitMask(s, r), P.BitMask(imms, immr, 32), P.Reserved(imms);
    assert ShortMask(w, wd) <==> imms >= 0x20;
    hide *;
    Answers(w, wd, decoded, mask, reserved);
  }

  lemma OrrOf(w: u32, wd: byte, imms: nat, immr: nat)
    requires OrrFields(w, wd, imms, immr) && imms < 0x40 && immr < 0x40
    ensures MovzRead(w, wd) == AsResult(Loaded(w, wd)) <==> !ShortMask(w, wd)
  {
    hide *;
    if imms == 31 || imms == 63 {
      OrrOfNothing(w, wd, imms, immr);
    } else {
      OrrOfMask(w, wd, imms, immr, imms % 32, immr % 32);
    }
  }

  lemma Answers(w: u32, wd: byte, decoded: nat, mask: nat, reserved: bool)
    requires DecodeOrr(w, wd, WZR) == Ok(decoded) && mask < 0x1_0000_0000
    requires Loaded(w, wd) == if reserved then None else Some(mask)
    ensures MovzRead(w, wd) == AsResult(Loaded(w, wd)) <==> !reserved && decoded % 0x1_0000_0000 == mask
  {
    hide DecodeOrr, Loaded;
  }

  /** A constant with one half replaced, as movk does. */
  function Inserted(v: u32, half: nat, imm: u16): u32 {
    if half == 0 then v / 0x1_0000 * 0x1_0000 + imm else imm * 0x1_0000 + v % 0x1_0000
  }

  function HalfOf(v: u32, half: nat): nat { if half == 0 then v % 0x1_0000 else v / 0x1_0000 }

  lemma OrOfHalves(v: u32, half: nat, imm: u16)
    requires half < 2
    ensures Or(v, if half == 0 then imm else imm * 0x1_0000)
            == if half == 0 then v / 0x1_0000 * 0x1_0000 + Or(v % 0x1_0000, imm) else Or(v / 0x1_0000, imm) * 0x1_0000 + v % 0x1_0000
  {
    Pow2Sum(12, 4);
    Powers();
    assert Pow2(16) == 0x1_0000 by {
      assert Pow2(4) == 16;
    }
    hide Or, Pow2;
    var high, low := v / 0x1_0000, v % 0x1_0000;
    if half == 0 {
      OrParts(high, low, 0, imm, 16);
      OrZero(high);
    } else {
      OrParts(high, low, imm, 0, 16);
      OrZero(low);
    }
  }

  /** The decoder of the pair or-s the two constants, where a processor replaces one half:
      the results agree exactly if that half had no digit of its own. */
  lemma PairMeaning(b: seq<byte>, wd: byte)
    requires |b| == 8 && DecodeMovz(b[..4], wd).Ok? && DecodeMovk(b[4..], wd).Ok?
    ensures P.Disassembled(P.Word(b[4..])).MoveKeep? && DecodeMovzMovk(b, wd).Ok?
    ensures var v, k := DecodeMovz(b[..4], wd).value, P.Disassembled(P.Word(b[4..]));
      DecodeMovzMovk(b, wd) == Ok(Inserted(v, k.half, k.imm)) <==> Or(HalfOf(v, k.half), k.imm) == k.imm
  {
    MovkMeaning(b[4..], wd);
    var v, k := DecodeMovz(b[..4], wd).value, P.Disassembled(P.Word(b[4..]));
    assert k.half < 2 && k.imm < 0x1_0000;
    hide DecodeMovz, DecodeMovk, P.Disassembled, P.Word, Or;
    assert b[4..][..4] == b[4..];
    OrOfHalves(v, k.half, k.imm);
  }

  /** movz w0, #1 and movk w0, #2 leave 2 in the register and are read as 3. */
  lemma SameHalfIsMixed(cpu: P.Cpu)
    requires cpu.Valid()
    ensures EncodeMovz(0, 1, 0).Ok? && EncodeMovk(0, 2, 0).Ok?
    ensures var code := EncodeMovz(0, 1, 0).value + EncodeMovk(0, 2, 0).value;
      && DecodeMovzMovk(code, 0) == Ok(3) && P.ExecutePair(code, cpu) == Some(cpu.Set(0, 2).(pc := P.Wrap(cpu.pc + 8)))
  {
    hide MoveWord, GetBytes, DecodeMovz, DecodeMovk, P.Disassembled, P.Word, P.Wrap, Or;
    var movz, movk := MoveWord(MOVZ_ID, 0, 1, 0), MoveWord(MOVK_ID, 0, 2, 0);
    MovzDecodes(0, 1, 0, 0);
    MovkDecodes(0, 2, 0, 0);
    SplitPair(GetBytes(movz), GetBytes(movk));
    OneOrTwo();
    MoveDisassembles(0, 1, 0);
    MoveDisassembles(0, 2, 0);
    WordOfBytes(movz);
    WordOfBytes(movk);
    PairOfBytes(GetBytes(movz), GetBytes(movk), cpu);
    TwoNext(cpu.pc);
    assert cpu.x[0 := 1][0 := 2] == cpu.x[0 := 2];
  }

  lemma OneOrTwo()
    ensures Or(1, 2) == 3
  {
  }

  /** With elements of two digits, one of them set, every other digit is set. */
  lemma AlternatingBits(m: nat)
    ensures P.MaskBit(0x3C, 0, 2 * m) && !P.MaskBit(0x3C, 0, 2 * m + 1)
  {
    assert P.ElementSize(0x3C) == 2;
    DivMod(m, 2, 0);
    DivMod(m, 2, 1);
  }

  lemma TwoBits(m: nat)
    ensures P.BitMask(0x3C, 0, 2 * m + 2) == P.BitMask(0x3C, 0, 2 * m) + Pow2(2 * m) && Pow2(2 * m + 2) == 4 * Pow2(2 * m)
  {
    AlternatingBits(m);
    hide P.MaskBit;
    assert P.BitMask(0x3C, 0, 2 * m + 2) == P.BitMask(0x3C, 0, 2 * m + 1);
    assert P.BitMask(0x3C, 0, 2 * m + 1) == P.BitMask(0x3C, 0, 2 * m) + Pow2(2 * m);
    assert Pow2(2 * m + 2) == 2 * Pow2(2 * m + 1);
  }

  lemma {:induction false} AlternatingMask(m: nat)
    ensures 3 * P.BitMask(0x3C, 0, 2 * m) + 1 == Pow2(2 * m)
  {
    if m > 0 {
      hide P.BitMask, Pow2;
      AlternatingMask(m - 1);
      TwoBits(m - 1);
      assert 2 * (m - 1) + 2 == 2 * m;
    }
  }

  lemma TwentyNineDigits()
    ensures A64Masks.Rotated(28, 0) == 0x1FFF_FFFF && Pow2(32) == 0x1_0000_0000
  {
    Powers();
    hide Pow2;
  }

  lemma TwentyNineOnes()
    ensures A64Masks.Decoded(28, 0) == 0x1FFF_FFFF
  {
    A64Masks.MaskIsRotated(28, 0);
    TwentyNineDigits();
    var m := A64Masks.Rotated(28, 0);
    hide BitMask, A64Masks.Rotated, Or, Pow2;
    OrDisjoint(m, m, 32);
    OrSymmetric(m, Times(m, Pow2(32)));
    DivMod(m, 0x1_0000_0000, m);
    hide Times;
    assert Times(m, 0x1_0000_0000) == m * 0x1_0000_0000 by {
      TimesIs(m, 0x1_0000_0000);
    }
  }

  lemma TimesIs(a: nat, b: nat)
    ensures Times(a, b) == a * b
  {
  }

  lemma {:induction false} OrSymmetric(a: nat, b: nat)
    ensures Or(a, b) == Or(b, a)
  {
    if a > 0 || b > 0 {
      OrSymmetric(a / 2, b / 2);
    }
  }

  /** orr w0, wzr, #0x55555555 is read as 29 ones. */
  lemma AlternatingOnesAreMisread()
    ensures Loaded(P.Word([0xE0, 0xF3, 0x00, 0x32]), 0) == Some(0x5555_5555)
    ensures DecodeMovz([0xE0, 0xF3, 0x00, 0x32], 0) == Ok(0x1FFF_FFFF)
  {
    var b: seq<byte> := [0xE0, 0xF3, 0x00, 0x32];
    assert P.Word(b) == 0x3200_F3E0 && !P.Reserved(0x3C);
    BytesAreRead(b);
    assert OrrFields(0x3200_F3E0, 0, 0x3C, 0);
    hide P.BitMask, BitMask, P.Reserved, DecodeOrr, DecodeMove, Loaded, OrrFields, P.Word, ToUInt32, A64Masks.Decoded, Pow2;
    OrrDecodes(0x3200_F3E0, 0, 0x3C, 0);
    OrrLoads(0x3200_F3E0, 0, 0x3C, 0);
    AlternatingMask(16);
    A64Masks.Pow2Of32();
    DecodedOnes();
  }

  lemma DecodedOnes()
    ensures BitMask(28, 0) % 0x1_0000_0000 == 0x1FFF_FFFF
  {
    TwentyNineOnes();
  }
}
