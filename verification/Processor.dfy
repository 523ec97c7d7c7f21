/** What an A64 processor makes of an instruction word, from the bit fields and the
    pseudocode of section C6.2 of Arm DDI 0487: as much as the patcher emits or reads. */
module Processor {
  import opened Arithmetic
  import opened Options

  type byte = b: int | 0 <= b < 256
  type u32 = w: int | 0 <= w < 0x1_0000_0000
  type u64 = w: int | 0 <= w < 0x1_0000_0000_0000_0000

  datatype Instruction =
    | MoveZero(rd: nat, half: nat, imm: nat)       // MOVZ Wd, #imm, LSL #(16 * half)
    | MoveKeep(rd: nat, half: nat, imm: nat)       // MOVK Wd, #imm, LSL #(16 * half)
    | OrImmediate(rd: nat, rn: nat, imm: nat)      // ORR Wd, Wn, #imm
    | PageAddress(rd: nat, pages: int)             // ADRP Xd, label
    | AddImmediate(rd: nat, rn: nat, imm: nat)     // ADD Xd, Xn, #imm
    | Branch(offset: int)                          // B label
    | BranchLink(offset: int)                      // BL label
    | Other

  /** A field of n + 1 bits, `half` being 2^n, as two's complement. */
  function Signed(field: nat, half: nat): int { if field < half then field else field - 2 * half }

  /** The instruction, from bits 31 to 23, or 31 to 26, and its fields. */
  function Disassembled(w: u32): Instruction {
    var top, rd, rn := w / 0x80_0000, w % 0x20, w / 0x20 % 0x20;
    if top / 8 == 0x05 then Branch(4 * Signed(w % 0x400_0000, 0x200_0000))
    else if top / 8 == 0x25 then BranchLink(4 * Signed(w % 0x400_0000, 0x200_0000))
    else if top == 0x0A5 && w / 0x40_0000 % 2 == 0 then MoveZero(rd, w / 0x20_0000 % 2, w / 0x20 % 0x1_0000)
    else if top == 0x0E5 && w / 0x40_0000 % 2 == 0 then MoveKeep(rd, w / 0x20_0000 % 2, w / 0x20 % 0x1_0000)
    else if top == 0x064 && w / 0x40_0000 % 2 == 0 && !Reserved(w / 0x400 % 0x40) then OrImmediate(rd, rn, BitMask(w / 0x400 % 0x40, w / 0x1_0000 % 0x40, 32))
    else if top == 0x122 then AddImmediate(rd, rn, w / 0x400 % 0x1000 * (if w / 0x40_0000 % 2 == 1 then 0x1000 else 1))
    else if top / 0x100 == 1 && top / 2 % 0x20 == 0x10 then PageAddress(rd, Signed(w / 0x20 % 0x8_0000 * 4 + w / 0x2000_0000 % 4, 0x10_0000))
    else Other
  }

  // ---------------------------------------------------------------- bitmask immediates

  /** DecodeBitMasks for N = 0: the size of the element that is repeated. */
  function ElementSize(imms: nat): (e: nat)
    ensures e == 32 || e == 16 || e == 8 || e == 4 || e == 2
  {
    if imms < 0x20 then 32 else if imms < 0x30 then 16 else if imms < 0x38 then 8 else if imms < 0x3C then 4 else 2
  }

  predicate Reserved(imms: nat) { imms >= 0x3E || imms % ElementSize(imms) == ElementSize(imms) - 1 }

  /** imms + 1 ones, rotated right by immr in an element, and repeated. */
  predicate MaskBit(imms: nat, immr: nat, k: nat) {
    var e := ElementSize(imms);
    (k + immr) % e <= imms % e
  }

  /** The lowest n bits of the mask. */
  function BitMask(imms: nat, immr: nat, n: nat): nat {
    if n == 0 then 0 else BitMask(imms, immr, n - 1) + (if MaskBit(imms, immr, n - 1) then Pow2(n - 1) else 0)
  }

  // ---------------------------------------------------------------- execution

  /** The general registers, the stack pointer and the program counter. */
  datatype Cpu = Cpu(pc: u64, x: seq<u64>, sp: u64) {
    predicate Valid() { |x| == 31 }

    // Register 31 is the zero register, or the stack pointer in the immediate forms of
    // ADD and ORR.
    function Get(r: nat): u64 requires Valid() && r < 32 { if r == 31 then 0 else x[r] }
    function Set(r: nat, v: u64): Cpu requires Valid() && r < 32 { if r == 31 then this else this.(x := x[r := v]) }
    function GetSp(r: nat): u64 requires Valid() && r < 32 { if r == 31 then sp else x[r] }
    function SetSp(r: nat, v: u64): Cpu requires Valid() && r < 32 { if r == 31 then this.(sp := v) else this.(x := x[r := v]) }
    function Next(): Cpu { this.(pc := Wrap(pc + 4)) }
  }

  function Wrap(v: int): u64 { v % 0x1_0000_0000_0000_0000 }

  /** One instruction; None for one that is not described here. */
  function Execute(w: u32, cpu: Cpu): (after: Option<Cpu>)
    requires cpu.Valid()
    ensures after.Some? ==> after.value.Valid()
  {
    match Disassembled(w)
    case MoveZero(rd, half, imm) => Some(cpu.Set(rd, if half == 0 then imm else imm * 0x1_0000).Next())
    case MoveKeep(rd, half, imm) =>
      var v := cpu.Get(rd) % 0x1_0000_0000;
      Some(cpu.Set(rd, if half == 0 then v / 0x1_0000 * 0x1_0000 + imm else imm * 0x1_0000 + v % 0x1_0000).Next())
    case PageAddress(rd, pages) => Some(cpu.Set(rd, Wrap(cpu.pc / 0x1000 * 0x1000 + pages * 0x1000)).Next())
    case AddImmediate(rd, rn, imm) => Some(cpu.SetSp(rd, Wrap(cpu.GetSp(rn) + imm)).Next())
    case Branch(offset) => Some(cpu.(pc := Wrap(cpu.pc + offset)))
    case BranchLink(offset) => Some(cpu.Set(30, Wrap(cpu.pc + 4)).(pc := Wrap(cpu.pc + offset)))
    case _ => None
  }

  /** The word that four bytes of memory hold, the low byte first. */
  function Word(b: seq<byte>): u32
    requires |b| >= 4
  {
    b[0] as int + 0x100 * (b[1] as int) + 0x1_0000 * (b[2] as int) + 0x100_0000 * (b[3] as int)
  }

  /** Two instructions one after the other, the first of which is no branch. */
  function ExecutePair(code: seq<byte>, cpu: Cpu): Option<Cpu>
    requires cpu.Valid() && |code| == 8
  {
    match Execute(Word(code[..4]), cpu)
    case Some(after) => Execute(Word(code[4..]), after)
    case None => None
  }
}
