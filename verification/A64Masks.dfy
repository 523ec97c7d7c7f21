/** Utils.cs, the bitmask immediates: what the decoder makes of them, and what a
    processor does. */
module A64Masks {
  import opened Arithmetic
  import opened BinaryDigits
  import A64
  import Processor

  lemma Pow2Of32()
    ensures Pow2(32) == 0x1_0000_0000
  {
    A64.Powers();
  }

  // ---------------------------------------------------------------- the decoder's mask

  function Ones(s: nat): nat { Pow2(s + 1) - 1 }

  /** A run of ones, rotated right by r in 32 digits. */
  function Rotated(s: nat, r: nat): nat
    requires r < 32
  {
    if r == 0 then Ones(s) else Or(Over(Ones(s), Pow2(r)), Times(Ones(s), Pow2(32 - r))) % 0x1_0000_0000
  }

  lemma {:induction false} OnesBelow(s: nat, n: nat)
    requires s < n
    ensures Ones(s) < Pow2(n)
  {
    if s + 1 < n {
      OnesBelow(s, n - 1);
    }
  }

  lemma MaskIsRotated(s: nat, r: nat)
    requires s < 31 && r < 32
    ensures A64.BitMask(s, r) == Or(Rotated(s, r), Times(Rotated(s, r), Pow2(32))) && Rotated(s, r) < 0x1_0000_0000
  {
    hide Or;
    Pow2Of32();
    OnesBelow(s, 32);
  }

  lemma RunTurned(s: nat, r: nat, k: nat)
    requires s < 31 && 0 < r < 32 && k < 32
    ensures (k + r < s + 1 || (k >= 32 - r && k - (32 - r) < s + 1)) <==> (k + r) % 32 <= s
  {
  }

  lemma RotatedDigit(s: nat, r: nat, k: nat)
    requires s < 31 && r < 32 && k < 32
    ensures Digit(Rotated(s, r), k) <==> (k + r) % 32 <= s
  {
    hide Or, Over, Times, Digit, Pow2;
    if r == 0 {
      DigitOfOnes(s + 1, k);
    } else {
      TurnedDigit(s, r, k);
      RunTurned(s, r, k);
    }
  }

  lemma TurnedDigit(s: nat, r: nat, k: nat)
    requires s < 31 && 0 < r < 32 && k < 32
    ensures Digit(Rotated(s, r), k) <==> (k + r < s + 1 || (k >= 32 - r && k - (32 - r) < s + 1))
  {
    hide Or, Over, Times, Digit, Pow2;
    Pow2Of32();
    var down, up := Over(Ones(s), Pow2(r)), Times(Ones(s), Pow2(32 - r));
    DigitOfRemainder(Or(down, up), 32, k);
    DigitOfOr(down, up, k);
    DigitBelow(Ones(s), r, k);
    DigitAbove(Ones(s), 32 - r, k);
    DigitOfOnes(s + 1, k + r);
    if k >= 32 - r {
      DigitOfOnes(s + 1, k - (32 - r));
    }
  }

  /** The mask that movz is read as. */
  function Decoded(s: nat, r: nat): nat
    requires s < 31 && r < 32
  {
    A64.BitMask(s, r) % 0x1_0000_0000
  }

  lemma DecodedDigit(s: nat, r: nat, k: nat)
    requires s < 31 && r < 32 && k < 32
    ensures Digit(Decoded(s, r), k) <==> (k + r) % 32 <= s
  {
    Pow2Of32();
    MaskIsRotated(s, r);
    var m := Rotated(s, r);
    DigitOfRemainder(A64.BitMask(s, r), 32, k);
    DigitOfOr(m, Times(m, Pow2(32)), k);
    DigitAbove(m, 32, k);
    RotatedDigit(s, r, k);
    hide A64.BitMask, Rotated, Or, Times, Digit, Pow2;
  }

  // ---------------------------------------------------------------- the processor's

  lemma {:induction false} ProcessorDigit(imms: nat, immr: nat, n: nat, k: nat)
    requires k < n
    ensures Processor.BitMask(imms, immr, n) < Pow2(n)
    ensures Digit(Processor.BitMask(imms, immr, n), k) <==> Processor.MaskBit(imms, immr, k)
    decreases n
  {
    var below := Processor.BitMask(imms, immr, n - 1);
    if n == 1 {
      assert Pow2(0) == 1 && Pow2(1) == 2 && below == 0;
    } else {
      ProcessorDigit(imms, immr, n - 1, if k < n - 1 then k else 0);
      DigitOfSum(below, n - 1, k);
      NoDigitAbove(below, n - 1, n - 1);
      hide Digit, Processor.MaskBit;
    }
  }

  lemma ElementTurns(imms: nat, immr: nat, k: nat)
    requires imms < 0x20
    ensures Processor.MaskBit(imms, immr, k) <==> (k + immr % 32) % 32 <= imms
  {
  }

  lemma Sixteen(n: nat)
    ensures (n + 16) % 16 == n % 16 && (n + 16) % 8 == n % 8 && (n + 16) % 4 == n % 4 && (n + 16) % 2 == n % 2
  {
    A64.AddMultiple(n, 1, 16);
    A64.AddMultiple(n, 2, 8);
    A64.AddMultiple(n, 4, 4);
    A64.AddMultiple(n, 8, 2);
  }

  lemma ElementIs(imms: nat, immr: nat, k: nat, e: nat)
    requires Processor.ElementSize(imms) == e
    ensures Processor.MaskBit(imms, immr, k) <==> (k + immr) % e <= imms % e
    ensures Processor.MaskBit(imms, immr, k + 16) <==> (k + immr + 16) % e <= imms % e
  {
    assert k + 16 + immr == k + immr + 16;
  }

  /** Shorter elements repeat within 16 digits; a run of ones in 32 digits does not. */
  lemma ShortElement(imms: nat, immr: nat, k: nat)
    requires 0x20 <= imms
    ensures Processor.MaskBit(imms, immr, k) <==> Processor.MaskBit(imms, immr, k + 16)
  {
    ElementIs(imms, immr, k, Processor.ElementSize(imms));
    Sixteen(k + immr);
    hide Processor.MaskBit;
  }

  lemma RunDoesNotRepeat(s: nat, r: nat) returns (k: nat)
    requires s < 31 && r < 32
    ensures k < 16 && ((k + r) % 32 <= s) != ((k + 16 + r) % 32 <= s)
  {
    k := if s < 16 then (32 - r) % 16 else (47 - r) % 16;
  }

  lemma SameMask(imms: nat, immr: nat)
    requires imms < 31 && immr < 0x40
    ensures Decoded(imms, immr % 32) == Processor.BitMask(imms, immr, 32)
  {
    Pow2Of32();
    var d, p := Decoded(imms, immr % 32), Processor.BitMask(imms, immr, 32);
    DecodedBelow(imms, immr % 32);
    ProcessorDigit(imms, immr, 32, 0);
    hide Decoded, Processor.BitMask, Processor.MaskBit, Digit, Pow2;
    forall k | 0 <= k < 32 ensures Digit(d, k) <==> Digit(p, k) {
      DecodedDigit(imms, immr % 32, k);
      ProcessorDigit(imms, immr, 32, k);
      ElementTurns(imms, immr, k);
    }
    SameDigits(d, p, 32);
  }

  lemma OtherMask(imms: nat, immr: nat)
    requires 0x20 <= imms < 0x40 && immr < 0x40 && imms % 32 < 31
    ensures Decoded(imms % 32, immr % 32) != Processor.BitMask(imms, immr, 32)
  {
    hide Decoded, Processor.BitMask, Processor.MaskBit, Digit;
    var s, r := imms % 32, immr % 32;
    var k := RunDoesNotRepeat(s, r);
    DecodedDigit(s, r, k);
    DecodedDigit(s, r, k + 16);
    ProcessorDigit(imms, immr, 32, k);
    ProcessorDigit(imms, immr, 32, k + 16);
    ShortElement(imms, immr, k);
  }

  /** The decoder's mask is the processor's exactly for the elements of 32 digits, those
      whose size field has its top bit clear. */
  lemma MasksAgreeIff(imms: nat, immr: nat)
    requires imms < 0x40 && immr < 0x40 && imms % 32 < 31
    ensures Decoded(imms % 32, immr % 32) == Processor.BitMask(imms, immr, 32) <==> imms < 0x20
  {
    hide Decoded, Processor.BitMask;
    if imms < 0x20 {
      SameMask(imms, immr);
    } else {
      OtherMask(imms, immr);
    }
  }

  lemma DecodedBelow(s: nat, r: nat)
    requires s < 31 && r < 32
    ensures Decoded(s, r) < 0x1_0000_0000
  {
  }
}
