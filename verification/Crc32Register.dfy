/** The CRC-32 register, one byte at a time. Nothing here speaks of sequences. */
module Crc32Register {
  import opened Crc32Table

  const POLY: bv32 := 0xEDB88320

  function Word(b: bv8): bv32 { b as bv32 }

  function Xor(x: bv32, y: bv32): bv32 { x ^ y }

  function Not(x: bv32): bv32 { !x }

  function Half(x: bv32): bv32 { x >> 1 }

  function Down(x: bv32): bv32 { x >> 8 }

  function Up(x: bv32): bv32 { x << 8 }

  /** The feedback that a register with this low bit causes. */
  function Tap(x: bv32): bv32 { if x & 1 == 1 then POLY else 0 }

  // ------------------------------------------------------------------ the reference: one bit at a time

  /** Division by the reflected polynomial, feeding the lowest bit of `z`. */
  function FeedBit(c: bv32, z: bv32): bv32 { Xor(Half(c), Tap(Xor(c, z))) }

  /** The lowest `k` bits of `z` enter the register, least significant first. */
  function FeedBits(c: bv32, z: bv32, k: nat): bv32
    decreases k
  {
    if k == 0 then c else FeedBits(FeedBit(c, z), Half(z), k - 1)
  }

  function FeedByte(c: bv32, b: bv8): bv32 { FeedBits(c, Word(b), 8) }

  // ------------------------------------------------------------------ whole-register shifts

  function Shift(c: bv32): bv32 { Xor(Half(c), Tap(c)) }

  function Shifts(c: bv32, k: nat): bv32
    decreases k
  {
    if k == 0 then c else Shifts(Shift(c), k - 1)
  }

  function Shift8(c: bv32): bv32 { Shift(Shift(Shift(Shift(Shift(Shift(Shift(Shift(c)))))))) }

  function Halves(z: bv32, k: nat): bv32
    decreases k
  {
    if k == 0 then z else Halves(Half(z), k - 1)
  }

  lemma ShiftsEight(c: bv32)
    ensures Shifts(c, 8) == Shift8(c)
  {
    hide Shift;
    var d := Shift(Shift(Shift(Shift(c))));
    assert Shifts(c, 8) == Shifts(Shift(Shift(c)), 6) == Shifts(d, 4);
    assert Shifts(d, 4) == Shifts(Shift(Shift(d)), 2);
  }

  lemma HalvesEight(z: bv32)
    ensures Halves(z, 8) == Down(z)
  {
    var d := Half(Half(Half(Half(z))));
    assert Halves(z, 8) == Halves(Half(Half(z)), 6) == Halves(d, 4) by { hide Half; }
    assert Halves(d, 4) == Halves(Half(Half(d)), 2) by { hide Half; }
    assert Half(Half(Half(Half(d)))) == Down(z);
  }

  // ------------------------------------------------------------------ algebra of the operations

  lemma XorLaws(x: bv32, y: bv32, z: bv32)
    ensures Xor(x, y) == Xor(y, x)
    ensures Xor(Xor(x, y), z) == Xor(Xor(x, z), y) == Xor(x, Xor(y, z))
    ensures Xor(Xor(x, z), z) == x && Xor(x, 0) == x
    ensures Half(Xor(x, y)) == Xor(Half(x), Half(y))
    ensures Down(Xor(x, y)) == Xor(Down(x), Down(y))
  {
    hide Xor, Half, Down;
    XorAssociates(x, y, z);
    XorVanishes(x, y, z);
    XorDistributes(x, y);
  }

  lemma XorAssociates(x: bv32, y: bv32, z: bv32)
    ensures Xor(Xor(x, y), z) == Xor(Xor(x, z), y) == Xor(x, Xor(y, z))
  {
  }

  lemma XorVanishes(x: bv32, y: bv32, z: bv32)
    ensures Xor(x, y) == Xor(y, x) && Xor(Xor(x, z), z) == x && Xor(x, 0) == x
  {
  }

  lemma XorDistributes(x: bv32, y: bv32)
    ensures Half(Xor(x, y)) == Xor(Half(x), Half(y)) && Down(Xor(x, y)) == Xor(Down(x), Down(y))
  {
  }

  lemma XorCancel(c: bv32, x: bv32, y: bv32)
    requires Xor(c, x) == Xor(c, y)
    ensures x == y
  {
  }

  lemma FeedBitIsShift(r: bv32, z: bv32)
    ensures FeedBit(Xor(r, z), z) == Xor(Shift(r), Half(z))
  {
    hide Xor, Half, Tap;
    XorLaws(r, z, z);
    XorLaws(Half(r), Half(z), Tap(r));
  }

  /** Feeding bits into `r ^ z` shifts both parts of the sum. */
  lemma {:induction false} FeedBitsIsShifts(r: bv32, z: bv32, k: nat)
    ensures FeedBits(Xor(r, z), z, k) == Xor(Shifts(r, k), Halves(z, k))
    decreases k
  {
    hide Xor, FeedBit, Shift, Half;
    if k > 0 {
      FeedBitIsShift(r, z);
      FeedBitsIsShifts(Shift(r), Half(z), k - 1);
    }
  }

  lemma ByteIsSmall(b: bv8)
    ensures Down(Word(b)) == 0
  {
  }

  lemma FeedByteIsShift8(c: bv32, b: bv8)
    ensures FeedByte(c, b) == Shift8(Xor(c, Word(b)))
  {
    hide Xor, Shift, Half, Shifts, Halves, Word, FeedBits, Down, Shift8;
    var z := Word(b);
    XorLaws(c, 0, z);
    FeedBitsIsShifts(Xor(c, z), z, 8);
    HalvesEight(z);
    ByteIsSmall(b);
    ShiftsEight(Xor(c, z));
    XorLaws(Shift8(Xor(c, z)), 0, 0);
  }

  /** A word with `k` zero bits at the bottom passes through `k` shifts without feedback. */
  predicate LowZero(z: bv32, k: nat)
    decreases k
  {
    k == 0 || (z & 1 == 0 && LowZero(Half(z), k - 1))
  }

  lemma TapIgnores(x: bv32, z: bv32)
    requires z & 1 == 0
    ensures Tap(Xor(x, z)) == Tap(x)
  {
  }

  lemma {:induction false} ShiftsPass(x: bv32, z: bv32, k: nat)
    requires LowZero(z, k)
    ensures Shifts(Xor(x, z), k) == Xor(Shifts(x, k), Halves(z, k))
    decreases k
  {
    hide Xor, Half, Tap;
    if k > 0 {
      TapIgnores(x, z);
      XorLaws(x, z, z);
      XorLaws(Half(x), Half(z), Tap(x));
      ShiftsPass(Shift(x), Half(z), k - 1);
    }
  }

  /** The top byte is empty. */
  predicate Fits3(p: bv32) { p & 0xFF000000 == 0 }

  lemma UpLowZero(p: bv32)
    requires Fits3(p)
    ensures LowZero(Up(p), 8) && Down(Up(p)) == p
  {
    var z := Up(p);
    var d := Half(Half(Half(Half(z))));
    assert z & 1 == 0 && Half(z) & 1 == 0 && Half(Half(z)) & 1 == 0 && Half(Half(Half(z))) & 1 == 0;
    assert d & 1 == 0 && Half(d) & 1 == 0 && Half(Half(d)) & 1 == 0 && Half(Half(Half(d))) & 1 == 0;
    assert LowZero(d, 4) && LowZero(z, 8) by { hide Half, Up; UpLowZero'(z); UpLowZero'(d); }
  }

  lemma UpLowZero'(z: bv32)
    requires z & 1 == 0 && Half(z) & 1 == 0 && Half(Half(z)) & 1 == 0 && Half(Half(Half(z))) & 1 == 0
    ensures forall k: nat :: LowZero(Half(Half(Half(Half(z)))), k) ==> LowZero(z, k + 4)
  {
    hide Half;
    forall k: nat | LowZero(Half(Half(Half(Half(z)))), k)
      ensures LowZero(z, k + 4)
    {
      assert LowZero(Half(Half(z)), k + 2);
    }
  }

  lemma Shift8Absorbs(x: bv32, p: bv32)
    requires Fits3(p)
    ensures Shift8(Xor(x, Up(p))) == Xor(Shift8(x), p)
  {
    hide Xor, Shift8, Shifts, Halves, Up, Down, Fits3, LowZero;
    UpLowZero(p);
    ShiftsPass(x, Up(p), 8);
    HalvesEight(Up(p));
    ShiftsEight(x);
    ShiftsEight(Xor(x, Up(p)));
  }

  lemma TopBit(x: bv32)
    ensures Shift(x) & 0x80000000 == Tap(x) & 0x80000000
    ensures Tap(x) & 0x80000000 == 0 <==> x & 1 == 0
  {
  }

  lemma ShiftInjective(x: bv32, y: bv32)
    requires Shift(x) == Shift(y)
    ensures x == y
  {
    TopBit(x);
    TopBit(y);
    assert x & 1 == y & 1 && Tap(x) == Tap(y);
    XorLaws(Half(x), Tap(x), 0);
    XorLaws(Half(y), Tap(y), 0);
    XorCancel(Tap(x), Half(x), Half(y));
    assert x == y;
  }

  lemma Shift8Injective(x: bv32, y: bv32)
    requires Shift8(x) == Shift8(y)
    ensures x == y
  {
    hide Shift;
    var a, b := Shift(Shift(Shift(Shift(x)))), Shift(Shift(Shift(Shift(y))));
    ShiftInjective(Shift(Shift(Shift(a))), Shift(Shift(Shift(b))));
    ShiftInjective(Shift(Shift(a)), Shift(Shift(b)));
    ShiftInjective(Shift(a), Shift(b));
    ShiftInjective(a, b);
    ShiftInjective(Shift(Shift(Shift(x))), Shift(Shift(Shift(y))));
    ShiftInjective(Shift(Shift(x)), Shift(Shift(y)));
    ShiftInjective(Shift(x), Shift(y));
    ShiftInjective(x, y);
  }

  // ------------------------------------------------------------------ the table

  lemma Row0Ok(i: bv8) requires i < 16 ensures Row0(i) == Shift8(i as bv32) {}
  lemma Row1Ok(i: bv8) requires 16 <= i < 32 ensures Row1(i) == Shift8(i as bv32) {}
  lemma Row2Ok(i: bv8) requires 32 <= i < 48 ensures Row2(i) == Shift8(i as bv32) {}
  lemma Row3Ok(i: bv8) requires 48 <= i < 64 ensures Row3(i) == Shift8(i as bv32) {}
  lemma Row4Ok(i: bv8) requires 64 <= i < 80 ensures Row4(i) == Shift8(i as bv32) {}
  lemma Row5Ok(i: bv8) requires 80 <= i < 96 ensures Row5(i) == Shift8(i as bv32) {}
  lemma Row6Ok(i: bv8) requires 96 <= i < 112 ensures Row6(i) == Shift8(i as bv32) {}
  lemma Row7Ok(i: bv8) requires 112 <= i < 128 ensures Row7(i) == Shift8(i as bv32) {}
  lemma Row8Ok(i: bv8) requires 128 <= i < 144 ensures Row8(i) == Shift8(i as bv32) {}
  lemma Row9Ok(i: bv8) requires 144 <= i < 160 ensures Row9(i) == Shift8(i as bv32) {}
  lemma RowAOk(i: bv8) requires 160 <= i < 176 ensures RowA(i) == Shift8(i as bv32) {}
  lemma RowBOk(i: bv8) requires 176 <= i < 192 ensures RowB(i) == Shift8(i as bv32) {}
  lemma RowCOk(i: bv8) requires 192 <= i < 208 ensures RowC(i) == Shift8(i as bv32) {}
  lemma RowDOk(i: bv8) requires 208 <= i < 224 ensures RowD(i) == Shift8(i as bv32) {}
  lemma RowEOk(i: bv8) requires 224 <= i < 240 ensures RowE(i) == Shift8(i as bv32) {}
  lemma RowFOk(i: bv8) requires 240 <= i ensures RowF(i) == Shift8(i as bv32) {}

  /** Every literal table entry is its index pushed through eight shifts. */
  lemma TableIsShift8(i: bv8)
    ensures Table(i) == Shift8(Word(i))
  {
    hide Shift8, Row0, Row1, Row2, Row3, Row4, Row5, Row6, Row7, Row8, Row9, RowA, RowB, RowC, RowD, RowE, RowF;
    if i < 16 { Row0Ok(i); }
    else if i < 32 { Row1Ok(i); }
    else if i < 48 { Row2Ok(i); }
    else if i < 64 { Row3Ok(i); }
    else if i < 80 { Row4Ok(i); }
    else if i < 96 { Row5Ok(i); }
    else if i < 112 { Row6Ok(i); }
    else if i < 128 { Row7Ok(i); }
    else if i < 144 { Row8Ok(i); }
    else if i < 160 { Row9Ok(i); }
    else if i < 176 { RowAOk(i); }
    else if i < 192 { RowBOk(i); }
    else if i < 208 { RowCOk(i); }
    else if i < 224 { RowDOk(i); }
    else if i < 240 { RowEOk(i); }
    else { RowFOk(i); }
  }

  function LowByte(x: bv32): bv8 { (x & 0xFF) as bv8 }

  /** One round of calculateCRC32. */
  function TableStep(c: bv32, b: bv8): bv32 { Xor(Table(LowByte(Xor(c, Word(b)))), Down(c)) }

  lemma SplitWord(x: bv32)
    ensures x == Xor(Word(LowByte(x)), Up(Down(x))) && Fits3(Down(x))
  {
  }

  lemma TableStepIsFeedByte(c: bv32, b: bv8)
    ensures TableStep(c, b) == FeedByte(c, b)
  {
    hide Xor, Table, Shift8, FeedByte, Word, LowByte, Up, Down, Fits3;
    var x := Xor(c, Word(b));
    TableIsShift8(LowByte(x));
    SplitWord(x);
    Shift8Absorbs(Word(LowByte(x)), Down(x));
    FeedByteIsShift8(c, b);
    XorLaws(c, Word(b), 0);
    ByteIsSmall(b);
    XorLaws(Down(c), 0, 0);
  }

  // ------------------------------------------------------------------ packing

  predicate Fits2(p: bv32) { p & 0xFFFF0000 == 0 }

  predicate Fits1(p: bv32) { p & 0xFFFFFF00 == 0 }

  function Prepend(b: bv8, p: bv32): bv32 { Xor(Word(b), Up(p)) }

  lemma PrependFits(b: bv8, p: bv32)
    ensures p == 0 ==> Fits1(Prepend(b, p))
    ensures Fits1(p) ==> Fits2(Prepend(b, p))
    ensures Fits2(p) ==> Fits3(Prepend(b, p))
    ensures p == 0 || Fits1(p) || Fits2(p) ==> Fits3(p)
  {
  }

  lemma PrependInjective(b: bv8, p: bv32, d: bv8, q: bv32)
    requires Fits3(p) && Fits3(q) && Prepend(b, p) == Prepend(d, q)
    ensures b == d && p == q
  {
    PrependParts(b, p);
    PrependParts(d, q);
  }

  lemma PrependParts(b: bv8, p: bv32)
    requires Fits3(p)
    ensures LowByte(Prepend(b, p)) == b && Down(Prepend(b, p)) == p
  {
  }
}
