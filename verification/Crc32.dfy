/** calculateCRC32 over byte strings: it is the CRC-32 of section 8 of RFC 1952, and what it detects. */
module Crc32 {
  import opened Crc32Table
  import opened Crc32Register

  /** The bytes of `data` fed one after the other. */
  function Feed(c: bv32, data: seq<bv8>): bv32 {
    if data == [] then c else FeedByte(Feed(c, data[..|data| - 1]), data[|data| - 1])
  }

  /** The CRC-32 of a byte string: register preset to ones, final complement. */
  function Crc(data: seq<bv8>): bv32 { Not(Feed(0xFFFFFFFF, data)) }

  /** The table-driven loop computes the bit-serial CRC of every byte string. */
  method CalculateCRC32(data: seq<bv8>) returns (crc: bv32)
    ensures crc == Crc(data)
  {
    hide Table, FeedByte, Not, Xor, Down, LowByte, Word;
    crc := 0xFFFFFFFF;
    for i := 0 to |data|
      invariant crc == Feed(0xFFFFFFFF, data[..i])
    {
      TableStepIsFeedByte(crc, data[i]);
      assert data[..i + 1][..i] == data[..i];
      crc := Xor(Table(LowByte(Xor(crc, Word(data[i])))), Down(crc));
    }
    assert data[..|data|] == data;
    crc := Not(crc);
  }

  // ------------------------------------------------------------------ known values

  lemma FeedStep(c: bv32, data: seq<bv8>, b: bv8)
    ensures Feed(c, data + [b]) == TableStep(Feed(c, data), b)
  {
    hide FeedByte, TableStep;
    assert (data + [b])[..|data|] == data;
    TableStepIsFeedByte(Feed(c, data), b);
  }

  /** The empty string has CRC 0, and the ASCII digits 1 to 9 the check value of CRC-32. */
  lemma KnownValues()
    ensures Crc([]) == 0 && Crc([49, 50, 51, 52, 53, 54, 55, 56, 57]) == 0xCBF43926
  {
    hide Feed, TableStep;
    EmptyFeed();
    var s: seq<bv8> := [];
    FeedStep(0xFFFFFFFF, s, 49);
    Round1();
    s := s + [49];
    FeedStep(0xFFFFFFFF, s, 50);
    Round2();
    s := s + [50];
    FeedStep(0xFFFFFFFF, s, 51);
    Round3();
    s := s + [51];
    FeedStep(0xFFFFFFFF, s, 52);
    Round4();
    s := s + [52];
    FeedStep(0xFFFFFFFF, s, 53);
    Round5();
    s := s + [53];
    FeedStep(0xFFFFFFFF, s, 54);
    Round6();
    s := s + [54];
    FeedStep(0xFFFFFFFF, s, 55);
    Round7();
    s := s + [55];
    FeedStep(0xFFFFFFFF, s, 56);
    Round8();
    s := s + [56];
    FeedStep(0xFFFFFFFF, s, 57);
    Round9();
    s := s + [57];
    assert s == [49, 50, 51, 52, 53, 54, 55, 56, 57];
  }

  lemma EmptyFeed()
    ensures Feed(0xFFFFFFFF, []) == 0xFFFFFFFF
  {
  }

  lemma Round1() ensures TableStep(0xFFFFFFFF, 49) == 0x7C231048 {}
  lemma Round2() ensures TableStep(0x7C231048, 50) == 0xB0ACBB32 {}
  lemma Round3() ensures TableStep(0xB0ACBB32, 51) == 0x77B79C2D {}
  lemma Round4() ensures TableStep(0x77B79C2D, 52) == 0x641C1F5C {}
  lemma Round5() ensures TableStep(0x641C1F5C, 53) == 0x340AC5E3 {}
  lemma Round6() ensures TableStep(0x340AC5E3, 54) == 0xF68D2C9E {}
  lemma Round7() ensures TableStep(0xF68D2C9E, 55) == 0xAFFC9660 {}
  lemma Round8() ensures TableStep(0xAFFC9660, 56) == 0x651F2550 {}
  lemma Round9() ensures TableStep(0x651F2550, 57) == 0x340BC6D9 {}

  // ------------------------------------------------------------------ burst errors

  /** Up to four bytes as one word, first byte lowest. */
  function Pack(w: seq<bv8>): bv32
    requires |w| <= 4
  {
    if w == [] then 0 else Prepend(w[0], Pack(w[1..]))
  }

  lemma PackFits(w: seq<bv8>)
    requires |w| <= 3
    ensures Fits3(Pack(w))
  {
    hide Prepend, Fits1, Fits2, Fits3;
    if |w| >= 1 { PrependFits(w[|w| - 1], 0); }
    if |w| >= 2 { PrependFits(w[|w| - 2], Pack(w[|w| - 1..])); }
    if |w| >= 3 { PrependFits(w[|w| - 3], Pack(w[|w| - 2..])); }
    PrependFits(0, Pack(w));
    if |w| == 2 { assert w[1..][1..] == []; }
    if |w| == 3 { assert w[1..][1..] == w[2..] && w[2..][1..] == []; }
  }

  lemma {:induction false} PackInjective(v: seq<bv8>, w: seq<bv8>)
    requires |v| == |w| <= 4 && Pack(v) == Pack(w)
    ensures v == w
  {
    hide Prepend, Fits3;
    if v != [] {
      PackFits(v[1..]);
      PackFits(w[1..]);
      PrependInjective(v[0], Pack(v[1..]), w[0], Pack(w[1..]));
      PackInjective(v[1..], w[1..]);
      assert v == [v[0]] + v[1..] && w == [w[0]] + w[1..];
    }
  }

  lemma {:induction false} FeedConcat(c: bv32, a: seq<bv8>, b: seq<bv8>)
    ensures Feed(c, a + b) == Feed(Feed(c, a), b)
    decreases |b|
  {
    hide FeedByte;
    if b == [] {
      assert a + b == a;
    } else {
      FeedConcat(c, a, b[..|b| - 1]);
      assert (a + b)[..|a + b| - 1] == a + b[..|b| - 1];
    }
  }

  lemma FeedOne(c: bv32, b: bv8)
    ensures Feed(c, [b]) == FeedByte(c, b)
  {
    hide FeedByte;
    assert [b][..0] == [];
    assert Feed(c, []) == c;
  }

  /** Different registers stay different whatever is fed next. */
  lemma {:induction false} FeedInjective(c: bv32, d: bv32, s: seq<bv8>)
    requires Feed(c, s) == Feed(d, s)
    ensures c == d
    decreases |s|
  {
    hide FeedByte, Shift8, Xor, Word;
    if s != [] {
      var front, b := s[..|s| - 1], s[|s| - 1];
      var x, y := Feed(c, front), Feed(d, front);
      FeedByteIsShift8(x, b);
      FeedByteIsShift8(y, b);
      Shift8Injective(Xor(x, Word(b)), Xor(y, Word(b)));
      XorLaws(x, 0, Word(b));
      XorLaws(y, 0, Word(b));
      FeedInjective(c, d, front);
    }
  }

  function Shift8Times(k: nat, x: bv32): bv32
    decreases k
  {
    if k == 0 then x else Shift8Times(k - 1, Shift8(x))
  }

  lemma {:induction false} Shift8TimesInjective(k: nat, x: bv32, y: bv32)
    requires Shift8Times(k, x) == Shift8Times(k, y)
    ensures x == y
    decreases k
  {
    hide Shift8;
    if k > 0 {
      Shift8TimesInjective(k - 1, Shift8(x), Shift8(y));
      Shift8Injective(x, y);
    }
  }

  /** Feeding at most four bytes is one xor followed by whole-byte shifts. */
  lemma {:induction false} FeedWindow(c: bv32, w: seq<bv8>)
    requires |w| <= 4
    ensures Feed(c, w) == Shift8Times(|w|, Xor(c, Pack(w)))
    decreases |w|
  {
    hide FeedByte, Shift8, Xor, Word, Up, Fits3;
    if w == [] {
      XorLaws(c, 0, 0);
    } else {
      var b, p := w[0], Pack(w[1..]);
      assert w == [b] + w[1..];
      FeedConcat(c, [b], w[1..]);
      FeedOne(c, b);
      FeedWindow(FeedByte(c, b), w[1..]);
      FeedByteIsShift8(c, b);
      PackFits(w[1..]);
      Shift8Absorbs(Xor(c, Word(b)), p);
      XorLaws(c, Word(b), Up(p));
    }
  }

  /** Two strings of equal length that differ only within four consecutive bytes have different CRCs. */
  lemma BurstDetected(a: seq<bv8>, b: seq<bv8>, i: nat)
    requires |a| == |b| && a != b
    requires forall j :: 0 <= j < |a| && !(i <= j < i + 4) ==> a[j] == b[j]
    ensures Crc(a) != Crc(b)
  {
    hide Feed, Not, Pack;
    var lo := if i < |a| then i else |a|;
    var hi := if i + 4 < |a| then i + 4 else |a|;
    var p, s, v, w := a[..lo], a[hi..], a[lo..hi], b[lo..hi];
    assert a == p + v + s;
    assert b[..lo] == p && b[hi..] == s;
    assert b == p + w + s;
    if Crc(a) == Crc(b) {
      NotInjective(Feed(0xFFFFFFFF, a), Feed(0xFFFFFFFF, b));
      WindowInjective(0xFFFFFFFF, p, v, w, s);
    }
  }

  lemma NotInjective(x: bv32, y: bv32)
    requires Not(x) == Not(y)
    ensures x == y
  {
  }

  lemma WindowInjective(c: bv32, p: seq<bv8>, v: seq<bv8>, w: seq<bv8>, s: seq<bv8>)
    requires |v| == |w| <= 4 && Feed(c, p + v + s) == Feed(c, p + w + s)
    ensures v == w
  {
    hide Feed, Xor, Shift8Times, Pack;
    var d := Feed(c, p);
    FeedConcat(c, p + v, s);
    FeedConcat(c, p, v);
    FeedConcat(c, p + w, s);
    FeedConcat(c, p, w);
    FeedInjective(Feed(d, v), Feed(d, w), s);
    FeedWindow(d, v);
    FeedWindow(d, w);
    Shift8TimesInjective(|v|, Xor(d, Pack(v)), Xor(d, Pack(w)));
    XorCancel(d, Pack(v), Pack(w));
    PackInjective(v, w);
  }
}
