/** Bytes and words as bit vectors and as numbers. */
module BitVectors {
  function ToNat(x: bv32): (n: nat)
    ensures n < 0x1_0000_0000
  {
    x as nat
  }

  function ToWord(n: nat): bv32
    requires n < 0x1_0000_0000
  {
    n as bv32
  }

  lemma WordBack(x: bv32)
    ensures ToWord(ToNat(x)) == x
  {
  }

  lemma WordsDiffer(x: bv32, y: bv32)
    requires x != y
    ensures ToNat(x) != ToNat(y)
  {
    hide ToNat, ToWord;
    WordBack(x);
    WordBack(y);
  }

  /** The byte with value `x`. */
  function ToByte(x: int): bv8
    requires 0 <= x < 256
  {
    if x == 0 then 0 else ToByte(x - 1) + 1
  }

  lemma OneUp(b: bv8)
    requires b != 255
    ensures (b + 1) as int == b as int + 1
  {
  }

  lemma {:induction false} ByteBack(x: int)
    requires 0 <= x < 256
    ensures ToByte(x) as int == x
  {
    if x > 0 {
      ByteBack(x - 1);
      OneUp(ToByte(x - 1));
    }
  }
}
