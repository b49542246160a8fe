/** Bytes, little-endian integers and fixed-width C strings. */
module Bytes {
  type byte = x: int | 0 <= x < 256

  type Text = seq<byte>

  /** 256 to the given power. */
  function Radix(width: nat): (r: nat)
    ensures r > 0
  {
    if width == 0 then 1 else 256 * Radix(width - 1)
  }

  lemma RadixValues()
    ensures Radix(2) == 0x1_0000 && Radix(4) == 0x1_0000_0000 && Radix(8) == 0x1_0000_0000_0000_0000
  {
    assert Radix(2) == 65536;
    assert Radix(4) == 65536 * Radix(2);
    assert Radix(6) == 65536 * Radix(4);
    assert Radix(8) == 65536 * Radix(6);
  }

  /** The low `width` bytes of `n`, least significant first. */
  function Le(n: nat, width: nat): (s: seq<byte>)
    ensures |s| == width
  {
    if width == 0 then [] else [n % 256] + Le(n / 256, width - 1)
  }

  function FromLe(s: seq<byte>): nat {
    if s == [] then 0 else s[0] + 256 * FromLe(s[1..])
  }

  /** Reading back gives the number as far as its field holds it. */
  lemma {:induction false} LeCut(n: nat, width: nat)
    ensures FromLe(Le(n, width)) == n % Radix(width)
  {
    if width > 0 {
      LeCut(n / 256, width - 1);
      assert Le(n, width)[1..] == Le(n / 256, width - 1);
      RemainderByDigit(n, Radix(width - 1));
    }
  }

  /** A byte string is its number. */
  lemma {:induction false} FromLeInjective(s: seq<byte>, t: seq<byte>)
    requires |s| == |t| && FromLe(s) == FromLe(t)
    ensures s == t
  {
    if s != [] {
      assert s[0] == t[0] && FromLe(s[1..]) == FromLe(t[1..]);
      FromLeInjective(s[1..], t[1..]);
      assert s == [s[0]] + s[1..] && t == [t[0]] + t[1..];
    }
  }

  lemma {:induction false} FromLeBound(s: seq<byte>)
    ensures FromLe(s) < Radix(|s|)
  {
    if s != [] { FromLeBound(s[1..]); }
  }

  lemma RemainderByDigit(n: nat, m: nat)
    requires m > 0
    ensures n % (256 * m) == n % 256 + 256 * ((n / 256) % m)
  {
    var q := n / 256;
    RemainderOf(q, m);
    assert 256 * (m * (q / m)) == 256 * m * (q / m);
    RemainderIs(n, 256 * m, q / m, 256 * (q % m) + n % 256);
  }

  lemma RemainderOf(n: nat, m: nat)
    requires m > 0
    ensures n == m * (n / m) + n % m && 0 <= n % m < m
  {
  }

  lemma RemainderIs(n: nat, m: nat, q: nat, r: nat)
    requires m > 0 && n == m * q + r && r < m
    ensures n % m == r
  {
    RemainderOf(n, m);
    var d := q - n / m;
    assert m * d == m * q - m * (n / m) == n % m - r;
    if d >= 1 { assert m * d == m + m * (d - 1); }
    if d <= -1 { assert m * d == m * (d + 1) - m; }
  }

  lemma LeRoundTrip(n: nat, width: nat)
    requires n < Radix(width)
    ensures FromLe(Le(n, width)) == n
  {
    LeCut(n, width);
    RemainderIs(n, Radix(width), 0, n);
  }

  /** What a C string function sees of `s`: everything before the first NUL. */
  function UntilNul(s: seq<byte>): (r: seq<byte>)
    ensures r <= s && 0 !in r
    ensures |r| < |s| ==> s[|r|] == 0
  {
    if s == [] || s[0] == 0 then [] else [s[0]] + UntilNul(s[1..])
  }

  function Zeros(n: nat): (z: seq<byte>)
    ensures |z| == n && forall i :: 0 <= i < n ==> z[i] == 0
  {
    seq(n, _ => 0)
  }

  /** What is left of `s` in a zero-terminated field of `width` bytes. */
  function Kept(s: seq<byte>, width: nat): (t: seq<byte>)
    requires width > 0
    ensures |t| < width && 0 !in t && t <= s
    ensures 0 !in s && |s| < width ==> t == s
    ensures 0 !in s && |s| >= width ==> t == s[..width - 1]
  {
    var t := UntilNul(s);
    if |t| < width then t else t[..width - 1]
  }

  /** strncpy of `s` into such a field. */
  function CField(s: seq<byte>, width: nat): (f: seq<byte>)
    requires width > 0
    ensures |f| == width
  {
    Kept(s, width) + Zeros(width - |Kept(s, width)|)
  }

  /** A text is read back unchanged exactly when it has no NUL and fits; otherwise it is cut. */
  lemma CFieldRoundTrip(s: seq<byte>, width: nat)
    requires width > 0
    ensures UntilNul(CField(s, width)) == Kept(s, width)
    ensures UntilNul(CField(s, width)) == s <==> (0 !in s && |s| < width)
  {
    hide Kept, UntilNul, Zeros;
    UntilNulOfPadded(Kept(s, width), width - |Kept(s, width)|);
  }

  lemma {:induction false} UntilNulOfPadded(t: seq<byte>, zeros: nat)
    requires 0 !in t
    ensures UntilNul(t + Zeros(zeros)) == t
  {
    if t != [] {
      UntilNulOfPadded(t[1..], zeros);
      assert (t + Zeros(zeros))[1..] == t[1..] + Zeros(zeros);
    }
  }

  /** `bytes` laid over `mem` at `at`. */
  function Put(mem: seq<byte>, at: nat, bytes: seq<byte>): (r: seq<byte>)
    requires at + |bytes| <= |mem|
    ensures |r| == |mem|
    ensures r[at..at + |bytes|] == bytes
    ensures forall i :: 0 <= i < |mem| && !(at <= i < at + |bytes|) ==> r[i] == mem[i]
  {
    mem[..at] + bytes + mem[at + |bytes|..]
  }

  /** memcpy into a buffer. */
  method CopyInto(a: array<byte>, at: nat, bytes: seq<byte>)
    requires at + |bytes| <= a.Length
    modifies a
    ensures a[..] == Put(old(a[..]), at, bytes)
  {
    for k := 0 to |bytes|
      invariant forall i :: 0 <= i < k ==> a[at + i] == bytes[i]
      invariant forall i :: 0 <= i < a.Length && !(at <= i < at + k) ==> a[i] == old(a[i])
    {
      a[at + k] := bytes[k];
    }
    assert a[..] == Put(old(a[..]), at, bytes);
  }
}
