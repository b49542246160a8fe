/** The block format of include/nexus/transport/LargeDataChannel.h: a 128-byte header and the payload. */
module LargeBlock {
  import opened Bytes
  import opened BitVectors
  import Crc32

  const HEADER: nat := 128
  const MAGIC: nat := 0x4C444154
  const TOPIC: nat := 64
  /** The header bytes that a write fills in; the reserved rest is left as it was. */
  const WRITTEN: nat := 84

  function Bits(data: seq<byte>): (r: seq<bv8>)
    ensures |r| == |data|
  {
    seq(|data|, i requires 0 <= i < |data| => ToByte(data[i]))
  }

  function Checksum(data: seq<byte>): (c: nat)
    ensures c < 0x1_0000_0000
  {
    Crc32.Crc(Bits(data)) as nat
  }

  function HeaderBytes(sequence: nat, topic: seq<byte>, data: seq<byte>): (h: seq<byte>)
    ensures |h| == WRITTEN
  {
    Le(MAGIC, 4) + Le(|data|, 4) + Le(sequence, 8) + Le(Checksum(data), 4) + CField(topic, TOPIC)
  }

  function Total(data: seq<byte>): nat { HEADER + |data| }

  ghost predicate BlockAt(mem: seq<byte>, at: nat, sequence: nat, topic: seq<byte>, data: seq<byte>) {
    && at + Total(data) <= |mem|
    && mem[at..at + WRITTEN] == HeaderBytes(sequence, topic, data)
    && mem[at + HEADER..at + HEADER + |data|] == data
  }

  function MagicAt(mem: seq<byte>, at: nat): nat requires at + HEADER <= |mem| { FromLe(mem[at..at + 4]) }
  function SizeAt(mem: seq<byte>, at: nat): nat requires at + HEADER <= |mem| { FromLe(mem[at + 4..at + 8]) }
  function SequenceAt(mem: seq<byte>, at: nat): nat requires at + HEADER <= |mem| { FromLe(mem[at + 8..at + 16]) }
  function CrcAt(mem: seq<byte>, at: nat): nat requires at + HEADER <= |mem| { FromLe(mem[at + 16..at + 20]) }
  function TopicAt(mem: seq<byte>, at: nat): seq<byte> requires at + HEADER <= |mem| { UntilNul(mem[at + 20..at + 84]) }

  lemma HeaderFields(sequence: nat, topic: seq<byte>, data: seq<byte>)
    ensures var h := HeaderBytes(sequence, topic, data);
      && h[..4] == Le(MAGIC, 4) && h[4..8] == Le(|data|, 4) && h[8..16] == Le(sequence, 8)
      && h[16..20] == Le(Checksum(data), 4) && h[20..84] == CField(topic, TOPIC)
  {
    hide Le, Checksum, CField;
  }

  lemma Slices(mem: seq<byte>, at: nat, h: seq<byte>, lo: nat, hi: nat)
    requires at + |h| <= |mem| && mem[at..at + |h|] == h && lo <= hi <= |h|
    ensures mem[at + lo..at + hi] == h[lo..hi]
  {
    var part := mem[at + lo..at + hi];
    assert forall i :: 0 <= i < |part| ==> part[i] == mem[at..at + |h|][lo + i];
    assert part == h[lo..hi];
  }

  /** A reader gets back what was written: checksum, topic cut to 63 bytes, size and sequence as far as their fields hold them. */
  lemma DecodeBlock(mem: seq<byte>, at: nat, sequence: nat, topic: seq<byte>, data: seq<byte>)
    requires BlockAt(mem, at, sequence, topic, data)
    ensures MagicAt(mem, at) == MAGIC && SizeAt(mem, at) == |data| % 0x1_0000_0000 && CrcAt(mem, at) == Checksum(data)
    ensures SequenceAt(mem, at) == sequence % 0x1_0000_0000_0000_0000
    ensures TopicAt(mem, at) == Kept(topic, TOPIC)
  {
    hide Le, FromLe, Checksum, CField, Radix, HeaderBytes, UntilNul, Kept;
    var h := HeaderBytes(sequence, topic, data);
    HeaderFields(sequence, topic, data);
    Slices(mem, at, h, 0, 4);
    Slices(mem, at, h, 4, 8);
    Slices(mem, at, h, 8, 16);
    Slices(mem, at, h, 16, 20);
    Slices(mem, at, h, 20, 84);
    RadixValues();
    LeRoundTrip(MAGIC, 4);
    LeCut(|data|, 4);
    LeRoundTrip(Checksum(data), 4);
    LeCut(sequence, 8);
    CFieldRoundTrip(topic, TOPIC);
  }

  /** A block outlives stores to a disjoint range. */
  lemma BlockStable(mem: seq<byte>, mem': seq<byte>, at: nat, sequence: nat, topic: seq<byte>, data: seq<byte>)
    requires BlockAt(mem, at, sequence, topic, data) && |mem| == |mem'|
    requires forall i :: at <= i < at + Total(data) ==> mem'[i] == mem[i]
    ensures BlockAt(mem', at, sequence, topic, data)
  {
    hide HeaderBytes;
    assert mem'[at..at + WRITTEN] == mem[at..at + WRITTEN];
    assert mem'[at + HEADER..at + HEADER + |data|] == mem[at + HEADER..at + HEADER + |data|];
  }
}
