/** The message packet of include/nexus/core/Message.h on Linux, as bytes in memory. */
module Packet {
  import opened Bytes
  import opened Subsequence
  import opened Modular

  const MAGIC: nat := 0x4C52_5043
  const VERSION: nat := 1
  const MAX_NAME: nat := 128
  const MAX_PAYLOAD: nat := 65000
  const TWO16: nat := 0x1_0000

  const CHECKSUM_AT: nat := 16
  const NODE_AT: nat := 20
  const NODE_WIDTH: nat := 64
  const PORT_AT: nat := 84
  const DATA_AT: nat := 86
  /** The structure's size: its 86 bytes padded to a multiple of four. */
  const HEADER_SIZE: nat := 88

  const DATA: byte := 0
  const SERVICE_REGISTER: byte := 5
  const SERVICE_UNREGISTER: byte := 6
  const NODE_JOIN: byte := 7
  const NODE_LEAVE: byte := 8

  datatype Message = Message(kind: byte, node: Text, group: Text, topic: Text, payload: Text)

  type port = x: int | 0 <= x < 65536

  // ------------------------------------------------------------------ reading

  function Field(mem: seq<byte>, at: nat, width: nat): nat
    requires at + width <= |mem|
  {
    FromLe(mem[at..at + width])
  }

  function GroupLen(mem: seq<byte>): nat requires |mem| >= HEADER_SIZE { Field(mem, 8, 2) }

  function TopicLen(mem: seq<byte>): nat requires |mem| >= HEADER_SIZE { Field(mem, 10, 2) }

  function PayloadLen(mem: seq<byte>): nat requires |mem| >= HEADER_SIZE { Field(mem, 12, 4) }

  /** The lengths are added as 32-bit numbers. */
  function DataLen(mem: seq<byte>): nat
    requires |mem| >= HEADER_SIZE
  {
    Wrap(GroupLen(mem) + TopicLen(mem) + PayloadLen(mem))
  }

  function Sum(s: seq<byte>): nat { if s == [] then 0 else Sum(Front(s)) + Last(s) }

  function NodeField(mem: seq<byte>): seq<byte> requires |mem| >= HEADER_SIZE { mem[NODE_AT..NODE_AT + NODE_WIDTH] }

  function FieldTotal(mem: seq<byte>): nat
    requires |mem| >= HEADER_SIZE
  {
    Field(mem, 0, 4) + Field(mem, 4, 2) + mem[6] + GroupLen(mem) + TopicLen(mem) + PayloadLen(mem) + Field(mem, PORT_AT, 2)
  }

  function Checksum(mem: seq<byte>): (r: nat)
    requires |mem| >= HEADER_SIZE && DATA_AT + DataLen(mem) <= |mem|
    ensures r < TWO32
  {
    Wrap(FieldTotal(mem) + Sum(UntilNul(NodeField(mem))) + Sum(mem[DATA_AT..DATA_AT + DataLen(mem)]))
  }

  /** A 32-bit result. */
  function Wrap(n: nat): (r: nat)
    ensures r < TWO32 && r <= n && (n < TWO32 ==> r == n)
  {
    n % TWO32
  }

  /** What a 16-bit field keeps. */
  function Low16(n: nat): (r: nat)
    ensures r < TWO16 && r <= n && (n < TWO16 ==> r == n)
  {
    n % TWO16
  }

  lemma WrapAdd(a: nat, x: nat)
    ensures Wrap(Wrap(a) + x) == Wrap(a + x)
  {
  }

  /** The sum of the scalar fields in calculateChecksum. */
  method SumFields(mem: array<byte>) returns (sum: nat)
    requires mem.Length >= HEADER_SIZE
    ensures sum == Wrap(FieldTotal(mem[..]))
  {
    hide FromLe, Wrap, FieldTotal;
    var a, b, t := FromLe(mem[0..4]), FromLe(mem[4..6]), mem[6];
    var g, o, p, u := FromLe(mem[8..10]), FromLe(mem[10..12]), FromLe(mem[12..16]), FromLe(mem[84..86]);
    sum := Wrap(a);
    sum := Wrap(sum + b);
    sum := Wrap(sum + t);
    sum := Wrap(sum + g);
    sum := Wrap(sum + o);
    sum := Wrap(sum + p);
    sum := Wrap(sum + u);
    WrapAdd(a, b);
    WrapAdd(a + b, t);
    WrapAdd(a + b + t, g);
    WrapAdd(a + b + t + g, o);
    WrapAdd(a + b + t + g + o, p);
    WrapAdd(a + b + t + g + o + p, u);
    FieldTotalIs(mem[..], a, b, t, g, o, p, u);
  }

  lemma FieldTotalIs(m: seq<byte>, a: nat, b: nat, t: byte, g: nat, o: nat, p: nat, u: nat)
    requires |m| >= HEADER_SIZE && a == FromLe(m[0..4]) && b == FromLe(m[4..6]) && t == m[6]
    requires g == FromLe(m[8..10]) && o == FromLe(m[10..12]) && p == FromLe(m[12..16]) && u == FromLe(m[84..86])
    ensures FieldTotal(m) == a + b + t + g + o + p + u
  {
    hide FromLe;
  }

  /** calculateChecksum. */
  method CalculateChecksum(mem: array<byte>) returns (sum: nat)
    requires mem.Length >= HEADER_SIZE && DATA_AT + DataLen(mem[..]) <= mem.Length
    ensures sum == Checksum(mem[..])
  {
    hide FromLe, UntilNul, Wrap, FieldTotal, Sum;
    ghost var m := mem[..];
    sum := SumFields(mem);
    assert Sum([]) == 0 by { SumEmpty(); }
    ghost var id, base := NodeField(m), FieldTotal(m);
    var i := 0;
    while i < NODE_WIDTH && mem[NODE_AT + i] != 0
      invariant 0 <= i <= NODE_WIDTH && 0 !in id[..i]
      invariant sum == Wrap(base + Sum(id[..i]))
    {
      assert id[i] == mem[NODE_AT + i] && id[..i + 1] == id[..i] + [id[i]];
      WrapAdd(base + Sum(id[..i]), id[i]);
      sum := Wrap(sum + mem[NODE_AT + i]);
      SumLast(id, i);
      i := i + 1;
    }
    assert i < NODE_WIDTH ==> id[i] == 0;
    StopsAtNul(id, i);
    assert mem[8..10] == m[8..10] && mem[10..12] == m[10..12] && mem[12..16] == m[12..16];
    var total := Wrap(FromLe(mem[8..10]) + FromLe(mem[10..12]) + FromLe(mem[12..16]));
    assert total == DataLen(m);
    ghost var data := m[DATA_AT..DATA_AT + total];
    base := base + Sum(UntilNul(id));
    for k := 0 to total
      invariant sum == Wrap(base + Sum(data[..k]))
    {
      assert data[k] == mem[DATA_AT + k];
      WrapAdd(base + Sum(data[..k]), data[k]);
      sum := Wrap(sum + mem[DATA_AT + k]);
      SumLast(data, k);
    }
    assert data[..total] == data;
  }

  lemma SumEmpty()
    ensures Sum([]) == 0
  {
  }

  lemma SumLast(s: seq<byte>, k: nat)
    requires k < |s|
    ensures Sum(s[..k + 1]) == Sum(s[..k]) + s[k]
  {
    assert Front(s[..k + 1]) == s[..k];
  }

  lemma StopsAtNul(s: seq<byte>, i: nat)
    requires i <= |s| && 0 !in s[..i] && (i < |s| ==> s[i] == 0)
    ensures UntilNul(s) == s[..i]
  {
    hide UntilNul;
    var r := UntilNul(s);
    assert forall k :: 0 <= k < i ==> s[..i][k] != 0;
    assert forall k :: 0 <= k < |r| ==> s[k] == r[k] && r[k] != 0;
    assert |r| == i;
  }

  /** What the receiver makes of a packet; OverRead marks lengths that reach past what arrived. */
  datatype Outcome = Ignored | OverRead | Parsed(message: Message)

  /** The tests of processPacket and isValid, and the accessors. */
  function Parse(mem: seq<byte>): Outcome {
    if |mem| < HEADER_SIZE || Field(mem, 0, 4) != MAGIC || Field(mem, 4, 2) != VERSION then Ignored
    else if GroupLen(mem) > MAX_NAME || TopicLen(mem) > MAX_NAME || PayloadLen(mem) > MAX_PAYLOAD then Ignored
    else if DATA_AT + DataLen(mem) > |mem| then OverRead
    else if Field(mem, CHECKSUM_AT, 4) != Checksum(mem) then Ignored
    else
      var g, t, p := GroupLen(mem), TopicLen(mem), PayloadLen(mem);
      var data := mem[DATA_AT..];
      Parsed(Message(mem[6], UntilNul(NodeField(mem)), data[..g], data[g..g + t], data[g + t..g + t + p]))
  }

  predicate IsControlMessage(mem: seq<byte>) { |mem| >= 7 && mem[6] != DATA }

  // ------------------------------------------------------------------ building

  function Capacity(m: Message): nat { |m.group| + |m.topic| + |m.payload| }

  /** The variable part; group and topic lengths are cut to 16 bits before they are used as offsets. */
  function DataBytes(m: Message): (d: seq<byte>)
    ensures |d| == Capacity(m) + 2
  {
    var g, t := Low16(|m.group|), Low16(|m.topic|);
    Put(Put(Put(Zeros(Capacity(m) + 2), 0, m.group), g, m.topic), g + t, m.payload)
  }

  /** Everything before the checksum. */
  function Prefix(m: Message): (s: seq<byte>)
    ensures |s| == CHECKSUM_AT
  {
    Le(MAGIC, 4) + Le(VERSION, 2) + [m.kind, 0]
    + Le(Low16(|m.group|), 2) + Le(Low16(|m.topic|), 2) + Le(Wrap(|m.payload|), 4)
  }

  /** The packet with checksum zero. */
  function Blank(m: Message, udp: port): (s: seq<byte>)
    ensures |s| == HEADER_SIZE + Capacity(m)
  {
    Prefix(m) + Zeros(4) + CField(m.node, NODE_WIDTH) + Le(udp, 2) + DataBytes(m)
  }

  /** What the fields of a packet read, whatever its checksum field holds. */
  ghost predicate Reads(mem: seq<byte>, m: Message, udp: port) {
    && |mem| == HEADER_SIZE + Capacity(m)
    && Field(mem, 0, 4) == MAGIC && Field(mem, 4, 2) == VERSION && mem[6] == m.kind
    && GroupLen(mem) == Low16(|m.group|) && TopicLen(mem) == Low16(|m.topic|) && PayloadLen(mem) == Wrap(|m.payload|)
    && NodeField(mem) == CField(m.node, NODE_WIDTH) && Field(mem, PORT_AT, 2) == udp
    && mem[DATA_AT..] == DataBytes(m)
  }

  lemma SliceAt(pre: seq<byte>, x: seq<byte>, post: seq<byte>)
    ensures (pre + x + post)[|pre|..|pre| + |x|] == x
  {
  }

  lemma PrefixFields(m: Message)
    ensures var s := Prefix(m);
      && s[0..4] == Le(MAGIC, 4) && s[4..6] == Le(VERSION, 2) && s[6] == m.kind
      && s[8..10] == Le(Low16(|m.group|), 2) && s[10..12] == Le(Low16(|m.topic|), 2)
      && s[12..16] == Le(Wrap(|m.payload|), 4)
  {
    hide Le;
    var a, b, k := Le(MAGIC, 4), Le(VERSION, 2), [m.kind, 0];
    var g, t, p := Le(Low16(|m.group|), 2), Le(Low16(|m.topic|), 2), Le(Wrap(|m.payload|), 4);
    var s := Prefix(m);
    assert s == a + (b + k + g + t + p);
    assert s == a + b + (k + g + t + p);
    assert s[6] == k[0];
    assert s == (a + b + k) + g + (t + p);
    assert s == (a + b + k + g) + t + p;
    assert s == (a + b + k + g + t) + p;
  }

  lemma BlankReads(m: Message, udp: port)
    ensures Reads(Blank(m, udp), m, udp)
  {
    hide Le, FromLe, CField, Zeros, DataBytes, Prefix, Radix;
    var s := Blank(m, udp);
    PrefixFields(m);
    RadixValues();
    var a, z, n, u, d := Prefix(m), Zeros(4), CField(m.node, NODE_WIDTH), Le(udp, 2), DataBytes(m);
    assert s == a + (z + n + u + d);
    assert s[..16] == a;
    assert s[0..4] == a[0..4] && s[4..6] == a[4..6] && s[6] == a[6];
    assert s[8..10] == a[8..10] && s[10..12] == a[10..12] && s[12..16] == a[12..16];
    SliceAt(a + z, n, u + d);
    assert s == (a + z) + n + (u + d);
    SliceAt(a + z + n, u, d);
    assert s[DATA_AT..] == d;
    LeRoundTrip(MAGIC, 4);
    LeRoundTrip(VERSION, 2);
    LeRoundTrip(Low16(|m.group|), 2);
    LeRoundTrip(Low16(|m.topic|), 2);
    LeRoundTrip(Wrap(|m.payload|), 4);
    LeRoundTrip(udp, 2);
  }

  lemma DataFits(mem: seq<byte>, m: Message, udp: port)
    requires Reads(mem, m, udp)
    ensures DATA_AT + DataLen(mem) <= |mem|
  {
    hide FromLe, CField, DataBytes, Wrap, Low16;
  }

  function Built(m: Message, udp: port): (s: seq<byte>)
    ensures |s| == HEADER_SIZE + Capacity(m)
  {
    BlankReads(m, udp);
    DataFits(Blank(m, udp), m, udp);
    Put(Blank(m, udp), CHECKSUM_AT, Le(Checksum(Blank(m, udp)), 4))
  }

  /** The checksum field is not part of what is summed. */
  lemma ChecksumIgnoresItself(mem: seq<byte>, m: Message, udp: port, sum: seq<byte>)
    requires Reads(mem, m, udp) && |sum| == 4
    ensures Reads(Put(mem, CHECKSUM_AT, sum), m, udp)
    ensures DATA_AT + DataLen(mem) <= |mem| && DATA_AT + DataLen(Put(mem, CHECKSUM_AT, sum)) <= |mem|
    ensures Checksum(Put(mem, CHECKSUM_AT, sum)) == Checksum(mem)
  {
    hide FromLe, CField, DataBytes, Put, UntilNul, Sum;
    var r := Put(mem, CHECKSUM_AT, sum);
    assert r[0..4] == mem[0..4] && r[4..6] == mem[4..6] && r[6] == mem[6];
    assert r[8..10] == mem[8..10] && r[10..12] == mem[10..12] && r[12..16] == mem[12..16];
    assert NodeField(r) == NodeField(mem) && r[84..86] == mem[84..86] && r[DATA_AT..] == mem[DATA_AT..];
    DataFits(mem, m, udp);
    DataFits(r, m, udp);
    assert r[DATA_AT..DATA_AT + DataLen(mem)] == r[DATA_AT..][..DataLen(mem)];
    assert mem[DATA_AT..DATA_AT + DataLen(mem)] == mem[DATA_AT..][..DataLen(mem)];
  }

  lemma BuiltReads(m: Message, udp: port)
    ensures var s := Built(m, udp);
      && Reads(s, m, udp) && DATA_AT + DataLen(s) <= |s| && Field(s, CHECKSUM_AT, 4) == Checksum(s)
  {
    hide Reads, Blank, Checksum, Put, Le, FromLe, Radix, DataLen;
    var b := Blank(m, udp);
    BlankReads(m, udp);
    DataFits(b, m, udp);
    ChecksumIgnoresItself(b, m, udp, Le(Checksum(b), 4));
    RadixValues();
    LeRoundTrip(Checksum(b), 4);
  }

  // ------------------------------------------------------------------ round trip

  predicate LengthsFit(m: Message) { |m.group| <= MAX_NAME && |m.topic| <= MAX_NAME && |m.payload| <= MAX_PAYLOAD }

  predicate NodeFits(m: Message) { 0 !in m.node && |m.node| < NODE_WIDTH }

  /** A built packet is accepted exactly when its lengths, as far as their fields hold them, are within the limits. */
  lemma BuiltIsAccepted(m: Message, udp: port)
    ensures Parse(Built(m, udp)).Parsed? <==>
      Low16(|m.group|) <= MAX_NAME && Low16(|m.topic|) <= MAX_NAME && Wrap(|m.payload|) <= MAX_PAYLOAD
    ensures !Parse(Built(m, udp)).OverRead?
  {
    hide Built, Checksum, FromLe, UntilNul, CField, DataBytes, Wrap, Low16;
    BuiltReads(m, udp);
  }

  lemma DataInOrder(m: Message)
    requires LengthsFit(m)
    ensures DataBytes(m) == m.group + m.topic + m.payload + [0, 0]
  {
    hide Low16;
  }

  lemma DataParts(m: Message)
    requires LengthsFit(m)
    ensures var d, g, t := DataBytes(m), |m.group|, |m.topic|;
      d[..g] == m.group && d[g..g + t] == m.topic && d[g + t..g + t + |m.payload|] == m.payload
  {
    hide DataBytes;
    DataInOrder(m);
    var g, t, p := m.group, m.topic, m.payload;
    assert g + t + p + [0, 0] == g + t + (p + [0, 0]) == g + (t + p + [0, 0]);
    SliceAt(g, t, p + [0, 0]);
    SliceAt(g + t, p, [0, 0]);
  }

  /** A packet is handed on as it was built exactly when it is within the limits and its node id survives its field. */
  lemma PacketRoundTrip(m: Message, udp: port)
    ensures Parse(Built(m, udp)) == Parsed(m) <==> LengthsFit(m) && NodeFits(m)
  {
    hide Built, Checksum, FromLe, UntilNul, CField, DataBytes, Wrap, Low16;
    BuiltReads(m, udp);
    CFieldRoundTrip(m.node, NODE_WIDTH);
    if LengthsFit(m) {
      DataParts(m);
    }
  }

  /** What is certain about every accepted packet, whatever it was built from. */
  lemma AcceptedParts(m: Message, udp: port)
    requires Parse(Built(m, udp)).Parsed?
    ensures var r := Parse(Built(m, udp)).message;
      && r.kind == m.kind && r.node == Kept(m.node, NODE_WIDTH) && (r.node == m.node <==> NodeFits(m))
      && |r.group| == Low16(|m.group|) <= MAX_NAME && |r.topic| == Low16(|m.topic|) <= MAX_NAME
      && |r.payload| == Wrap(|m.payload|) <= MAX_PAYLOAD
  {
    hide Built, Checksum, FromLe, UntilNul, CField, DataBytes, Wrap, Low16, Kept;
    BuiltReads(m, udp);
    CFieldRoundTrip(m.node, NODE_WIDTH);
  }

  /** The receive path can tell control packets from data packets by one byte. */
  lemma ControlIffNotData(m: Message, udp: port)
    ensures IsControlMessage(Built(m, udp)) <==> m.kind != DATA
  {
    hide Built, Checksum, FromLe, UntilNul, CField, DataBytes, DataLen;
    BuiltReads(m, udp);
  }

  // ------------------------------------------------------------------ a damaged byte

  lemma {:induction false} SumChanged(s: seq<byte>, i: nat, b: byte)
    requires i < |s|
    ensures Sum(s[i := b]) == Sum(s) - s[i] + b
  {
    if i == |s| - 1 {
      assert Front(s[i := b]) == Front(s);
    } else {
      SumChanged(Front(s), i, b);
      assert Front(s[i := b]) == Front(s)[i := b];
    }
  }

  /** The header does not see a change in the data. */
  lemma HeaderUnchanged(mem: seq<byte>, i: nat, b: byte)
    requires |mem| >= HEADER_SIZE && DATA_AT <= i < |mem|
    ensures var r := mem[i := b];
      && Field(r, 0, 4) == Field(mem, 0, 4) && Field(r, 4, 2) == Field(mem, 4, 2)
      && GroupLen(r) == GroupLen(mem) && TopicLen(r) == TopicLen(mem) && PayloadLen(r) == PayloadLen(mem)
      && Field(r, CHECKSUM_AT, 4) == Field(mem, CHECKSUM_AT, 4)
      && NodeField(r) == NodeField(mem) && FieldTotal(r) == FieldTotal(mem)
  {
    hide FromLe;
    var r := mem[i := b];
    assert r[0..4] == mem[0..4] && r[4..6] == mem[4..6] && r[6] == mem[6];
    assert r[8..10] == mem[8..10] && r[10..12] == mem[10..12] && r[12..16] == mem[12..16];
    assert r[16..20] == mem[16..20] && r[84..86] == mem[84..86];
  }

  /** Changing any one byte of group, topic or payload makes an accepted packet be refused. */
  lemma DamageIsDetected(mem: seq<byte>, i: nat, b: byte)
    requires Parse(mem).Parsed? && DATA_AT <= i < DATA_AT + DataLen(mem) && b != mem[i]
    ensures Parse(mem[i := b]) == Ignored
  {
    hide Field, FieldTotal, GroupLen, TopicLen, PayloadLen, NodeField, UntilNul, Sum, Wrap;
    var r, n := mem[i := b], DataLen(mem);
    HeaderUnchanged(mem, i, b);
    var d := mem[DATA_AT..DATA_AT + n];
    assert r[DATA_AT..DATA_AT + n] == d[i - DATA_AT := b];
    SumChanged(d, i - DATA_AT, b);
    var base := FieldTotal(mem) + Sum(UntilNul(NodeField(mem)));
    CloseWraps(base + Sum(d), base + Sum(d) - d[i - DATA_AT] + b);
  }

  lemma CloseWraps(x: nat, y: nat)
    requires x != y && x - y < TWO32 && y - x < TWO32
    ensures Wrap(x) != Wrap(y)
  {
    assert x == TWO32 * (x / TWO32) + Wrap(x);
    assert y == TWO32 * (y / TWO32) + Wrap(y);
  }

  // ------------------------------------------------------------------ MessageBuilder::build

  lemma PutParts(mem: seq<byte>, at: nat, f: seq<byte>)
    requires at + |f| <= |mem|
    ensures Put(mem, at, f)[..at] == mem[..at] && Put(mem, at, f)[..at + |f|] == mem[..at] + f
    ensures Put(mem, at, f)[at + |f|..] == mem[at + |f|..]
  {
  }

  method WritePrefix(buffer: array<byte>, m: Message)
    requires buffer.Length >= HEADER_SIZE
    modifies buffer
    ensures buffer[..CHECKSUM_AT] == Prefix(m) && buffer[CHECKSUM_AT..] == old(buffer[CHECKSUM_AT..])
  {
    hide Le, Put;
    ghost var s0 := buffer[..];
    CopyInto(buffer, 0, Le(MAGIC, 4));
    ghost var s1 := buffer[..];
    PutParts(s0, 0, Le(MAGIC, 4));
    CopyInto(buffer, 4, Le(VERSION, 2));
    ghost var s2 := buffer[..];
    PutParts(s1, 4, Le(VERSION, 2));
    CopyInto(buffer, 6, [m.kind, 0]);
    ghost var s3 := buffer[..];
    PutParts(s2, 6, [m.kind, 0]);
    CopyInto(buffer, 8, Le(Low16(|m.group|), 2));
    ghost var s4 := buffer[..];
    PutParts(s3, 8, Le(Low16(|m.group|), 2));
    CopyInto(buffer, 10, Le(Low16(|m.topic|), 2));
    ghost var s5 := buffer[..];
    PutParts(s4, 10, Le(Low16(|m.topic|), 2));
    CopyInto(buffer, 12, Le(Wrap(|m.payload|), 4));
    PutParts(s5, 12, Le(Wrap(|m.payload|), 4));
    assert s5[16..] == s0[16..];
    assert buffer[..][..16] == buffer[..16] && buffer[..][16..] == buffer[16..];
  }

  lemma PutTail(mem: seq<byte>, base: nat, at: nat, f: seq<byte>)
    requires base + at + |f| <= |mem|
    ensures Put(mem, base + at, f)[base..] == Put(mem[base..], at, f) && Put(mem, base + at, f)[..base] == mem[..base]
  {
  }

  lemma DataStored(m: Message, s0: seq<byte>, s1: seq<byte>, s2: seq<byte>, s3: seq<byte>)
    requires |s0| == HEADER_SIZE + Capacity(m) && s0[DATA_AT..] == Zeros(Capacity(m) + 2)
    requires s1 == Put(s0, DATA_AT, m.group)
    requires s2 == Put(s1, DATA_AT + Low16(|m.group|), m.topic)
    requires s3 == Put(s2, DATA_AT + Low16(|m.group|) + Low16(|m.topic|), m.payload)
    ensures s3[..DATA_AT] == s0[..DATA_AT] && s3[DATA_AT..] == DataBytes(m)
  {
    hide Put, Zeros, Low16, DataBytes;
    var g, t := Low16(|m.group|), Low16(|m.topic|);
    NextPart(s0, s1, 0, m.group, Zeros(Capacity(m) + 2));
    NextPart(s1, s2, g, m.topic, s1[DATA_AT..]);
    NextPart(s2, s3, g + t, m.payload, s2[DATA_AT..]);
    DataBytesIs(m, s1[DATA_AT..], s2[DATA_AT..], s3[DATA_AT..]);
  }

  lemma DataBytesIs(m: Message, d1: seq<byte>, d2: seq<byte>, d3: seq<byte>)
    requires d1 == Put(Zeros(Capacity(m) + 2), 0, m.group)
    requires Low16(|m.group|) + |m.topic| <= |d1| && d2 == Put(d1, Low16(|m.group|), m.topic)
    requires Low16(|m.group|) + Low16(|m.topic|) + |m.payload| <= |d2|
    requires d3 == Put(d2, Low16(|m.group|) + Low16(|m.topic|), m.payload)
    ensures d3 == DataBytes(m)
  {
    hide Put, Zeros, Low16;
  }

  lemma NextPart(s: seq<byte>, s': seq<byte>, at: nat, f: seq<byte>, d: seq<byte>)
    requires |s| >= DATA_AT && s[DATA_AT..] == d && at + |f| <= |d| && s' == Put(s, DATA_AT + at, f)
    ensures s'[DATA_AT..] == Put(d, at, f) && s'[..DATA_AT] == s[..DATA_AT]
  {
    hide Put;
    PutTail(s, DATA_AT, at, f);
  }

  method WriteData(buffer: array<byte>, m: Message)
    requires buffer.Length == HEADER_SIZE + Capacity(m) && buffer[DATA_AT..] == Zeros(Capacity(m) + 2)
    modifies buffer
    ensures buffer[..DATA_AT] == old(buffer[..DATA_AT]) && buffer[DATA_AT..] == DataBytes(m)
  {
    hide Put, Zeros, Low16, DataBytes;
    var g, t := Low16(|m.group|), Low16(|m.topic|);
    ghost var s0 := buffer[..];
    CopyInto(buffer, DATA_AT, m.group);
    ghost var s1 := buffer[..];
    CopyInto(buffer, DATA_AT + g, m.topic);
    ghost var s2 := buffer[..];
    CopyInto(buffer, DATA_AT + g + t, m.payload);
    DataStored(m, s0, s1, s2, buffer[..]);
  }

  method Build(m: Message, udp: port) returns (buffer: array<byte>)
    ensures fresh(buffer) && buffer[..] == Built(m, udp)
  {
    hide Le, Put, Prefix, DataBytes, CField, Zeros, Checksum, Built;
    buffer := new byte[HEADER_SIZE + Capacity(m)](_ => 0);
    assert buffer[16..] == Zeros(buffer.Length - 16);
    WritePrefix(buffer, m);
    ghost var s1 := buffer[..];
    assert s1[16..] == buffer[16..] == Zeros(buffer.Length - 16);
    assert s1[16..20] == s1[16..][..4] == Zeros(4) && s1[20..] == s1[16..][4..] == Zeros(buffer.Length - 20);
    CopyInto(buffer, PORT_AT, Le(udp, 2));
    ghost var s2 := buffer[..];
    CopyInto(buffer, NODE_AT, CField(m.node, NODE_WIDTH));
    ghost var s3 := buffer[..];
    HeaderParts(m, udp, s1, s2, s3);
    WriteData(buffer, m);
    ghost var s4 := buffer[..];
    assert s4 == s4[..DATA_AT] + s4[DATA_AT..] == Blank(m, udp);
    BlankReads(m, udp);
    DataFits(s4, m, udp);
    var sum := CalculateChecksum(buffer);
    CopyInto(buffer, CHECKSUM_AT, Le(sum, 4));
    BuiltIs(m, udp);
  }

  lemma BuiltIs(m: Message, udp: port)
    ensures var b := Blank(m, udp);
      && DATA_AT + DataLen(b) <= |b|
      && Built(m, udp) == Put(b, CHECKSUM_AT, Le(Checksum(b), 4))
  {
    hide Blank, Checksum, Put, Le, Reads, DataLen;
    BlankReads(m, udp);
    DataFits(Blank(m, udp), m, udp);
  }

  /** The header after its prefix, port and node id are stored. */
  lemma HeaderParts(m: Message, udp: port, s1: seq<byte>, s2: seq<byte>, s3: seq<byte>)
    requires |s1| == HEADER_SIZE + Capacity(m)
    requires s1[..16] == Prefix(m) && s1[16..20] == Zeros(4) && s1[20..] == Zeros(|s1| - 20)
    requires s2 == Put(s1, PORT_AT, Le(udp, 2)) && s3 == Put(s2, NODE_AT, CField(m.node, NODE_WIDTH))
    ensures s3[..DATA_AT] == Prefix(m) + Zeros(4) + CField(m.node, NODE_WIDTH) + Le(udp, 2)
    ensures s3[DATA_AT..] == Zeros(Capacity(m) + 2)
  {
    hide Le, Put, Prefix, CField, Zeros;
    PutParts(s1, PORT_AT, Le(udp, 2));
    PutParts(s2, NODE_AT, CField(m.node, NODE_WIDTH));
    assert s3[..20] == s2[..84][..20] == s1[..84][..20] == s1[..16] + s1[16..20];
    assert s3[84..] == s2[84..] && s2[84..86] == Le(udp, 2);
    assert s3[..86] == s3[..84] + s3[84..][..2];
    assert s3[86..] == s2[86..] == s1[86..] == s1[20..][66..];
    assert Zeros(|s1| - 20)[66..] == Zeros(Capacity(m) + 2);
  }
}
