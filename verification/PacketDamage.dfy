/** Exactly which single damaged bytes of a message packet go unnoticed. */
module PacketDamage {
  import opened Bytes
  import opened Subsequence
  import opened Modular
  import opened Packet

  // ------------------------------------------------------------------ sums

  lemma {:induction false} SumBound(s: seq<byte>)
    ensures Sum(s) <= 255 * |s|
  {
    if s != [] { SumBound(Front(s)); }
  }

  lemma {:induction false} SumMore(s: seq<byte>, k: nat)
    requires k <= |s|
    ensures Sum(s[..k]) <= Sum(s)
    ensures forall j :: k <= j < |s| ==> Sum(s[..k]) + s[j] <= Sum(s)
    decreases |s| - k
  {
    if k == |s| {
      assert s[..k] == s;
    } else {
      SumLast(s, k);
      SumMore(s, k + 1);
    }
  }

  /** The sum of a C text notices a changed byte exactly up to its terminator. */
  lemma TextSum(f: seq<byte>, j: nat, b: byte)
    requires j < |f| && b != f[j]
    ensures Sum(UntilNul(f[j := b])) == Sum(UntilNul(f)) <==> j > |UntilNul(f)|
    ensures j > |UntilNul(f)| ==> UntilNul(f[j := b]) == UntilNul(f)
  {
    hide UntilNul, Sum;
    var u, f' := UntilNul(f), f[j := b];
    var k := |u|;
    if j > k {
      assert f'[..k] == u;
      StopsAtNul(f', k);
    } else if j == k {
      var u' := UntilNul(f');
      KeepsGoing(f', k);
      assert u'[..k] == u && u'[k] == b;
      SumMore(u', k);
    } else if b == 0 {
      assert f'[..j] == u[..j];
      StopsAtNul(f', j);
      SumMore(u, j);
    } else {
      assert u[j := b] == f'[..k];
      if k < |f| { assert f'[k] == f[k] == 0; }
      StopsAtNul(f', k);
      SumChanged(u, j, b);
    }
  }

  /** A text without a NUL up to and including position `k` goes beyond it. */
  lemma KeepsGoing(f: seq<byte>, k: nat)
    requires k < |f| && 0 !in f[..k] && f[k] != 0
    ensures |UntilNul(f)| > k && UntilNul(f)[..k + 1] == f[..k + 1]
  {
    hide UntilNul;
    var u := UntilNul(f);
    assert forall j :: 0 <= j < k ==> f[..k][j] != 0;
    assert |u| > k;
  }

  // ------------------------------------------------------------------ validation, field by field

  /** Everything isValid tests before the checksum. */
  predicate Clean(mem: seq<byte>) {
    && |mem| >= HEADER_SIZE && Field(mem, 0, 4) == MAGIC && Field(mem, 4, 2) == VERSION
    && GroupLen(mem) <= MAX_NAME && TopicLen(mem) <= MAX_NAME && PayloadLen(mem) <= MAX_PAYLOAD
    && DATA_AT + DataLen(mem) <= |mem|
  }

  /** What is summed, before it is cut to 32 bits. */
  function Total(mem: seq<byte>): nat
    requires Clean(mem)
  {
    FieldTotal(mem) + Sum(UntilNul(NodeField(mem))) + Sum(mem[DATA_AT..DATA_AT + DataLen(mem)])
  }

  lemma ParsedIff(mem: seq<byte>)
    ensures Parse(mem).Parsed? <==> Clean(mem) && Field(mem, CHECKSUM_AT, 4) == Wrap(Total(mem))
  {
    hide Field, Sum, UntilNul, Wrap;
  }

  lemma TotalBound(mem: seq<byte>)
    requires Clean(mem)
    ensures MAGIC <= Total(mem) < MAGIC + 0x200_0000
    ensures DataLen(mem) == GroupLen(mem) + TopicLen(mem) + PayloadLen(mem)
  {
    hide FromLe, Sum, UntilNul, Wrap;
    var id, d := UntilNul(NodeField(mem)), mem[DATA_AT..DATA_AT + DataLen(mem)];
    SumBound(id);
    SumBound(d);
    RadixValues();
    FromLeBound(mem[PORT_AT..PORT_AT + 2]);
  }

  lemma FieldChanges(mem: seq<byte>, i: nat, b: byte, at: nat, width: nat)
    requires i < |mem| && b != mem[i] && at + width <= |mem|
    ensures Field(mem[i := b], at, width) == Field(mem, at, width) <==> !(at <= i < at + width)
  {
    hide FromLe;
    var r := mem[i := b];
    if at <= i < at + width {
      assert r[at..at + width][i - at] != mem[at..at + width][i - at];
      if Field(r, at, width) == Field(mem, at, width) { FromLeInjective(r[at..at + width], mem[at..at + width]); }
    } else {
      assert r[at..at + width] == mem[at..at + width];
    }
  }

  lemma AllFields(mem: seq<byte>, i: nat, b: byte)
    requires |mem| >= HEADER_SIZE && i < |mem| && b != mem[i]
    ensures var r := mem[i := b];
      && (Field(r, 0, 4) == Field(mem, 0, 4) <==> i >= 4)
      && (Field(r, 4, 2) == Field(mem, 4, 2) <==> !(4 <= i < 6))
      && (GroupLen(r) == GroupLen(mem) <==> !(8 <= i < 10)) && (TopicLen(r) == TopicLen(mem) <==> !(10 <= i < 12))
      && (PayloadLen(r) == PayloadLen(mem) <==> !(12 <= i < 16))
      && (Field(r, CHECKSUM_AT, 4) == Field(mem, CHECKSUM_AT, 4) <==> !(16 <= i < 20))
      && (Field(r, PORT_AT, 2) == Field(mem, PORT_AT, 2) <==> !(84 <= i < 86))
  {
    hide Field;
    FieldChanges(mem, i, b, 0, 4);
    FieldChanges(mem, i, b, 4, 2);
    FieldChanges(mem, i, b, 8, 2);
    FieldChanges(mem, i, b, 10, 2);
    FieldChanges(mem, i, b, 12, 4);
    FieldChanges(mem, i, b, 16, 4);
    FieldChanges(mem, i, b, 84, 2);
  }

  // ------------------------------------------------------------------ which bytes are summed

  /** Bytes nothing depends on: the reserved one, the node id behind its terminator, and what follows the data. */
  predicate Idle(mem: seq<byte>, i: nat)
    requires Clean(mem)
  {
    || i == 7
    || NODE_AT + |UntilNul(NodeField(mem))| < i < PORT_AT
    || i >= DATA_AT + DataLen(mem)
  }

  /** A changed length field moves the sum of the data the same way. */
  lemma LengthsMove(mem: seq<byte>, r: seq<byte>)
    requires Clean(mem) && Clean(r) && |r| == |mem| && r[DATA_AT..] == mem[DATA_AT..]
    ensures DataLen(r) >= DataLen(mem) ==> Sum(r[DATA_AT..DATA_AT + DataLen(r)]) >= Sum(mem[DATA_AT..DATA_AT + DataLen(mem)])
    ensures DataLen(r) <= DataLen(mem) ==> Sum(r[DATA_AT..DATA_AT + DataLen(r)]) <= Sum(mem[DATA_AT..DATA_AT + DataLen(mem)])
  {
    hide Field, Sum, Wrap;
    var x, l, l' := mem[DATA_AT..], DataLen(mem), DataLen(r);
    assert mem[DATA_AT..DATA_AT + l] == x[..l] && r[DATA_AT..DATA_AT + l'] == x[..l'];
    if l <= l' {
      SumMore(x[..l'], l);
      assert x[..l'][..l] == x[..l];
    } else {
      SumMore(x[..l], l');
      assert x[..l][..l'] == x[..l'];
    }
  }

  /** A byte before the node id, or the port. */
  lemma HeaderByte(mem: seq<byte>, i: nat, b: byte)
    requires i < |mem| && b != mem[i] && Clean(mem) && Clean(mem[i := b]) && (i < 16 || PORT_AT <= i < DATA_AT)
    ensures Total(mem[i := b]) == Total(mem) <==> i == 7
  {
    hide Field, Sum, UntilNul, Wrap;
    var r := mem[i := b];
    AllFields(mem, i, b);
    assert NodeField(r) == NodeField(mem) && r[DATA_AT..] == mem[DATA_AT..];
    LengthsMove(mem, r);
    TotalBound(mem);
    TotalBound(r);
    if DataLen(r) == DataLen(mem) { assert r[DATA_AT..DATA_AT + DataLen(mem)] == mem[DATA_AT..DATA_AT + DataLen(mem)]; }
  }

  lemma NodeByte(mem: seq<byte>, i: nat, b: byte)
    requires Clean(mem) && NODE_AT <= i < PORT_AT && b != mem[i]
    ensures var r := mem[i := b];
      && Clean(r) && Field(r, CHECKSUM_AT, 4) == Field(mem, CHECKSUM_AT, 4)
      && (Total(r) == Total(mem) <==> Idle(mem, i)) && (Idle(mem, i) ==> UntilNul(NodeField(r)) == UntilNul(NodeField(mem)))
  {
    hide Field, Sum, UntilNul, Wrap;
    var r := mem[i := b];
    AllFields(mem, i, b);
    assert NodeField(r) == NodeField(mem)[i - NODE_AT := b];
    assert r[DATA_AT..DATA_AT + DataLen(mem)] == mem[DATA_AT..DATA_AT + DataLen(mem)];
    TextSum(NodeField(mem), i - NODE_AT, b);
  }

  lemma ChecksumByte(mem: seq<byte>, i: nat, b: byte)
    requires Clean(mem) && CHECKSUM_AT <= i < NODE_AT && b != mem[i]
    ensures var r := mem[i := b];
      Clean(r) && Total(r) == Total(mem) && Field(r, CHECKSUM_AT, 4) != Field(mem, CHECKSUM_AT, 4)
  {
    hide Field, Sum, UntilNul, Wrap;
    var r := mem[i := b];
    AllFields(mem, i, b);
    assert NodeField(r) == NodeField(mem) && r[DATA_AT..DATA_AT + DataLen(mem)] == mem[DATA_AT..DATA_AT + DataLen(mem)];
  }

  lemma DataByte(mem: seq<byte>, i: nat, b: byte)
    requires Clean(mem) && DATA_AT <= i < |mem| && b != mem[i]
    ensures var r := mem[i := b];
      && Clean(r) && Field(r, CHECKSUM_AT, 4) == Field(mem, CHECKSUM_AT, 4) && DataLen(r) == DataLen(mem)
      && (Total(r) == Total(mem) <==> Idle(mem, i))
  {
    hide Field, Sum, UntilNul, Wrap;
    var r, n := mem[i := b], DataLen(mem);
    AllFields(mem, i, b);
    assert NodeField(r) == NodeField(mem);
    var d := mem[DATA_AT..DATA_AT + n];
    if i < DATA_AT + n {
      assert r[DATA_AT..DATA_AT + n] == d[i - DATA_AT := b];
      SumChanged(d, i - DATA_AT, b);
    } else {
      assert r[DATA_AT..DATA_AT + n] == d;
    }
  }

  // ------------------------------------------------------------------ the theorem

  /**
   * Change any one byte of an accepted packet: it is still accepted exactly when nothing depends on
   * that byte, and then the same message is read from it.
   */
  lemma OneByteDamage(mem: seq<byte>, i: nat, b: byte)
    requires Parse(mem).Parsed? && i < |mem| && b != mem[i]
    ensures Clean(mem)
    ensures Parse(mem[i := b]).Parsed? <==> Idle(mem, i)
    ensures Idle(mem, i) ==> Parse(mem[i := b]) == Parse(mem)
  {
    hide Parse, Clean, Total, Idle, Field, Wrap;
    var r := mem[i := b];
    ParsedIff(mem);
    ParsedIff(r);
    Regions(mem, i, b);
    if Clean(r) {
      TotalBound(mem);
      TotalBound(r);
      if Total(r) != Total(mem) { CloseWraps(Total(mem), Total(r)); }
    }
    if Idle(mem, i) { SameMessage(mem, i, b); }
  }

  lemma Regions(mem: seq<byte>, i: nat, b: byte)
    requires Clean(mem) && i < |mem| && b != mem[i]
    ensures var r := mem[i := b];
      && (Idle(mem, i) ==> Clean(r))
      && (Clean(r) ==>
            if 16 <= i < 20 then !Idle(mem, i) && Total(r) == Total(mem) && Field(r, CHECKSUM_AT, 4) != Field(mem, CHECKSUM_AT, 4)
            else (Total(r) == Total(mem) <==> Idle(mem, i)) && Field(r, CHECKSUM_AT, 4) == Field(mem, CHECKSUM_AT, 4))
  {
    hide Field, Sum, UntilNul, Wrap, Total;
    var r := mem[i := b];
    AllFields(mem, i, b);
    if i < 16 || PORT_AT <= i < DATA_AT {
      if Clean(r) { HeaderByte(mem, i, b); }
    } else if i < 20 {
      ChecksumByte(mem, i, b);
    } else if i < PORT_AT {
      NodeByte(mem, i, b);
    } else {
      DataByte(mem, i, b);
    }
  }

  lemma SameMessage(mem: seq<byte>, i: nat, b: byte)
    requires i < |mem| && b != mem[i] && Parse(mem).Parsed? && Parse(mem[i := b]).Parsed? && Clean(mem) && Idle(mem, i)
    ensures Parse(mem[i := b]) == Parse(mem)
  {
    hide Field, Sum, UntilNul, Wrap, Checksum;
    var r := mem[i := b];
    AllFields(mem, i, b);
    TotalBound(mem);
    var g, t, p := GroupLen(mem), TopicLen(mem), PayloadLen(mem);
    var d, d' := mem[DATA_AT..], r[DATA_AT..];
    assert d'[..g] == d[..g] && d'[g..g + t] == d[g..g + t] && d'[g + t..g + t + p] == d[g + t..g + t + p];
    if NODE_AT <= i < PORT_AT { NodeByte(mem, i, b); } else { assert NodeField(r) == NodeField(mem); }
  }
}
