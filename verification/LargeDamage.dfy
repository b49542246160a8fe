/** What tryRead of the large-data channel accepts, and that it refuses damaged payloads. */
module LargeDamage {
  import opened Bytes
  import opened LargeBlock
  import opened LargeChannel
  import opened LargeRuns
  import opened LargeProofs
  import opened BitVectors
  import Crc32

  // ------------------------------------------------------------------ what is accepted

  /** The payload that a header at `at` with size field `size` stands before. */
  function PayloadAt(mem: seq<byte>, at: nat, size: nat): seq<byte>
    requires at + HEADER + size <= |mem|
  {
    mem[at + HEADER..at + HEADER + size]
  }

  /**
   * A read succeeds exactly when the header lies in the buffer and carries the magic, its size is
   * within the reader's limit, within what was published and within the buffer, and its CRC field
   * is the CRC-32 of the payload; it then hands out just that payload and the header's fields.
   */
  lemma SuccessIff(mem: seq<byte>, at: nat, available: nat, limit: nat)
    ensures Inspect(mem, at, available, limit).Success? <==>
      && at + HEADER <= |mem| && FromLe(mem[at..at + 4]) == MAGIC
      && var size := FromLe(mem[at + 4..at + 8]);
         && size <= limit && HEADER + size <= available && at + HEADER + size <= |mem|
         && FromLe(mem[at + 16..at + 20]) == Crc32.Crc(Bits(PayloadAt(mem, at, size))) as nat
    ensures var o := Inspect(mem, at, available, limit);
      o.Success? ==>
        && o.sequence == FromLe(mem[at + 8..at + 16]) && o.topic == UntilNul(mem[at + 20..at + 84])
        && o.data == PayloadAt(mem, at, FromLe(mem[at + 4..at + 8]))
  {
    hide FromLe, UntilNul, Crc32.Crc;
  }

  /** Why a read fails: a header without the magic or not yet published in full is waited for, one that is too large or damaged is stepped over. */
  lemma FailureKinds(mem: seq<byte>, at: nat, available: nat, limit: nat)
    requires at + HEADER <= |mem|
    ensures var o, size := Inspect(mem, at, available, limit), FromLe(mem[at + 4..at + 8]);
      && (o == InvalidMagic <==> FromLe(mem[at..at + 4]) != MAGIC)
      && (o == SizeExceeded <==> FromLe(mem[at..at + 4]) == MAGIC && size > limit)
      && (o == Insufficient <==> FromLe(mem[at..at + 4]) == MAGIC && size <= limit && HEADER + size > available)
      && (o == CrcError ==>
            && at + HEADER + size <= |mem|
            && FromLe(mem[at + 16..at + 20]) != Crc32.Crc(Bits(PayloadAt(mem, at, size))) as nat)
  {
    hide FromLe, UntilNul, Crc32.Crc;
  }

  /** The cursor of an active reader moves, by a header, exactly when the read is a CRC error or exceeds the limit. */
  lemma WaitsOrSteps(c: Chan, i: nat, limit: nat, now: nat)
    requires i < |c.slots| && c.slots[i].active
    ensures var o, pos, pos' := ReadOutcome(c, i, limit), c.slots[i].readPos, TryRead(c, i, limit, now).slots[i].readPos;
      && (o == CrcError || o == SizeExceeded ==> pos' == pos + 128)
      && (o.NoData? || o == InvalidMagic || o == Insufficient || o == Outside || o.Success? ==> pos' == pos)
  {
    hide ReadOutcome, MinReadPos;
    CatchUpNeverFires(c, i);
  }

  /** A reader that has lost its slot, and only such a one, is moved up to what the active readers still need. */
  lemma RetiredCatchesUp(c: Chan, i: nat, limit: nat, now: nat)
    requires i < |c.slots| && !c.slots[i].active
    ensures var pos := TryRead(c, i, limit, now).slots[i].readPos;
      && pos >= c.slots[i].readPos
      && (pos >= c.writePos || exists j :: 0 <= j < |c.slots| && c.slots[j].active && pos >= c.slots[j].readPos)
  {
    hide ReadOutcome;
  }

  // ------------------------------------------------------------------ damage

  /** `a` and `b` differ, but only within four consecutive bytes. */
  ghost predicate BurstApart(a: seq<byte>, b: seq<byte>) {
    |a| == |b| && a != b && exists i: nat :: SameOutside(a, b, i)
  }

  ghost predicate SameOutside(a: seq<byte>, b: seq<byte>, i: nat)
    requires |a| == |b|
  {
    forall j :: 0 <= j < |a| && !(i <= j < i + 4) ==> a[j] == b[j]
  }

  lemma BitsInjective(a: seq<byte>, b: seq<byte>)
    requires |a| == |b| && Bits(a) == Bits(b)
    ensures a == b
  {
    hide ToByte;
    forall i | 0 <= i < |a| ensures a[i] == b[i] {
      assert Bits(a)[i] == Bits(b)[i];
      ByteBack(a[i]);
      ByteBack(b[i]);
    }
  }

  lemma BurstChangesChecksum(a: seq<byte>, b: seq<byte>)
    requires BurstApart(a, b)
    ensures Checksum(a) != Checksum(b)
  {
    hide Crc32.Crc;
    var i: nat :| SameOutside(a, b, i);
    if Bits(a) == Bits(b) { BitsInjective(a, b); }
    Crc32.BurstDetected(Bits(a), Bits(b), i);
    WordsDiffer(Crc32.Crc(Bits(a)), Crc32.Crc(Bits(b)));
    assert Checksum(a) == ToNat(Crc32.Crc(Bits(a))) && Checksum(b) == ToNat(Crc32.Crc(Bits(b)));
  }

  /** The memory with the payload behind the header at `at` replaced. */
  function Damaged(mem: seq<byte>, at: nat, payload: seq<byte>): seq<byte>
    requires at + HEADER + |payload| <= |mem|
  {
    Put(mem, at + HEADER, payload)
  }

  lemma DamagedInspect(mem: seq<byte>, at: nat, available: nat, limit: nat, k: nat, b: Published, payload: seq<byte>)
    requires BlockAt(mem, at, k, b.topic, b.data) && BurstApart(b.data, payload)
    requires Total(b.data) <= available && |b.data| <= limit && |b.data| < 0x1_0000_0000
    ensures Inspect(Damaged(mem, at, payload), at, available, limit) == CrcError
  {
    hide HeaderBytes, Checksum, Put, MagicAt, SizeAt, CrcAt, TopicAt, SequenceAt, Kept;
    var r := Damaged(mem, at, payload);
    BurstChangesChecksum(b.data, payload);
    DecodeBlock(mem, at, k, b.topic, b.data);
    HeaderKept(mem, at, payload);
    assert r[at + HEADER..at + HEADER + |payload|] == payload;
  }

  lemma HeaderKept(mem: seq<byte>, at: nat, payload: seq<byte>)
    requires at + HEADER + |payload| <= |mem|
    ensures var r := Damaged(mem, at, payload);
      MagicAt(r, at) == MagicAt(mem, at) && SizeAt(r, at) == SizeAt(mem, at) && CrcAt(r, at) == CrcAt(mem, at)
  {
    hide FromLe, Put;
    var r := Damaged(mem, at, payload);
    assert r[at..at + 4] == mem[at..at + 4] && r[at + 4..at + 8] == mem[at + 4..at + 8] && r[at + 16..at + 20] == mem[at + 16..at + 20];
  }

  /**
   * A published block whose payload is damaged within any four consecutive bytes is never
   * delivered: the reader that stands on it is told of a CRC error, and moves on by the header
   * alone.
   */
  lemma DamageIsNeverDelivered(s: Sys, i: nat, payload: seq<byte>, limit: nat, now: nat)
    requires Inv(s) && i < MAX_READERS && s.c.slots[i].active && s.cur[i].next < |s.log|
    requires BurstApart(s.log[s.cur[i].next].data, payload) && |payload| <= limit
    ensures var b := s.log[s.cur[i].next];
      && s.c.cap > 0 && b.start % s.c.cap + HEADER + |payload| <= |s.c.mem|
      && var c := s.c.(mem := Damaged(s.c.mem, b.start % s.c.cap, payload));
         && ReadOutcome(c, i, limit) == CrcError
         && TryRead(c, i, limit, now).slots[i].readPos == s.c.slots[i].readPos + HEADER
  {
    hide BlockAt, Inspect, BurstApart, Put;
    var k := s.cur[i].next;
    var b := s.log[k];
    assert |b.data| == |payload| by { BurstLength(b.data, payload); }
    assert ReaderOk(s.c.cap, s.c.writePos, s.log, s.lap, s.c.slots[i], s.cur[i]);
    assert BlockOk(s.c.cap, s.c.writePos, s.log, s.lap, s.writerMax, k);
    var at := b.start % s.c.cap;
    assert BlockAt(s.c.mem, at, k, b.topic, b.data);
    var c := s.c.(mem := Damaged(s.c.mem, at, payload));
    CatchUpNeverFires(c, i);
    DamagedInspect(s.c.mem, at, s.c.writePos - b.start, limit, k, b, payload);
  }

  lemma BurstLength(a: seq<byte>, b: seq<byte>)
    requires BurstApart(a, b)
    ensures |a| == |b|
  {
  }

  // ------------------------------------------------------------------ a refused write

  /** A write that is refused leaves everything but the readers it retires and, under DROP_NEWEST, the drop counter. */
  lemma RefusedWrite(c: Chan, topic: seq<byte>, data: seq<byte>, maxBlock: nat, last: nat, now: nat, alive: set<int>)
    requires Shape(c) && !Accepts(c, |data|, maxBlock, last, now, alive)
    ensures var c' := Write(c, topic, data, maxBlock, last, now, alive);
      && c'.mem == c.mem && c'.writePos == c.writePos && c'.sequence == c.sequence && c'.cap == c.cap
      && c'.slots == (if |data| <= maxBlock then Cleanup(c, last, now, alive).slots else c.slots)
      && c'.dropped == c.dropped + (if |data| <= maxBlock && c.dropNewest then 1 else 0)
  {
  }

  /**
   * An accepted write that fits before the end of the buffer leaves every reader where it is; one
   * that does not moves exactly the active readers that are behind to the start of the new block.
   */
  lemma ReadersAfterWrite(c: Chan, topic: seq<byte>, data: seq<byte>, i: nat)
    requires Shape(c) && HasRoom(c, |data|) && i < MAX_READERS && c.cap > 0
    ensures var s, s', c' := c.slots[i], Append(c, topic, data).slots[i], Append(c, topic, data);
      && s' == s.(readPos := s'.readPos)
      && (c.writePos % c.cap + 128 + |data| <= c.cap || !s.active ==> s' == s)
      && (c.writePos % c.cap + 128 + |data| > c.cap && s.active && s.readPos <= c.writePos ==>
            s'.readPos == c'.writePos - 128 - |data| > c.writePos)
  {
    hide MinReadPos, Stored;
  }

  // ------------------------------------------------------------------ who is retired

  /** Exactly the active readers whose process is gone, or that have not read for more than 60 seconds, lose their slot. */
  lemma RetiredIff(c: Chan, last: nat, now: nat, alive: set<int>, i: nat)
    requires Shape(c) && i < MAX_READERS && last <= now < TWO64 && c.slots[i].heartbeat <= now
    ensures var s, s' := c.slots[i], Cleanup(c, last, now, alive).slots[i];
      && (s.active && !s'.active <==>
            s.active && now - last >= 30 && (s.pid <= 0 || s.pid !in alive || now - s.heartbeat > 60))
      && s' == s.(active := s'.active) && (s'.active ==> s.active)
  {
  }

  /** `a` neither unregisters reader `i` nor is a write by whose clock and process list it is stale. */
  predicate Lets(s: Sys, i: nat, a: Action) {
    i < |s.c.slots| &&
    match a
    case AWrite(_, _, last, now, alive) =>
      last <= now < TWO64 && s.c.slots[i].pid in alive && s.c.slots[i].heartbeat <= now <= s.c.slots[i].heartbeat + 60
    case AUnregister(j) => j != i
    case _ => true
  }

  lemma LetsKeep(s: Sys, i: nat, a: Action)
    requires Fit(s) && i < MAX_READERS && s.c.slots[i].active && s.c.slots[i].pid > 0 && Lets(s, i, a)
    ensures var s' := Step(s, a);
      && Fit(s') && s'.c.slots[i].active && s'.c.slots[i].pid == s.c.slots[i].pid
      && (a.ARead? && a.reader == i ==> s'.c.slots[i].heartbeat == a.when)
      && (!(a.ARead? && a.reader == i) ==> s'.c.slots[i].heartbeat == s.c.slots[i].heartbeat)
  {
    hide StaleCount, MinReadPos, Stored, Inspect, BlockStart, Offset, WrapsFor, HasRoom, Honoured;
    if a.AWrite? { RetiredIff(s.c, a.last, a.now, a.alive, i); }
  }

  /** A reader that lives and reads often enough keeps its slot through every run. */
  lemma {:induction false} LiveReaderStays(s: Sys, i: nat, schedule: seq<Action>)
    requires Fit(s) && i < MAX_READERS && s.c.slots[i].active && s.c.slots[i].pid > 0
    requires forall k :: 0 <= k < |schedule| ==> Lets(Run(s, schedule[..k]), i, schedule[k])
    ensures var s' := Run(s, schedule); Fit(s') && s'.c.slots[i].active && s'.c.slots[i].pid == s.c.slots[i].pid
  {
    hide Step, Lets;
    if schedule != [] {
      var n := |schedule| - 1;
      var front := schedule[..n];
      forall k | 0 <= k < n ensures Lets(Run(s, front[..k]), i, front[k]) {
        assert front[..k] == schedule[..k] && Lets(Run(s, schedule[..k]), i, schedule[k]);
      }
      LiveReaderStays(s, i, front);
      assert Lets(Run(s, schedule[..n]), i, schedule[n]);
      LetsKeep(Run(s, front), i, schedule[n]);
    }
  }
}
