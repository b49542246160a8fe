/** The large-data channel as the source runs it: in place, over the control block and the byte buffer. */
module LargeDataChannel {
  import opened Bytes
  import opened LargeBlock
  import C = LargeChannel
  import Crc32

  class Channel {
    const cap: nat
    const buffer: array<byte>
    const readers: array<C.Slot>
    const dropNewest: bool
    var writePos: nat
    var sequence: nat
    var numReaders: C.uint32
    var dropped: nat

    ghost predicate Valid() {
      buffer.Length == cap && readers.Length == C.MAX_READERS
    }

    ghost function View(): C.Chan
      reads this, buffer, readers
    {
      C.Chan(cap, buffer[..], writePos, sequence, readers[..], numReaders, dropNewest, dropped)
    }

    constructor (size: nat, dropNewest: bool)
      ensures Valid() && fresh(buffer) && fresh(readers) && cap == size
      ensures View() == C.Chan(size, buffer[..], 0, 0, seq(C.MAX_READERS, _ => C.Slot(false, 0, 0, 0)), 0, dropNewest, 0)
    {
      cap, buffer := size, new byte[size](_ => 0);
      readers := new C.Slot[C.MAX_READERS](_ => C.Slot(false, 0, 0, 0));
      this.dropNewest := dropNewest;
      writePos, sequence, numReaders, dropped := 0, 0, 0, 0;
    }

    method GetMinReadPos() returns (m: nat)
      requires Valid()
      ensures m == C.MinReadPos(readers[..], writePos)
    {
      m := writePos;
      for i := 0 to readers.Length
        invariant m == C.MinReadPos(readers[..i], writePos)
      {
        assert readers[..i + 1][..i] == readers[..i];
        if readers[i].active && readers[i].readPos < m {
          m := readers[i].readPos;
        }
      }
      assert readers[..readers.Length] == readers[..];
    }

    /** Retires readers that died or fell silent, at most once per interval and process; returns the new time of the last cleanup. */
    method CleanupDeadReaders(last: nat, now: nat, alive: set<int>) returns (last': nat)
      requires Valid()
      modifies this`numReaders, readers
      ensures View() == C.Cleanup(old(View()), last, now, alive)
      ensures last' == if C.CleanupDue(last, now) then now else last
    {
      if C.Elapsed(now, last) < C.CLEANUP_INTERVAL_S {
        return last;
      }
      last' := now;
      hide C.Less, C.Elapsed;
      C.LessStep(numReaders, 0);
      ghost var was := readers[..];
      for i := 0 to readers.Length
        invariant numReaders == C.Less(old(numReaders), C.StaleCount(was[..i], now, alive))
        invariant forall j :: 0 <= j < i ==> readers[j] == C.Retire(was[j], now, alive)
        invariant forall j :: i <= j < readers.Length ==> readers[j] == was[j]
      {
        assert was[..i + 1][..i] == was[..i];
        C.LessStep(old(numReaders), C.StaleCount(was[..i], now, alive));
        if readers[i].active {
          var dead := readers[i].pid <= 0 || readers[i].pid !in alive;
          var silent := C.Elapsed(now, readers[i].heartbeat) > C.READER_TIMEOUT_S;
          if dead || silent {
            readers[i] := readers[i].(active := false);
            numReaders := C.Less(numReaders, 1);
          }
        }
      }
      assert was[..readers.Length] == was;
      assert readers[..] == C.RetireAll(was, now, alive);
      assert buffer[..] == old(buffer[..]);
    }

    /** The wrap loop of write. */
    method MoveReaders(to: nat)
      requires Valid()
      modifies readers
      ensures readers[..] == C.MoveAll(old(readers[..]), to)
    {
      for i := 0 to readers.Length
        invariant forall j :: 0 <= j < i ==> readers[j] == C.Moved(old(readers[j]), to)
        invariant forall j :: i <= j < readers.Length ==> readers[j] == old(readers[j])
      {
        if readers[i].active && readers[i].readPos < to {
          readers[i] := readers[i].(readPos := to);
        }
      }
      assert readers[..] == C.MoveAll(old(readers[..]), to);
    }

    method StoreBlock(at: nat, seqno: nat, topic: seq<byte>, data: seq<byte>)
      requires Valid() && at + Total(data) <= cap
      modifies buffer
      ensures buffer[..] == C.Stored(old(buffer[..]), at, seqno, topic, data)
    {
      hide Put;
      var crc := Crc32.CalculateCRC32(Bits(data));
      var header := Le(MAGIC, 4) + Le(|data|, 4) + Le(seqno, 8) + Le(crc as nat, 4) + CField(topic, TOPIC);
      CopyInto(buffer, at, header);
      CopyInto(buffer, at + HEADER, data);
    }

    /** Publishes a block and returns its sequence number, or refuses with -1. */
    method Write(topic: seq<byte>, data: seq<byte>, maxBlock: nat, last: nat, now: nat, alive: set<int>)
      returns (r: int, last': nat)
      requires Valid()
      modifies this, buffer, readers
      ensures View() == C.Write(old(View()), topic, data, maxBlock, last, now, alive)
      ensures r == if C.Accepts(old(View()), |data|, maxBlock, last, now, alive) then old(sequence) else -1
      ensures last' == if |data| <= maxBlock && C.CleanupDue(last, now) then now else last
    {
      if |data| > maxBlock {
        return -1, last;
      }
      last' := CleanupDeadReaders(last, now, alive);
      var least := GetMinReadPos();
      if writePos - least + HEADER + |data| > cap {
        if dropNewest { dropped := dropped + 1; }
        return -1, last';
      }
      r := sequence;
      AppendBlock(topic, data);
    }

    method AppendBlock(topic: seq<byte>, data: seq<byte>)
      requires Valid() && C.HasRoom(View(), |data|)
      modifies this`writePos, this`sequence, buffer, readers
      ensures View() == C.Append(old(View()), topic, data)
    {
      hide C.Stored, C.MinReadPos, C.MoveAll, BlockAt;
      ghost var was := View();
      var offset := writePos % cap;
      assert C.WrapsFor(was, |data|) <==> offset + HEADER + |data| > cap;
      if offset + HEADER + |data| > cap {
        writePos := writePos + (cap - offset);
        offset := 0;
        MoveReaders(writePos);
        assert buffer[..] == was.mem;
      }
      assert writePos == C.BlockStart(was, |data|) && offset == C.Offset(was, |data|);
      StoreBlock(offset, sequence, topic, data);
      sequence := sequence + 1;
      writePos := writePos + Total(data);
    }

    /** tryRead; a caller without a slot (a negative id) registers first, and reads nothing when all slots are taken. */
    method TryRead(id: int, maxBlock: nat, now: nat, pid: int) returns (mine: int, o: C.Outcome)
      requires Valid() && id < C.MAX_READERS
      modifies this`numReaders, readers
      ensures mine == if id >= 0 then id else if C.FreeSlot(old(readers[..])) < C.MAX_READERS then C.FreeSlot(old(readers[..])) else -1
      ensures mine < 0 ==> o == C.NoData && View() == old(View())
      ensures mine >= 0 ==>
        var c := if id >= 0 then old(View()) else C.Register(old(View()), now, pid);
        o == C.ReadOutcome(c, mine, maxBlock) && View() == C.TryRead(c, mine, maxBlock, now)
    {
      mine, o := id, C.NoData;
      if mine < 0 {
        mine := RegisterReader(now, pid);
        if mine < 0 {
          return;
        }
      }
      o := ReadSlot(mine, maxBlock, now);
    }

    /** tryRead of a registered reader. */
    method ReadSlot(i: nat, maxBlock: nat, now: nat) returns (o: C.Outcome)
      requires Valid() && i < C.MAX_READERS
      modifies readers
      ensures o == C.ReadOutcome(old(View()), i, maxBlock)
      ensures View() == C.TryRead(old(View()), i, maxBlock, now)
    {
      hide C.MinReadPos, MagicAt, SizeAt, CrcAt, SequenceAt, TopicAt, Checksum;
      ghost var was := View();
      var pos := readers[i].readPos;
      var least := GetMinReadPos();
      if pos < least { pos := least; }
      readers[i] := readers[i].(heartbeat := now, readPos := pos);
      o := C.NoData;
      if pos < writePos && writePos - pos >= HEADER && cap > 0 {
        o := Inspect(pos % cap, writePos - pos, maxBlock);
        if o.SizeExceeded? || o.CrcError? {
          readers[i] := readers[i].(readPos := pos + HEADER);
        }
      }
      assert readers[..] == C.TryRead(was, i, maxBlock, now).slots;
    }

    /** validateBlock with the fields of a valid block. */
    method Inspect(at: nat, available: nat, maxBlock: nat) returns (o: C.Outcome)
      requires Valid()
      ensures o == C.Inspect(buffer[..], at, available, maxBlock)
    {
      hide MagicAt, SizeAt, CrcAt, SequenceAt, TopicAt, Crc32.Crc;
      if at + HEADER > cap { return C.Outside; }
      var mem := buffer[..];
      if MagicAt(mem, at) != MAGIC { return C.InvalidMagic; }
      var size := SizeAt(mem, at);
      if size > maxBlock { return C.SizeExceeded; }
      if available < HEADER + size { return C.Insufficient; }
      if at + HEADER + size > cap { return C.Outside; }
      var data := mem[at + HEADER..at + HEADER + size];
      var crc := Crc32.CalculateCRC32(Bits(data));
      if crc as nat != CrcAt(mem, at) { return C.CrcError; }
      return C.Success(SequenceAt(mem, at), TopicAt(mem, at), data);
    }

    /** The handle: whether its tryRead succeeded, where its header lies, and its payload size. */
    method ReleaseBlock(i: int, success: bool, at: nat, size: nat)
      requires Valid() && i < C.MAX_READERS
      modifies readers
      ensures View() == if success && i >= 0 then C.Release(old(View()), i, at, size) else old(View())
    {
      if !success || !C.Honoured(buffer[..], at) || i < 0 {
        return;
      }
      readers[i] := readers[i].(readPos := readers[i].readPos + HEADER + size);
    }

    /** Claims the first free slot, or returns -1 when all are taken. */
    method RegisterReader(now: nat, pid: int) returns (id: int)
      requires Valid()
      modifies this`numReaders, readers
      ensures View() == C.Register(old(View()), now, pid)
      ensures id == if C.FreeSlot(old(readers[..])) < C.MAX_READERS then C.FreeSlot(old(readers[..])) else -1
      ensures id == -1 <==> forall j :: 0 <= j < C.MAX_READERS ==> old(readers[j]).active
      ensures id != -1 ==> !old(readers[id]).active && readers[id] == C.Slot(true, 0, pid, now)
    {
      ghost var was := readers[..];
      for i := 0 to readers.Length
        invariant readers[..] == was && numReaders == old(numReaders)
        invariant forall j :: 0 <= j < i ==> readers[j].active
      {
        if !readers[i].active {
          assert C.FreeSlot(was) == i by { assert !was[i].active; }
          readers[i] := C.Slot(true, 0, pid, now);
          numReaders := C.OneMore(numReaders);
          assert readers[..] == was[i := C.Slot(true, 0, pid, now)];
          return i;
        }
      }
      id := -1;
    }

    method UnregisterReader(i: int)
      requires Valid()
      modifies this`numReaders, readers
      ensures View() == if 0 <= i < C.MAX_READERS then C.Unregister(old(View()), i) else old(View())
    {
      if i < 0 || i >= C.MAX_READERS {
        return;
      }
      readers[i] := readers[i].(active := false, pid := 0);
      numReaders := C.Less(numReaders, 1);
    }

    method CanWrite(size: nat) returns (ok: bool)
      requires Valid()
      ensures ok <==> C.CanWrite(View(), size)
    {
      var least := GetMinReadPos();
      var used := writePos - least;
      ok := (if used >= cap then 0 else cap - used) >= size;
    }
  }
}
