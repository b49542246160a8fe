/** The operations of src/transport/LargeDataChannel.cpp as atomic steps on the shared control block and buffer. */
module LargeChannel {
  import opened Bytes
  import opened LargeBlock
  import opened Modular

  const MAX_READERS: nat := 16
  const CLEANUP_INTERVAL_S: nat := 30
  const READER_TIMEOUT_S: nat := 60
  const TWO64: nat := 0x1_0000_0000_0000_0000

  type uint32 = x: int | 0 <= x < 0x1_0000_0000

  datatype Slot = Slot(active: bool, readPos: nat, pid: int, heartbeat: nat)

  /** `numReaders` is the channel's own count of its readers; `dropped` counts what DROP_NEWEST discarded. */
  datatype Chan = Chan(
    cap: nat, mem: seq<byte>, writePos: nat, sequence: nat, slots: seq<Slot>,
    numReaders: uint32, dropNewest: bool, dropped: nat)

  predicate Shape(c: Chan) { |c.mem| == c.cap && |c.slots| == MAX_READERS }

  /** Unsigned 64-bit difference of two clock readings. */
  function Elapsed(now: nat, then_: nat): int { (now - then_) % TWO64 }

  // ------------------------------------------------------------------ readers

  /** Smallest cursor among the active readers, or the write position. */
  function MinReadPos(slots: seq<Slot>, writePos: nat): (m: nat)
    ensures m <= writePos
    ensures forall i :: 0 <= i < |slots| && slots[i].active ==> m <= slots[i].readPos
    ensures m == writePos || exists i :: 0 <= i < |slots| && slots[i].active && slots[i].readPos == m
  {
    if slots == [] then writePos
    else
      var m := MinReadPos(slots[..|slots| - 1], writePos);
      var s := slots[|slots| - 1];
      if s.active && s.readPos < m then s.readPos else m
  }

  predicate Stale(s: Slot, now: nat, alive: set<int>) {
    s.active && (s.pid <= 0 || s.pid !in alive || Elapsed(now, s.heartbeat) > READER_TIMEOUT_S)
  }

  function Retire(s: Slot, now: nat, alive: set<int>): Slot {
    if Stale(s, now, alive) then s.(active := false) else s
  }

  function RetireAll(slots: seq<Slot>, now: nat, alive: set<int>): (r: seq<Slot>)
    ensures |r| == |slots|
  {
    seq(|slots|, i requires 0 <= i < |slots| => Retire(slots[i], now, alive))
  }

  function StaleCount(slots: seq<Slot>, now: nat, alive: set<int>): nat {
    if slots == [] then 0
    else StaleCount(slots[..|slots| - 1], now, alive) + (if Stale(slots[|slots| - 1], now, alive) then 1 else 0)
  }

  function Less(n: uint32, k: nat): uint32 { (n - k) % TWO32 }

  function OneMore(n: uint32): uint32 { (n + 1) % TWO32 }

  lemma LessStep(n: uint32, k: nat)
    ensures Less(n, 0) == n && Less(Less(n, k), 1) == Less(n, k + 1)
  {
  }

  predicate CleanupDue(last: nat, now: nat) { Elapsed(now, last) >= CLEANUP_INTERVAL_S }

  /** `last` is the time of the last cleanup of any channel of the writer's process. */
  function Cleanup(c: Chan, last: nat, now: nat, alive: set<int>): Chan {
    if !CleanupDue(last, now) then c
    else c.(slots := RetireAll(c.slots, now, alive), numReaders := Less(c.numReaders, StaleCount(c.slots, now, alive)))
  }

  function Moved(s: Slot, to: nat): Slot { if s.active && s.readPos < to then s.(readPos := to) else s }

  /** What a wrap does to the readers: every active one that is behind jumps to the new block. */
  function MoveAll(slots: seq<Slot>, to: nat): (r: seq<Slot>)
    ensures |r| == |slots|
  {
    seq(|slots|, i requires 0 <= i < |slots| => Moved(slots[i], to))
  }

  /** First slot that is not active, or the number of slots. */
  function FreeSlot(slots: seq<Slot>): (i: nat)
    ensures i <= |slots|
    ensures forall j :: 0 <= j < i ==> slots[j].active
    ensures i < |slots| ==> !slots[i].active
  {
    if slots == [] || !slots[0].active then 0 else 1 + FreeSlot(slots[1..])
  }

  function Register(c: Chan, now: nat, pid: int): Chan {
    var i := FreeSlot(c.slots);
    if i == |c.slots| then c else c.(slots := c.slots[i := Slot(true, 0, pid, now)], numReaders := OneMore(c.numReaders))
  }

  function Unregister(c: Chan, i: nat): Chan
    requires i < |c.slots|
  {
    c.(slots := c.slots[i := c.slots[i].(active := false, pid := 0)], numReaders := Less(c.numReaders, 1))
  }

  // ------------------------------------------------------------------ writing

  /** The space test of write, after the cleanup. */
  predicate HasRoom(c: Chan, size: nat) {
    c.writePos - MinReadPos(c.slots, c.writePos) + HEADER + size <= c.cap
  }

  predicate WrapsFor(c: Chan, size: nat)
    requires HasRoom(c, size)
  {
    c.writePos % c.cap + HEADER + size > c.cap
  }

  /** Where the block goes in the unbounded stream of positions. */
  function BlockStart(c: Chan, size: nat): nat
    requires HasRoom(c, size)
  {
    if WrapsFor(c, size) then c.writePos + (c.cap - c.writePos % c.cap) else c.writePos
  }

  function Offset(c: Chan, size: nat): (o: nat)
    requires HasRoom(c, size)
    ensures o + HEADER + size <= c.cap
  {
    if WrapsFor(c, size) then 0 else c.writePos % c.cap
  }

  function Stored(mem: seq<byte>, at: nat, sequence: nat, topic: seq<byte>, data: seq<byte>): (r: seq<byte>)
    requires at + Total(data) <= |mem|
    ensures |r| == |mem| && BlockAt(r, at, sequence, topic, data)
    ensures forall i :: 0 <= i < |mem| && !(at <= i < at + Total(data)) ==> r[i] == mem[i]
  {
    hide HeaderBytes, Put;
    TwoPuts(mem, at, HeaderBytes(sequence, topic, data), data);
    Put(Put(mem, at, HeaderBytes(sequence, topic, data)), at + HEADER, data)
  }

  lemma TwoPuts(mem: seq<byte>, at: nat, h: seq<byte>, data: seq<byte>)
    requires |h| == WRITTEN && at + Total(data) <= |mem|
    ensures var r := Put(Put(mem, at, h), at + HEADER, data);
      && r[at..at + WRITTEN] == h && r[at + HEADER..at + HEADER + |data|] == data
      && forall i :: 0 <= i < |mem| && !(at <= i < at + Total(data)) ==> r[i] == mem[i]
  {
    hide Put;
    var m1 := Put(mem, at, h);
    var r := Put(m1, at + HEADER, data);
    assert forall i :: at <= i < at + WRITTEN ==> r[i] == m1[i];
    assert r[at..at + WRITTEN] == m1[at..at + WRITTEN];
  }

  /** The effect of a write that found room. */
  function Append(c: Chan, topic: seq<byte>, data: seq<byte>): Chan
    requires Shape(c) && HasRoom(c, |data|)
  {
    c.(slots := if WrapsFor(c, |data|) then MoveAll(c.slots, BlockStart(c, |data|)) else c.slots,
       mem := Stored(c.mem, Offset(c, |data|), c.sequence, topic, data),
       writePos := BlockStart(c, |data|) + Total(data),
       sequence := c.sequence + 1)
  }

  predicate Accepts(c: Chan, size: nat, maxBlock: nat, last: nat, now: nat, alive: set<int>) {
    size <= maxBlock && HasRoom(Cleanup(c, last, now, alive), size)
  }

  function Write(c: Chan, topic: seq<byte>, data: seq<byte>, maxBlock: nat, last: nat, now: nat, alive: set<int>): Chan
    requires Shape(c)
  {
    if |data| > maxBlock then c
    else
      var c1 := Cleanup(c, last, now, alive);
      if HasRoom(c1, |data|) then Append(c1, topic, data)
      else if c1.dropNewest then c1.(dropped := c1.dropped + 1)
      else c1
  }

  // ------------------------------------------------------------------ reading

  datatype Outcome =
    | NoData
    | InvalidMagic | SizeExceeded | Insufficient | CrcError
    | Outside  // the header or payload would lie behind the buffer
    | Success(sequence: nat, topic: seq<byte>, data: seq<byte>)

  /** validateBlock, then the fields of the block. */
  function Inspect(mem: seq<byte>, at: nat, available: nat, maxBlock: nat): Outcome {
    if at + HEADER > |mem| then Outside
    else if MagicAt(mem, at) != MAGIC then InvalidMagic
    else if SizeAt(mem, at) > maxBlock then SizeExceeded
    else if available < HEADER + SizeAt(mem, at) then Insufficient
    else if at + HEADER + SizeAt(mem, at) > |mem| then Outside
    else
      var data := mem[at + HEADER..at + HEADER + SizeAt(mem, at)];
      if Checksum(data) != CrcAt(mem, at) then CrcError
      else Success(SequenceAt(mem, at), TopicAt(mem, at), data)
  }

  /** The cursor after the catch-up test of tryRead. */
  function CaughtUp(c: Chan, i: nat): nat
    requires i < |c.slots|
  {
    var m := MinReadPos(c.slots, c.writePos);
    if c.slots[i].readPos < m then m else c.slots[i].readPos
  }

  /** Where tryRead looks for the next header. */
  function ReadOffset(c: Chan, i: nat): nat
    requires i < |c.slots|
  {
    if c.cap == 0 then 0 else CaughtUp(c, i) % c.cap
  }

  function ReadOutcome(c: Chan, i: nat, maxBlock: nat): Outcome
    requires i < |c.slots|
  {
    var pos := CaughtUp(c, i);
    if pos >= c.writePos || c.writePos - pos < HEADER || c.cap == 0 then NoData
    else Inspect(c.mem, pos % c.cap, c.writePos - pos, maxBlock)
  }

  /** tryRead: heartbeat, catch-up, and a step past a block that is too large or corrupt. */
  function TryRead(c: Chan, i: nat, maxBlock: nat, now: nat): Chan
    requires i < |c.slots|
  {
    var o := ReadOutcome(c, i, maxBlock);
    var pos := CaughtUp(c, i) + (if o.SizeExceeded? || o.CrcError? then HEADER else 0);
    c.(slots := c.slots[i := c.slots[i].(heartbeat := now, readPos := pos)])
  }

  /** isValid of a handle: the block it was made from was read with success, and its header still carries the magic. */
  predicate Honoured(mem: seq<byte>, at: nat) { at + HEADER <= |mem| && MagicAt(mem, at) == MAGIC }

  /** releaseBlock with a handle on the header at offset `at` and a payload of `size` bytes. */
  function Release(c: Chan, i: nat, at: nat, size: nat): Chan
    requires i < |c.slots|
  {
    if !Honoured(c.mem, at) then c
    else c.(slots := c.slots[i := c.slots[i].(readPos := c.slots[i].readPos + HEADER + size)])
  }

  // ------------------------------------------------------------------ single-call facts

  /** The catch-up of tryRead never fires for an active reader: the minimum includes its own cursor. */
  lemma CatchUpNeverFires(c: Chan, i: nat)
    requires i < |c.slots| && c.slots[i].active
    ensures CaughtUp(c, i) == c.slots[i].readPos
  {
  }

  function AvailableSpace(c: Chan): nat {
    var used := c.writePos - MinReadPos(c.slots, c.writePos);
    if used >= c.cap then 0 else c.cap - used
  }

  predicate CanWrite(c: Chan, size: nat) { AvailableSpace(c) >= size }

  /** canWrite forgets the header: a write is accepted exactly when canWrite holds of 128 bytes more. */
  lemma CanWriteForgetsHeader(c: Chan, size: nat, maxBlock: nat, last: nat, now: nat, alive: set<int>)
    ensures Accepts(c, size, maxBlock, last, now, alive) <==>
            size <= maxBlock && CanWrite(Cleanup(c, last, now, alive), size + HEADER)
  {
  }

  /**
   * A reader that registers starts at position 0, so the next write is accepted exactly while the
   * channel has not yet gone past its first lap; afterwards every write of any size is refused.
   */
  lemma RegistrationStallsWriter(c: Chan, now: nat, pid: int, size: nat)
    requires FreeSlot(c.slots) < |c.slots|
    ensures HasRoom(Register(c, now, pid), size) <==> c.writePos + HEADER + size <= c.cap
  {
    var i := FreeSlot(c.slots);
    var c' := Register(c, now, pid);
    assert c'.slots[i].active && c'.slots[i].readPos == 0;
  }
}
