/** What happens to the large-data channel when a caller breaks one of the rules of a polite run, and that each case occurs. */
module LargeLimits {
  import opened Bytes
  import opened LargeBlock
  import opened LargeChannel
  import opened LargeRuns
  import opened LargeProofs
  import opened LargeWrap

  // ------------------------------------------------------------------ a reader with a small block limit

  /**
   * A reader that is behind gets its block exactly when its limit covers it. Otherwise tryRead
   * advances by the header alone, and the cursor is on no block boundary any more.
   */
  lemma LimitIsExact(s: Sys, i: nat, limit: nat, now: nat)
    requires Inv(s) && i < MAX_READERS && s.c.slots[i].active && s.c.slots[i].readPos < s.c.writePos
    ensures s.cur[i].next < |s.log|
    ensures ReadOutcome(s.c, i, limit).Success? <==> |s.log[s.cur[i].next].data| <= limit
    ensures var c' := TryRead(s.c, i, limit, now);
      Boundary(s.(c := c'), c'.slots[i].readPos) <==> |s.log[s.cur[i].next].data| <= limit
  {
    hide Intact, ReadOutcome, Kept;
    var c, k := s.c, s.cur[i].next;
    ReadDelivers(s, i, limit);
    CatchUpNeverFires(c, i);
    assert ReaderOk(c.cap, c.writePos, s.log, s.lap, c.slots[i], s.cur[i]);
    assert BlockOk(c.cap, c.writePos, s.log, s.lap, s.writerMax, k);
    var s' := s.(c := TryRead(c, i, limit, now));
    assert StartOf(s'.log, s'.c.writePos, k) == c.slots[i].readPos;
    forall j | 0 <= j <= |s.log|
      ensures StartOf(s'.log, s'.c.writePos, j) <= s.log[k].start || StartOf(s'.log, s'.c.writePos, j) >= EndOf(s.log[k])
    {
      BlocksInOrder(s, j, k);
    }
  }

  /** Blocks start one after the other, each behind the end of those before. */
  lemma {:induction false} BlocksInOrder(s: Sys, j: nat, k: nat)
    requires Inv(s) && j <= |s.log| && k < |s.log|
    ensures j <= k ==> StartOf(s.log, s.c.writePos, j) <= s.log[k].start
    ensures j > k ==> StartOf(s.log, s.c.writePos, j) >= EndOf(s.log[k])
    decreases if j <= k then k - j else j - k
  {
    hide Intact, ReaderOk;
    if j < k {
      assert BlockOk(s.c.cap, s.c.writePos, s.log, s.lap, s.writerMax, j);
      BlocksInOrder(s, j + 1, k);
    } else if j > k {
      assert BlockOk(s.c.cap, s.c.writePos, s.log, s.lap, s.writerMax, j - 1);
      if j - 1 > k { BlocksInOrder(s, j - 1, k); }
    }
  }

  // ------------------------------------------------------------------ a release without a block

  /**
   * Releasing for a slot that holds no block, with a handle from elsewhere: if the header it
   * points at still carries the magic, the cursor is put past the block to be read next, and
   * otherwise nothing happens.
   */
  lemma StrayRelease(s: Sys, i: nat, at: nat, size: nat)
    requires Inv(s) && i < MAX_READERS && s.c.slots[i].active && !s.cur[i].held
    ensures var s' := Step(s, ARelease(i, at, size));
      && Fit(s') && s'.c.slots[i].active && s'.log == s.log && s'.cur[i] == s.cur[i]
      && (if Honoured(s.c.mem, at) then s'.c.slots[i].readPos == StartOf(s'.log, s'.c.writePos, s'.cur[i].next) + HEADER + size
          else s' == s)
      && (Inv(s') <==> !Honoured(s.c.mem, at))
  {
    hide Intact, LogOk, Honoured;
    assert ReaderOk(s.c.cap, s.c.writePos, s.log, s.lap, s.c.slots[i], s.cur[i]);
    var s' := Step(s, ARelease(i, at, size));
    if Honoured(s.c.mem, at) {
      assert !ReaderOk(s'.c.cap, s'.c.writePos, s'.log, s'.lap, s'.c.slots[i], s'.cur[i]);
    } else {
      IgnoredRelease(s, i, at, size);
    }
  }

  /** A handle on a block that starts at most one capacity behind the write position is valid. */
  lemma RecentIsHonoured(s: Sys, k: nat)
    requires Inv(s) && k < |s.log| && s.log[k].start + s.c.cap >= s.c.writePos
    ensures s.c.cap > 0 && Honoured(s.c.mem, s.log[k].start % s.c.cap)
  {
    hide LogOk, ReaderOk, MagicAt, BlockAt, Kept;
    BlockOf(s, k);
    var at := s.log[k].start % s.c.cap;
    assert BlockAt(s.c.mem, at, k, s.log[k].topic, s.log[k].data);
    InBuffer(s.c.mem, at, k, s.log[k]);
    DecodeBlock(s.c.mem, at, k, s.log[k].topic, s.log[k].data);
  }

  // ------------------------------------------------------------------ building runs

  /** A polite run leads from `s0` to `s`. */
  ghost predicate Leads(s0: Sys, t: seq<Action>, s: Sys) { PoliteRun(s0, t) && Run(s0, t) == s }

  lemma Start(s0: Sys)
    ensures Leads(s0, [], s0)
  {
  }

  lemma Extend(s0: Sys, t: seq<Action>, s: Sys, a: Action)
    requires Leads(s0, t, s) && Polite(s, a)
    ensures Leads(s0, t + [a], Step(s, a))
  {
    hide Polite, Step;
    var t' := t + [a];
    assert t'[..|t|] == t;
    forall k | 0 <= k < |t'|
      ensures Polite(Run(s0, t'[..k]), t'[k])
    {
      if k < |t| { assert t'[..k] == t[..k] && t'[k] == t[k]; }
    }
  }

  /** Only slot 0 is in use. */
  ghost predicate OneReader(s: Sys) {
    Fit(s) && s.c.slots[0].active && forall i :: 1 <= i < MAX_READERS ==> !s.c.slots[i].active
  }

  /** A write during which no cleanup is due. */
  function Quiet(topic: seq<byte>, data: seq<byte>): Action { AWrite(topic, data, 0, 0, {}) }

  lemma QuietCleanup(c: Chan)
    ensures Cleanup(c, 0, 0, {}) == c
  {
  }

  lemma LeastOfOne(s: Sys)
    requires Inv(s) && OneReader(s)
    ensures MinReadPos(s.c.slots, s.c.writePos) == s.c.slots[0].readPos <= s.c.writePos
  {
    hide Intact, LogOk;
    assert ReaderOk(s.c.cap, s.c.writePos, s.log, s.lap, s.c.slots[0], s.cur[0]);
  }

  lemma WriteOne(s: Sys, topic: seq<byte>, data: seq<byte>)
    requires Inv(s) && OneReader(s) && |data| <= s.writerMax && s.c.cap > 0
    requires s.c.writePos - s.c.slots[0].readPos + HEADER + |data| <= s.c.cap
    requires s.c.writePos % s.c.cap + HEADER + |data| <= s.c.cap
    ensures var a := Quiet(topic, data);
      var s' := Step(s, a);
      && Polite(s, a) && Inv(s') && OneReader(s')
      && s'.c.cap == s.c.cap && s'.writerMax == s.writerMax && s'.c.slots == s.c.slots && s'.cur == s.cur
      && s'.c.writePos == s.c.writePos + Total(data) && |s'.log| == |s.log| + 1
      && s'.log == s.log + [Published(s.c.writePos, topic, data)]
  {
    hide Intact, LogOk, ReaderOk, Stored, MinReadPos, Cleanup;
    QuietCleanup(s.c);
    LeastOfOne(s);
    StepKeepsInv(s, Quiet(topic, data));
  }

  lemma ReadOne(s: Sys, limit: nat)
    requires Inv(s) && OneReader(s) && s.cur[0].next < |s.log| && |s.log[s.cur[0].next].data| <= limit && s.c.cap > 0
    ensures var a := ARead(0, limit, 0);
      var s' := Step(s, a);
      && Polite(s, a) && Inv(s') && OneReader(s')
      && s'.c == s.c.(slots := s'.c.slots) && s'.c.slots[0].readPos == s.c.slots[0].readPos
      && s'.c.slots[0].pid == s.c.slots[0].pid && s'.c.slots[0].heartbeat == 0
      && s'.writerMax == s.writerMax && s'.log == s.log
      && s'.cur[0] == s.cur[0].(held := true, at := s.c.slots[0].readPos % s.c.cap, size := |s.log[s.cur[0].next].data|)
  {
    hide Intact, LogOk, ReadOutcome, MinReadPos, Kept;
    var k := s.cur[0].next;
    assert ReaderOk(s.c.cap, s.c.writePos, s.log, s.lap, s.c.slots[0], s.cur[0]);
    assert BlockOk(s.c.cap, s.c.writePos, s.log, s.lap, s.writerMax, k) by { BlockOf(s, k); }
    ReadDelivers(s, 0, limit);
    CatchUpNeverFires(s.c, 0);
    StepKeepsInv(s, ARead(0, limit, 0));
  }

  lemma ReleaseOne(s: Sys)
    requires Inv(s) && OneReader(s) && s.cur[0].held
    ensures var a := ARelease(0, s.cur[0].at, s.cur[0].size);
      var s' := Step(s, a);
      && Polite(s, a) && Inv(s') && OneReader(s')
      && s'.c == s.c.(slots := s'.c.slots) && s'.c.slots[0].readPos == s.c.slots[0].readPos + HEADER + s.cur[0].size
      && s'.writerMax == s.writerMax && s'.log == s.log
      && s'.cur[0] == s.cur[0].(next := s.cur[0].next + 1, released := s.cur[0].released + [s.cur[0].next], held := false)
  {
    hide Intact, LogOk, ReaderOk, Honoured, BlockAt;
    HeldIsIntact(s, 0);
    StepKeepsInv(s, ARelease(0, s.cur[0].at, s.cur[0].size));
  }

  lemma RegisterFirst(cap: nat, mem: seq<byte>, writerMax: nat, dropNewest: bool, pid: int)
    requires |mem| == cap && writerMax < 0x1_0000_0000
    ensures var s0, a := Init(cap, mem, writerMax, dropNewest), ARegister(0, pid);
      var s := Step(s0, a);
      && Polite(s0, a) && Inv(s) && OneReader(s) && s.c.cap == cap && s.writerMax == writerMax
      && s.c.slots[0] == Slot(true, 0, pid, 0) && s.cur[0] == FRESH && s.c.writePos == 0 && s.log == []
  {
    InitInv(cap, mem, writerMax, dropNewest);
    StepKeepsInv(Init(cap, mem, writerMax, dropNewest), ARegister(0, pid));
    assert FreeSlot(Init(cap, mem, writerMax, dropNewest).c.slots) == 0;
  }

  const SIZE: nat := 300

  /** A channel of 1000 bytes, two blocks of 300 bytes in it, the first one released and the second one unread. */
  lemma OneReleased(mem: seq<byte>, dropNewest: bool, data: seq<byte>) returns (t: seq<Action>, s: Sys)
    requires |mem| == 1000 && |data| == SIZE
    ensures Leads(Init(1000, mem, 444, dropNewest), t, s) && Inv(s) && OneReader(s)
    ensures s.c.cap == 1000 && s.writerMax == 444 && s.c.writePos == 856 && s.c.slots[0].readPos == 428
    ensures |s.log| == 2 && s.log[0].start == 0 && |s.log[1].data| == SIZE
    ensures s.cur[0].next == 1 && !s.cur[0].held && s.cur[0].released == [0] && s.cur[0].skipped == 0
  {
    hide Leads, Inv, Polite, Step, Init;
    var s0 := Init(1000, mem, 444, dropNewest);
    Start(s0);
    RegisterFirst(1000, mem, 444, dropNewest, 1);
    Extend(s0, [], s0, ARegister(0, 1));
    t, s := [] + [ARegister(0, 1)], Step(s0, ARegister(0, 1));
    WriteOne(s, [], data);
    Extend(s0, t, s, Quiet([], data));
    t, s := t + [Quiet([], data)], Step(s, Quiet([], data));
    WriteOne(s, [], data);
    Extend(s0, t, s, Quiet([], data));
    t, s := t + [Quiet([], data)], Step(s, Quiet([], data));
    ReadOne(s, SIZE);
    Extend(s0, t, s, ARead(0, SIZE, 0));
    t, s := t + [ARead(0, SIZE, 0)], Step(s, ARead(0, SIZE, 0));
    ReleaseOne(s);
    Extend(s0, t, s, ARelease(0, 0, SIZE));
    t, s := t + [ARelease(0, 0, SIZE)], Step(s, ARelease(0, 0, SIZE));
  }

  // ------------------------------------------------------------------ each case occurs

  /**
   * A block released twice: its header still carries the magic, so the second release is honoured,
   * and the reader is at the end of the data although it never got the second block.
   */
  lemma DoubleRelease(mem: seq<byte>, dropNewest: bool, data: seq<byte>, limit: nat) returns (t: seq<Action>, s: Sys, s': Sys)
    requires |mem| == 1000 && |data| == SIZE
    ensures Leads(Init(1000, mem, 444, dropNewest), t, s) && s' == Step(s, ARelease(0, 0, SIZE)) && Honoured(s.c.mem, 0)
    ensures Fit(s') && s'.c.slots[0].active && s'.cur[0].next == 1 < |s'.log|
    ensures 1 !in s'.cur[0].released && s'.cur[0].skipped == 0 && ReadOutcome(s'.c, 0, limit) == NoData
  {
    hide Leads, PoliteRun, Run, Intact, LogOk, Inspect, MinReadPos, Honoured;
    t, s := OneReleased(mem, dropNewest, data);
    RecentIsHonoured(s, 0);
    assert ReaderOk(s.c.cap, s.c.writePos, s.log, s.lap, s.c.slots[0], s.cur[0]);
    s' := Step(s, ARelease(0, 0, SIZE));
    StrayRelease(s, 0, 0, SIZE);
    CatchUpNeverFires(s'.c, 0);
  }

  /** A reader whose limit is too small for the next block: its read moves it off every boundary. */
  lemma SmallLimit(mem: seq<byte>, dropNewest: bool, data: seq<byte>, limit: nat, now: nat) returns (t: seq<Action>, s: Sys, s': Sys)
    requires |mem| == 1000 && |data| == SIZE && limit < SIZE
    ensures Leads(Init(1000, mem, 444, dropNewest), t, s) && s' == Step(s, ARead(0, limit, now))
    ensures Fit(s') && s'.c.slots[0].active && s'.cur[0].next == 1 < |s'.log| && !Boundary(s', s'.c.slots[0].readPos)
  {
    hide Leads, PoliteRun, Run, Intact, LogOk, Inspect, MinReadPos, Boundary, ReadOutcome, ReaderOk;
    t, s := OneReleased(mem, dropNewest, data);
    LimitIsExact(s, 0, limit, now);
    s' := Step(s, ARead(0, limit, now));
    BoundaryDepends(s.(c := TryRead(s.c, 0, limit, now)), s', s'.c.slots[0].readPos);
  }

  lemma BoundaryDepends(s: Sys, s': Sys, pos: nat)
    requires s.log == s'.log && s.c.writePos == s'.c.writePos
    ensures Boundary(s, pos) <==> Boundary(s', pos)
  {
  }

  /** The first bytes of the payload that would fall on the held header's magic, where the payload reaches that far. */
  predicate HitsMagic(more: seq<byte>) {
    || (SIZE < |more| < SIZE + 4 && !(more[SIZE..] <= Le(MAGIC, 4)))
    || (|more| >= SIZE + 4 && more[SIZE..SIZE + 4] != Le(MAGIC, 4))
  }

  /**
   * A wrap over a held block at offset 428, for every payload that fits and wraps: when the payload
   * overwrites the held magic the release is ignored and the reader gets the new block; otherwise
   * the release puts it past the new block, and off every boundary unless the sizes agree.
   */
  lemma WrapOverHeldBlock(mem: seq<byte>, dropNewest: bool, data: seq<byte>, topic: seq<byte>, more: seq<byte>, limit: nat)
    returns (t: seq<Action>, s: Sys, s': Sys)
    requires |mem| == 1000 && |data| == SIZE && 17 <= |more| <= 444
    ensures Leads(Init(1000, mem, 444, dropNewest), t, s) && Fit(s) && s.cur[0].held && s.cur[0].at == 428 && s.cur[0].size == SIZE
    ensures s' == Step(Step(s, Quiet(topic, more)), ARelease(0, 428, SIZE)) && Fit(s') && |s'.log| == 3
    ensures HitsMagic(more) ==>
      s'.c.slots[0].readPos == s'.log[2].start && Delivers(s'.log[2], 2, limit, ReadOutcome(s'.c, 0, limit))
    ensures !HitsMagic(more) ==> s'.c.slots[0].readPos == s'.log[2].start + HEADER + SIZE
    ensures Boundary(s', s'.c.slots[0].readPos) <==> HitsMagic(more) || |more| == SIZE
  {
    hide Leads, PoliteRun, Run, Intact, LogOk, Boundary, Step, ReaderOk, Stored, MinReadPos, Le, Delivers, ReadOutcome;
    var s0 := Init(1000, mem, 444, dropNewest);
    t, s := OneReleased(mem, dropNewest, data);
    ReadOne(s, SIZE);
    Extend(s0, t, s, ARead(0, SIZE, 0));
    t, s := t + [ARead(0, SIZE, 0)], Step(s, ARead(0, SIZE, 0));
    var a := Quiet(topic, more);
    QuietCleanup(s.c);
    LeastOfOne(s);
    assert WrapsFor(s.c, |more|);
    s' := Step(Step(s, a), ARelease(0, 428, SIZE));
    ReleaseAfterWrap(s, a, 0, limit, s');
    HitsIsOverlap(more);
  }

  lemma HitsIsOverlap(more: seq<byte>)
    ensures HitsMagic(more) <==> !SparesMagic(more, 428)
  {
    hide Le;
  }

  /**
   * A reader that fell silent is retired, its slot is taken by another one, and then it releases
   * the block it still holds. The header is still there, so the release is honoured: the new
   * reader's cursor is past the first block, which it never got.
   */
  lemma ReleaseOfTakenSlot(mem: seq<byte>, dropNewest: bool, data: seq<byte>) returns (t: seq<Action>, s: Sys, s': Sys)
    requires |mem| == 1000 && |data| == SIZE
    ensures Leads(Init(1000, mem, 444, dropNewest), t, s) && s' == Step(s, ARelease(0, 0, SIZE)) && Honoured(s.c.mem, 0)
    ensures Fit(s') && s'.c.slots[0].active && s'.c.slots[0].pid == 2 && s'.cur[0] == FRESH
    ensures |s'.log| == 2 && s'.log[0].start == 0 && s'.c.slots[0].readPos == 428
  {
    hide Leads, Inv, Polite, Step, Init, Honoured;
    var s0 := Init(1000, mem, 444, dropNewest);
    Start(s0);
    RegisterFirst(1000, mem, 444, dropNewest, 1);
    Extend(s0, [], s0, ARegister(0, 1));
    t, s := [] + [ARegister(0, 1)], Step(s0, ARegister(0, 1));
    WriteOne(s, [], data);
    Extend(s0, t, s, Quiet([], data));
    t, s := t + [Quiet([], data)], Step(s, Quiet([], data));
    ReadOne(s, SIZE);
    Extend(s0, t, s, ARead(0, SIZE, 0));
    t, s := t + [ARead(0, SIZE, 0)], Step(s, ARead(0, SIZE, 0));
    var a := AWrite([], data, 0, 100, {1});
    RetiringWrite(s, data);
    Extend(s0, t, s, a);
    t, s := t + [a], Step(s, a);
    RegisterAgain(s);
    Extend(s0, t, s, ARegister(100, 2));
    t, s := t + [ARegister(100, 2)], Step(s, ARegister(100, 2));
    RecentIsHonoured(s, 0);
    StrayRelease(s, 0, 0, SIZE);
    s' := Step(s, ARelease(0, 0, SIZE));
    ReleaseKeepsPid(s, 0, 0, SIZE);
  }

  lemma ReleaseKeepsPid(s: Sys, i: nat, at: nat, size: nat)
    requires Fit(s) && i < MAX_READERS
    ensures var s' := Step(s, ARelease(i, at, size)); Fit(s') && s'.c.slots[i].pid == s.c.slots[i].pid
  {
    hide Honoured;
  }

  /** A write that retires the only reader, which is alive but has been silent for 100 seconds. */
  lemma RetiringWrite(s: Sys, data: seq<byte>)
    requires Inv(s) && OneReader(s) && |data| <= s.writerMax && s.c.cap > 0
    requires s.c.writePos + HEADER + |data| <= s.c.cap && s.log != [] && s.log[0].start == 0
    requires s.c.slots[0].heartbeat == 0
    ensures var a := AWrite([], data, 0, 100, {1});
      var s' := Step(s, a);
      && Polite(s, a) && Inv(s') && (forall i :: 0 <= i < MAX_READERS ==> !s'.c.slots[i].active)
      && s'.c.cap == s.c.cap && s'.writerMax == s.writerMax && s'.c.writePos == s.c.writePos + Total(data)
      && |s'.log| == |s.log| + 1 && s'.log[0].start == 0
  {
    hide Intact, LogOk, ReaderOk, Stored;
    var c1 := Cleanup(s.c, 0, 100, {1});
    assert forall i :: 0 <= i < MAX_READERS ==> !c1.slots[i].active;
    assert MinReadPos(c1.slots, c1.writePos) == c1.writePos;
    SmallMod(s.c.writePos, s.c.cap);
    StepKeepsInv(s, AWrite([], data, 0, 100, {1}));
  }

  lemma SmallMod(x: nat, m: nat)
    requires x < m
    ensures x % m == x
  {
  }

  lemma RegisterAgain(s: Sys)
    requires Inv(s) && (forall i :: 0 <= i < MAX_READERS ==> !s.c.slots[i].active) && s.c.writePos <= s.c.cap
    ensures var a := ARegister(100, 2);
      var s' := Step(s, a);
      && Polite(s, a) && Inv(s') && Fit(s') && s'.c.slots[0] == Slot(true, 0, 2, 100) && s'.cur[0] == FRESH
      && s'.log == s.log && s'.c.writePos == s.c.writePos && s'.c.cap == s.c.cap
  {
    hide Intact, LogOk, ReaderOk;
    assert FreeSlot(s.c.slots) == 0;
    StepKeepsInv(s, ARegister(100, 2));
  }

  /** Two blocks that fill the buffer, then the first reader: from then on no write of any size has room. */
  lemma LateRegistration(cap: nat, mem: seq<byte>, dropNewest: bool, data: seq<byte>, time: nat, pid: int)
    returns (t: seq<Action>, s: Sys, s': Sys)
    requires |mem| == cap && HEADER + |data| == cap
    ensures Leads(Init(cap, mem, |data|, dropNewest), t, s) && s.c.writePos == 2 * cap
    ensures s' == Step(s, ARegister(time, pid)) && forall size: nat :: !HasRoom(s'.c, size)
  {
    hide Leads, Stored, FreeSlot;
    var s0 := Init(cap, mem, |data|, dropNewest);
    Start(s0);
    FillWrite(s0, data);
    Extend(s0, [], s0, Quiet([], data));
    t, s := [] + [Quiet([], data)], Step(s0, Quiet([], data));
    AddCap(0, cap);
    FillWrite(s, data);
    Extend(s0, t, s, Quiet([], data));
    t, s := t + [Quiet([], data)], Step(s, Quiet([], data));
    s' := Step(s, ARegister(time, pid));
    forall size: nat ensures !HasRoom(s'.c, size) { RegistrationStallsWriter(s.c, time, pid, size); }
  }

  lemma FillWrite(s: Sys, data: seq<byte>)
    requires Fit(s) && HEADER + |data| == s.c.cap && s.writerMax == |data| && s.c.writePos % s.c.cap == 0
    requires forall i :: 0 <= i < MAX_READERS ==> !s.c.slots[i].active
    ensures var a := Quiet([], data);
      var s' := Step(s, a);
      && Polite(s, a) && Fit(s') && s'.c.cap == s.c.cap && s'.writerMax == s.writerMax
      && s'.c.slots == s.c.slots && s'.c.writePos == s.c.writePos + s.c.cap && FreeSlot(s'.c.slots) < |s'.c.slots|
  {
    hide Stored, Cleanup;
    QuietCleanup(s.c);
    assert MinReadPos(s.c.slots, s.c.writePos) == s.c.writePos;
  }
}
