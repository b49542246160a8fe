/** Every polite run of the large-data channel keeps its invariant, so no reader ever loses its place. */
module LargeProofs {
  import opened Bytes
  import opened LargeBlock
  import opened LargeChannel
  import opened LargeRuns

  // ------------------------------------------------------------------ positions modulo the capacity

  lemma NextLap(cap: nat, pos: nat)
    requires cap > 0
    ensures pos < pos + (cap - pos % cap) && cap <= pos + (cap - pos % cap)
    ensures (pos + (cap - pos % cap)) % cap == 0
  {
    var q := pos / cap;
    assert pos == q * cap + pos % cap;
    assert pos + (cap - pos % cap) == (q + 1) * cap;
    MultipleMod(q + 1, cap);
  }

  lemma {:induction false} MultipleMod(q: nat, cap: nat)
    requires cap > 0
    ensures (q * cap) % cap == 0
  {
    if q > 0 {
      MultipleMod(q - 1, cap);
      assert q * cap == (q - 1) * cap + cap;
      AddCap((q - 1) * cap, cap);
    }
  }

  lemma AddCap(x: nat, cap: nat)
    requires cap > 0
    ensures (x + cap) % cap == x % cap
  {
    var q := x / cap;
    assert x + cap == (q + 1) * cap + x % cap;
    var q' := (x + cap) / cap;
    assert x + cap == q' * cap + (x + cap) % cap;
    QuotientUnique(cap, q + 1, x % cap, q', (x + cap) % cap);
  }

  lemma MulBounds(d: int, cap: nat)
    ensures d >= 1 ==> d * cap >= cap
    ensures d >= 2 ==> d * cap >= 2 * cap
    ensures d <= -1 ==> d * cap + cap <= 0
  {
    if d >= 2 { assert d * cap == 2 * cap + (d - 2) * cap; }
    if d <= -1 { assert d * cap + cap == (d + 1) * cap; }
  }

  lemma QuotientUnique(cap: nat, q: int, r: nat, q': int, r': nat)
    requires r < cap && r' < cap && q * cap + r == q' * cap + r'
    ensures q == q' && r == r'
  {
    var d := q - q';
    assert d * cap == q * cap - q' * cap;
    MulBounds(d, cap);
  }

  /** Two blocks less than one capacity apart do not share a byte of the buffer. */
  lemma DisjointOffsets(cap: nat, a: nat, la: nat, w: nat, lb: nat)
    requires cap > 0 && la > 0 && lb > 0
    requires a + la <= w && w + lb <= a + cap
    requires a % cap + la <= cap && w % cap + lb <= cap
    ensures a % cap + la <= w % cap || w % cap + lb <= a % cap
  {
    var qa, qw := a / cap, w / cap;
    var d := qw - qa;
    assert w - a == d * cap + (w % cap - a % cap) by {
      assert a == qa * cap + a % cap && w == qw * cap + w % cap;
      assert d * cap == qw * cap - qa * cap;
    }
    MulBounds(d, cap);
  }

  // ------------------------------------------------------------------ publishing a block

  ghost predicate GoodNext(cap: nat, writePos: nat, b: Published, wrap: bool, writerMax: nat) {
    && cap > 0 && b.start % cap + Total(b.data) <= cap && |b.data| <= writerMax
    && (if wrap then 0 < writePos < b.start && cap <= b.start && b.start % cap == 0 else b.start == writePos)
  }

  lemma OffsetAfter(cap: nat, x: nat, t: nat)
    requires cap > 0 && x % cap + t <= cap
    ensures (x + t) % cap == 0 || (x + t) % cap == x % cap + t
  {
    var q, y := x / cap, x % cap + t;
    assert x + t == q * cap + y;
    if y < cap {
      QuotientUnique(cap, (x + t) / cap, (x + t) % cap, q, y);
    } else {
      assert x + t == (q + 1) * cap;
      MultipleMod(q + 1, cap);
    }
  }

  /** No block starts less than a header behind the start of the buffer, except at it. */
  lemma NextOffset(cap: nat, writePos: nat, log: seq<Published>, lap: nat, writerMax: nat)
    requires LogOk(cap, writePos, log, lap, writerMax) && cap > 0
    ensures writePos % cap == 0 || writePos % cap >= HEADER
  {
    if log != [] {
      var k := |log| - 1;
      assert BlockOk(cap, writePos, log, lap, writerMax, k);
      OffsetAfter(cap, log[k].start, Total(log[k].data));
    }
  }

  lemma LogAppend(cap: nat, writePos: nat, log: seq<Published>, lap: nat, writerMax: nat, b: Published, wrap: bool)
    requires LogOk(cap, writePos, log, lap, writerMax) && GoodNext(cap, writePos, b, wrap, writerMax)
    ensures LogOk(cap, EndOf(b), log + [b], if wrap then |log| else lap, writerMax)
  {
    var log', lap' := log + [b], if wrap then |log| else lap;
    NextOffset(cap, writePos, log, lap, writerMax);
    forall k | 0 <= k < |log'|
      ensures BlockOk(cap, EndOf(b), log', lap', writerMax, k)
    {
      if k < |log| { assert log'[k] == log[k] && BlockOk(cap, writePos, log, lap, writerMax, k); }
    }
  }

  lemma IntactAppend(cap: nat, mem: seq<byte>, mem': seq<byte>, writePos: nat, log: seq<Published>, lap: nat,
                     writerMax: nat, b: Published, wrap: bool)
    requires LogOk(cap, writePos, log, lap, writerMax) && GoodNext(cap, writePos, b, wrap, writerMax)
    requires Intact(cap, mem, writePos, log) && |mem| == cap == |mem'|
    requires BlockAt(mem', b.start % cap, |log|, b.topic, b.data)
    requires forall i :: 0 <= i < cap && !(b.start % cap <= i < b.start % cap + Total(b.data)) ==> mem'[i] == mem[i]
    ensures Intact(cap, mem', EndOf(b), log + [b])
  {
    hide BlockAt;
    var log' := log + [b];
    forall k | 0 <= k < |log'| && log'[k].start + cap >= EndOf(b)
      ensures BlockAt(mem', log'[k].start % cap, k, log'[k].topic, log'[k].data)
    {
      if k < |log| {
        var x := log[k];
        assert log'[k] == x && BlockOk(cap, writePos, log, lap, writerMax, k);
        assert BlockAt(mem, x.start % cap, k, x.topic, x.data);
        DisjointOffsets(cap, x.start, Total(x.data), b.start, Total(b.data));
        BlockStable(mem, mem', x.start % cap, k, x.topic, x.data);
      }
    }
  }

  lemma ReaderAppend(cap: nat, writePos: nat, log: seq<Published>, lap: nat, s: Slot, k: Cursor, b: Published)
    requires ReaderOk(cap, writePos, log, lap, s, k) && b.start == writePos
    requires s.active ==> EndOf(b) <= s.readPos + cap
    ensures ReaderOk(cap, EndOf(b), log + [b], lap, s, k)
  {
  }

  /** After a wrap the backlog of every active reader is exactly the new block. */
  lemma ReaderWrap(cap: nat, writePos: nat, log: seq<Published>, lap: nat, s: Slot, k: Cursor, b: Published)
    requires ReaderOk(cap, writePos, log, lap, s, k) && writePos < b.start && Total(b.data) <= cap
    requires s.active ==> !k.held
    ensures var s', k' := Moved(s, b.start), Skip(k, s, b.start, |log|);
      && ReaderOk(cap, EndOf(b), log + [b], |log|, s', k')
      && (s.active ==> k'.next == |log| && s'.readPos == b.start && k'.released == k.released)
  {
  }

  // ------------------------------------------------------------------ steps

  lemma CleanupKeepsInv(s: Sys, last: nat, now: nat, alive: set<int>)
    requires Inv(s)
    ensures Inv(s.(c := Cleanup(s.c, last, now, alive)))
  {
    hide LogOk, Intact, Stale;
    var c' := Cleanup(s.c, last, now, alive);
    forall i | 0 <= i < MAX_READERS
      ensures ReaderOk(c'.cap, c'.writePos, s.log, s.lap, c'.slots[i], s.cur[i])
    {
      assert ReaderOk(s.c.cap, s.c.writePos, s.log, s.lap, s.c.slots[i], s.cur[i]);
    }
  }

  lemma PlaceOfBlock(c: Chan, size: nat)
    requires HasRoom(c, size)
    ensures c.cap > 0
    ensures if WrapsFor(c, size) then 0 < c.writePos < BlockStart(c, size) && c.cap <= BlockStart(c, size)
            else BlockStart(c, size) == c.writePos
    ensures BlockStart(c, size) % c.cap == Offset(c, size)
  {
    NextLap(c.cap, c.writePos);
  }

  /** An accepted write after the cleanup. */
  lemma AppendKeepsInv(s: Sys, topic: seq<byte>, data: seq<byte>)
    requires Inv(s) && HasRoom(s.c, |data|) && |data| <= s.writerMax
    requires WrapsFor(s.c, |data|) ==> forall i :: 0 <= i < MAX_READERS && s.c.slots[i].active ==> !s.cur[i].held
    ensures var start, wrap := BlockStart(s.c, |data|), WrapsFor(s.c, |data|);
      Inv(s.(c := Append(s.c, topic, data), log := s.log + [Published(start, topic, data)],
             lap := if wrap then |s.log| else s.lap,
             cur := if wrap then SkipAll(s.cur, s.c.slots, start, |s.log|) else s.cur))
  {
    hide LogOk, Intact, BlockAt, ReaderOk, Stored;
    var c := s.c;
    var start, wrap := BlockStart(c, |data|), WrapsFor(c, |data|);
    var b := Published(start, topic, data);
    PlaceOfBlock(c, |data|);
    LogAppend(c.cap, c.writePos, s.log, s.lap, s.writerMax, b, wrap);
    var mem' := Stored(c.mem, Offset(c, |data|), c.sequence, topic, data);
    IntactAppend(c.cap, c.mem, mem', c.writePos, s.log, s.lap, s.writerMax, b, wrap);
    forall i | 0 <= i < MAX_READERS
      ensures ReaderOk(c.cap, EndOf(b), s.log + [b], if wrap then |s.log| else s.lap,
                       Append(c, topic, data).slots[i], if wrap then Skip(s.cur[i], c.slots[i], start, |s.log|) else s.cur[i])
    {
      if wrap {
        ReaderWrap(c.cap, c.writePos, s.log, s.lap, c.slots[i], s.cur[i], b);
      } else {
        ReaderAppend(c.cap, c.writePos, s.log, s.lap, c.slots[i], s.cur[i], b);
      }
    }
  }

  lemma WriteKeepsInv(s: Sys, a: Action)
    requires Inv(s) && a.AWrite? && Polite(s, a)
    ensures Inv(StepWrite(s, a))
  {
    hide LogOk, Intact, ReaderOk, HasRoom, BlockStart, WrapsFor, Append, RetireAll, Stale;
    CleanupKeepsInv(s, a.last, a.now, a.alive);
    var s1 := s.(c := Cleanup(s.c, a.last, a.now, a.alive));
    if Accepts(s.c, |a.data|, s.writerMax, a.last, a.now, a.alive) {
      if WrapsFor(s1.c, |a.data|) { RetiredWereActive(s, a.last, a.now, a.alive); }
      AppendKeepsInv(s1, a.topic, a.data);
    }
  }

  lemma RetiredWereActive(s: Sys, last: nat, now: nat, alive: set<int>)
    requires Fit(s)
    ensures var c' := Cleanup(s.c, last, now, alive);
      forall i :: 0 <= i < MAX_READERS && c'.slots[i].active ==> s.c.slots[i].active
  {
  }

  /** What an active reader that is behind gets: the very block its cursor stands on, if its limit covers it. */
  lemma ReadDelivers(s: Sys, i: nat, limit: nat)
    requires Inv(s) && i < MAX_READERS && s.c.slots[i].active && s.c.slots[i].readPos < s.c.writePos
    ensures s.cur[i].next < |s.log|
    ensures Delivers(s.log[s.cur[i].next], s.cur[i].next, limit, ReadOutcome(s.c, i, limit))
  {
    hide BlockAt, Inspect, Kept;
    var c, k := s.c, s.cur[i].next;
    assert ReaderOk(c.cap, c.writePos, s.log, s.lap, c.slots[i], s.cur[i]);
    CatchUpNeverFires(c, i);
    var b := s.log[k];
    assert BlockOk(c.cap, c.writePos, s.log, s.lap, s.writerMax, k);
    assert BlockAt(c.mem, b.start % c.cap, k, b.topic, b.data);
    InspectBlock(c.mem, b.start % c.cap, c.writePos - b.start, limit, k, b);
  }

  /** The outcome of reading block `b`, number `k`, with a given block limit. */
  predicate Delivers(b: Published, k: nat, limit: nat, o: Outcome) {
    if |b.data| <= limit then o == Success(k % TWO64, Kept(b.topic, TOPIC), b.data) else o == SizeExceeded
  }

  lemma InspectBlock(mem: seq<byte>, at: nat, available: nat, limit: nat, k: nat, b: Published)
    requires BlockAt(mem, at, k, b.topic, b.data) && Total(b.data) <= available && |b.data| < 0x1_0000_0000
    ensures Delivers(b, k, limit, Inspect(mem, at, available, limit))
  {
    hide HeaderBytes, Checksum, Kept, MagicAt, SizeAt, CrcAt, TopicAt, SequenceAt;
    DecodeBlock(mem, at, k, b.topic, b.data);
  }

  lemma ReadKeepsInv(s: Sys, a: Action)
    requires Inv(s) && a.ARead? && Polite(s, a)
    ensures Inv(Step(s, a))
  {
    hide LogOk, Intact, Inspect, Kept;
    if a.reader < MAX_READERS {
      var i := a.reader;
      var s' := Step(s, a);
      if s.c.slots[i].active {
        CatchUpNeverFires(s.c, i);
        assert ReaderOk(s.c.cap, s.c.writePos, s.log, s.lap, s.c.slots[i], s.cur[i]);
        if s.c.slots[i].readPos < s.c.writePos { ReadDelivers(s, i, a.limit); }
      }
      forall j | 0 <= j < MAX_READERS
        ensures ReaderOk(s.c.cap, s.c.writePos, s.log, s.lap, s'.c.slots[j], s'.cur[j])
      {
        assert ReaderOk(s.c.cap, s.c.writePos, s.log, s.lap, s.c.slots[j], s.cur[j]);
      }
    }
  }

  lemma ReaderRelease(cap: nat, writePos: nat, log: seq<Published>, lap: nat, writerMax: nat, s: Slot, k: Cursor)
    requires LogOk(cap, writePos, log, lap, writerMax) && ReaderOk(cap, writePos, log, lap, s, k) && k.held
    ensures ReaderOk(cap, writePos, log, lap, s.(readPos := s.readPos + HEADER + k.size),
                     k.(next := k.next + 1, released := k.released + [k.next], held := false))
  {
    if s.active {
      assert BlockOk(cap, writePos, log, lap, writerMax, k.next);
    }
  }

  /** A block that an active reader holds lies untouched where its handle points. */
  lemma HeldIsIntact(s: Sys, i: nat)
    requires Inv(s) && i < MAX_READERS && s.c.slots[i].active && s.cur[i].held
    ensures s.cur[i].next < |s.log|
    ensures var k := s.cur[i]; var b := s.log[k.next];
      && BlockAt(s.c.mem, k.at, k.next, b.topic, b.data) && k.size == |b.data| && Honoured(s.c.mem, k.at)
  {
    hide BlockAt, MagicAt, Kept;
    assert ReaderOk(s.c.cap, s.c.writePos, s.log, s.lap, s.c.slots[i], s.cur[i]);
    var k := s.cur[i];
    var b := s.log[k.next];
    assert BlockAt(s.c.mem, b.start % s.c.cap, k.next, b.topic, b.data);
    InBuffer(s.c.mem, k.at, k.next, b);
    DecodeBlock(s.c.mem, k.at, k.next, b.topic, b.data);
  }

  lemma InBuffer(mem: seq<byte>, at: nat, k: nat, b: Published)
    requires BlockAt(mem, at, k, b.topic, b.data)
    ensures at + HEADER <= |mem|
  {
  }

  lemma ReleaseKeepsInv(s: Sys, a: Action)
    requires Inv(s) && a.ARelease? && Polite(s, a)
    ensures Inv(Step(s, a))
  {
    hide Intact, LogOk, Honoured, BlockAt;
    if a.reader < MAX_READERS {
      var i, s' := a.reader, Step(s, a);
      if s.c.slots[i].active {
        HeldIsIntact(s, i);
        ReaderRelease(s.c.cap, s.c.writePos, s.log, s.lap, s.writerMax, s.c.slots[i], s.cur[i]);
      }
      forall j | 0 <= j < MAX_READERS
        ensures ReaderOk(s.c.cap, s.c.writePos, s.log, s.lap, s'.c.slots[j], s'.cur[j])
      {
        assert ReaderOk(s.c.cap, s.c.writePos, s.log, s.lap, s.c.slots[j], s.cur[j]);
      }
    }
  }

  lemma RegisterKeepsInv(s: Sys, a: Action)
    requires Inv(s) && (a.ARegister? || a.AUnregister?) && Polite(s, a)
    ensures Inv(Step(s, a))
  {
    hide Intact;
    var s' := Step(s, a);
    forall j | 0 <= j < MAX_READERS
      ensures ReaderOk(s.c.cap, s.c.writePos, s.log, s.lap, s'.c.slots[j], s'.cur[j])
    {
      assert ReaderOk(s.c.cap, s.c.writePos, s.log, s.lap, s.c.slots[j], s.cur[j]);
    }
  }

  lemma StepKeepsInv(s: Sys, a: Action)
    requires Inv(s) && Polite(s, a)
    ensures Inv(Step(s, a))
  {
    match a
    case AWrite(_, _, _, _, _) => WriteKeepsInv(s, a);
    case ARegister(_, _) => RegisterKeepsInv(s, a);
    case ARead(_, _, _) => ReadKeepsInv(s, a);
    case ARelease(_, _, _) => ReleaseKeepsInv(s, a);
    case AUnregister(_) => RegisterKeepsInv(s, a);
  }

  lemma {:induction false} RunKeepsInv(s: Sys, schedule: seq<Action>)
    requires Inv(s) && PoliteRun(s, schedule)
    ensures Inv(Run(s, schedule))
  {
    hide Inv, Polite, Step;
    if schedule != [] {
      var k := |schedule| - 1;
      var front := schedule[..k];
      forall j | 0 <= j < |front|
        ensures Polite(Run(s, front[..j]), front[j])
      {
        assert front[..j] == schedule[..j] && front[j] == schedule[j];
      }
      RunKeepsInv(s, front);
      assert Polite(Run(s, schedule[..k]), schedule[k]);
      StepKeepsInv(Run(s, front), schedule[k]);
    }
  }

  lemma InitInv(cap: nat, mem: seq<byte>, writerMax: nat, dropNewest: bool)
    requires |mem| == cap && writerMax < 0x1_0000_0000
    ensures Inv(Init(cap, mem, writerMax, dropNewest))
  {
  }

  // ------------------------------------------------------------------ whole runs

  /** What a run guarantees to reader `i`, reading with block limit `limit`. */
  ghost predicate ReaderService(s: Sys, i: nat, limit: nat)
    requires Fit(s) && i < MAX_READERS
  {
    var c, k := s.c, s.cur[i];
    && c.slots[i].readPos <= c.writePos <= c.slots[i].readPos + c.cap
    && k.next <= |s.log| && c.slots[i].readPos == StartOf(s.log, c.writePos, k.next)
    && (c.slots[i].readPos < c.writePos <==> k.next < |s.log|)
    && Increasing(k.released, k.next)
    && |s.log| == |k.released| + k.skipped + (|s.log| - k.next)
    && (k.next < |s.log| ==> Delivers(s.log[k.next], k.next, limit, ReadOutcome(c, i, limit)))
    && (k.next == |s.log| ==> ReadOutcome(c, i, limit).NoData?)
  }

  /**
   * After every polite run, every active reader stands on a block boundary at most one capacity
   * behind; a tryRead returns exactly the next published block, or that it exceeds the reader's
   * limit, when there is one and nothing otherwise; and the published blocks are exactly those released, skipped at wraps and pending.
   */
  lemma EveryReaderIsServed(cap: nat, mem: seq<byte>, writerMax: nat, dropNewest: bool,
                            schedule: seq<Action>, i: nat, limit: nat)
    requires |mem| == cap && writerMax < 0x1_0000_0000 && i < MAX_READERS
    requires PoliteRun(Init(cap, mem, writerMax, dropNewest), schedule)
    ensures var s := Run(Init(cap, mem, writerMax, dropNewest), schedule);
      Fit(s) && (s.c.slots[i].active ==> ReaderService(s, i, limit))
  {
    hide ReaderService, LogOk, Intact, ReaderOk;
    InitInv(cap, mem, writerMax, dropNewest);
    RunKeepsInv(Init(cap, mem, writerMax, dropNewest), schedule);
    var s := Run(Init(cap, mem, writerMax, dropNewest), schedule);
    if s.c.slots[i].active { InvServes(s, i, limit); }
  }

  /**
   * After every polite run, a block that an active reader holds between tryRead and releaseBlock
   * lies unchanged, header and payload, where its handle points, so its release will be honoured.
   */
  lemma EveryHeldBlockIsIntact(cap: nat, mem: seq<byte>, writerMax: nat, dropNewest: bool, schedule: seq<Action>, i: nat)
    requires |mem| == cap && writerMax < 0x1_0000_0000 && i < MAX_READERS
    requires PoliteRun(Init(cap, mem, writerMax, dropNewest), schedule)
    ensures var s := Run(Init(cap, mem, writerMax, dropNewest), schedule);
      && Fit(s)
      && (s.c.slots[i].active && s.cur[i].held ==>
            && s.cur[i].next < |s.log|
            && var k := s.cur[i]; var b := s.log[k.next];
               BlockAt(s.c.mem, k.at, k.next, b.topic, b.data) && k.size == |b.data| && Honoured(s.c.mem, k.at))
  {
    hide LogOk, Intact, ReaderOk, BlockAt, Honoured;
    InitInv(cap, mem, writerMax, dropNewest);
    RunKeepsInv(Init(cap, mem, writerMax, dropNewest), schedule);
    var s := Run(Init(cap, mem, writerMax, dropNewest), schedule);
    if s.c.slots[i].active && s.cur[i].held { HeldIsIntact(s, i); }
  }

  lemma InvServes(s: Sys, i: nat, limit: nat)
    requires Inv(s) && i < MAX_READERS && s.c.slots[i].active
    ensures ReaderService(s, i, limit)
  {
    hide Intact, Kept, Inspect;
    assert ReaderOk(s.c.cap, s.c.writePos, s.log, s.lap, s.c.slots[i], s.cur[i]);
    CatchUpNeverFires(s.c, i);
    if s.cur[i].next < |s.log| {
      assert BlockOk(s.c.cap, s.c.writePos, s.log, s.lap, s.writerMax, s.cur[i].next);
      ReadDelivers(s, i, limit);
    }
  }

  /** Right after a wrapping write the backlog of every active reader is exactly the new block. */
  lemma WrapLeavesNewBlock(s: Sys, a: Action, i: nat)
    requires Inv(s) && a.AWrite? && Polite(s, a) && i < MAX_READERS
    requires Accepts(s.c, |a.data|, s.writerMax, a.last, a.now, a.alive)
    requires WrapsFor(Cleanup(s.c, a.last, a.now, a.alive), |a.data|)
    ensures var s' := StepWrite(s, a);
      s'.c.slots[i].active ==> s'.cur[i].next == |s'.log| - 1 && s'.cur[i].released == s.cur[i].released
  {
    hide LogOk, Intact, HasRoom, BlockStart, WrapsFor, Stored, Offset, Stale;
    var c1 := Cleanup(s.c, a.last, a.now, a.alive);
    var b := Published(BlockStart(c1, |a.data|), a.topic, a.data);
    CleanupKeepsInv(s, a.last, a.now, a.alive);
    PlaceOfBlock(c1, |a.data|);
    RetiredWereActive(s, a.last, a.now, a.alive);
    assert ReaderOk(c1.cap, c1.writePos, s.log, s.lap, c1.slots[i], s.cur[i]);
    assert HasRoom(c1, |a.data|);
    RoomCoversBlock(c1, |a.data|);
    ReaderWrap(c1.cap, c1.writePos, s.log, s.lap, c1.slots[i], s.cur[i], b);
  }

  lemma RoomCoversBlock(c: Chan, size: nat)
    requires HasRoom(c, size)
    ensures HEADER + size <= c.cap
  {
  }
}
