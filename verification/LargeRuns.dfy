/** One writer and up to sixteen readers of the large-data channel, over whole runs of atomic calls. */
module LargeRuns {
  import opened Bytes
  import opened LargeBlock
  import opened LargeChannel

  /** A block as published, with its place in the unbounded stream of positions. */
  datatype Published = Published(start: nat, topic: seq<byte>, data: seq<byte>)

  /**
   * What has become of one reader since it registered: the log index it reads next, the indices
   * it has released, how many it was made to skip, and the handle it holds between tryRead and
   * releaseBlock: the offset of the header and the payload size.
   */
  datatype Cursor = Cursor(next: nat, released: seq<nat>, skipped: nat, held: bool, at: nat, size: nat)

  const FRESH: Cursor := Cursor(0, [], 0, false, 0, 0)

  /** The channel, the writer's block limit, and history variables. `lap` is where the last wrap put the log. */
  datatype Sys = Sys(c: Chan, writerMax: nat, log: seq<Published>, lap: nat, cur: seq<Cursor>)

  datatype Action =
    | AWrite(topic: seq<byte>, data: seq<byte>, last: nat, now: nat, alive: set<int>)
    | ARegister(time: nat, pid: int)
    | ARead(reader: nat, limit: nat, when: nat)
    | ARelease(reader: nat, at: nat, size: nat)
    | AUnregister(reader: nat)

  function Init(cap: nat, mem: seq<byte>, writerMax: nat, dropNewest: bool): Sys {
    Sys(Chan(cap, mem, 0, 0, seq(MAX_READERS, _ => Slot(false, 0, 0, 0)), 0, dropNewest, 0),
        writerMax, [], 0, seq(MAX_READERS, _ => FRESH))
  }

  // ------------------------------------------------------------------ steps

  function Skip(k: Cursor, s: Slot, to: nat, index: nat): Cursor {
    if s.active && s.readPos < to && k.next <= index then k.(next := index, skipped := k.skipped + (index - k.next)) else k
  }

  function SkipAll(cur: seq<Cursor>, slots: seq<Slot>, to: nat, index: nat): (r: seq<Cursor>)
    requires |cur| == |slots|
    ensures |r| == |cur|
  {
    seq(|cur|, i requires 0 <= i < |cur| => Skip(cur[i], slots[i], to, index))
  }

  predicate Fit(s: Sys) { Shape(s.c) && |s.cur| == MAX_READERS }

  function StepWrite(s: Sys, a: Action): Sys
    requires Fit(s) && a.AWrite?
  {
    var c' := Write(s.c, a.topic, a.data, s.writerMax, a.last, a.now, a.alive);
    if !Accepts(s.c, |a.data|, s.writerMax, a.last, a.now, a.alive) then s.(c := c')
    else
      var c1 := Cleanup(s.c, a.last, a.now, a.alive);
      var start := BlockStart(c1, |a.data|);
      var s' := s.(c := c', log := s.log + [Published(start, a.topic, a.data)]);
      if WrapsFor(c1, |a.data|) then s'.(lap := |s.log|, cur := SkipAll(s.cur, c1.slots, start, |s.log|)) else s'
  }

  function Step(s: Sys, a: Action): Sys {
    if !Fit(s) then s
    else match a
    case AWrite(_, _, _, _, _) => StepWrite(s, a)
    case ARegister(now, pid) =>
      var i := FreeSlot(s.c.slots);
      if i == MAX_READERS then s else s.(c := Register(s.c, now, pid), cur := s.cur[i := FRESH])
    case ARead(i, limit, now) =>
      if i >= MAX_READERS then s
      else
        var o := ReadOutcome(s.c, i, limit);
        s.(c := TryRead(s.c, i, limit, now),
           cur := if o.Success? then s.cur[i := s.cur[i].(held := true, at := ReadOffset(s.c, i), size := |o.data|)] else s.cur)
    case ARelease(i, at, size) =>
      if i >= MAX_READERS then s
      else
        var k := s.cur[i];
        s.(c := Release(s.c, i, at, size),
           cur := if k.held && Honoured(s.c.mem, at)
                  then s.cur[i := k.(next := k.next + 1, released := k.released + [k.next], held := false)] else s.cur)
    case AUnregister(i) =>
      if i >= MAX_READERS then s else s.(c := Unregister(s.c, i))
  }

  function Run(s: Sys, schedule: seq<Action>): Sys {
    if schedule == [] then s
    else Step(Run(s, schedule[..|schedule| - 1]), schedule[|schedule| - 1])
  }

  /**
   * What callers have to respect. No reader registers once the channel has gone past its first lap;
   * no write wraps while an active reader sits between tryRead and releaseBlock; a reader's block
   * limit covers the block it is about to read; and a slot in use is released only after a tryRead
   * of its own that succeeded, once, with the handle it got.
   */
  ghost predicate Polite(s: Sys, a: Action) {
    match a
    case ARegister(_, _) => s.c.writePos <= s.c.cap
    case AWrite(_, data, last, now, alive) =>
      Accepts(s.c, |data|, s.writerMax, last, now, alive) && WrapsFor(Cleanup(s.c, last, now, alive), |data|) ==>
        forall i :: 0 <= i < |s.cur| && i < |s.c.slots| && s.c.slots[i].active ==> !s.cur[i].held
    case ARead(i, limit, _) =>
      i < |s.cur| && i < |s.c.slots| && s.c.slots[i].active && s.cur[i].next < |s.log| ==> |s.log[s.cur[i].next].data| <= limit
    case ARelease(i, at, size) =>
      i < |s.cur| && i < |s.c.slots| && s.c.slots[i].active ==> s.cur[i].held && s.cur[i].at == at && s.cur[i].size == size
    case AUnregister(_) => true
  }

  ghost predicate PoliteRun(s: Sys, schedule: seq<Action>) {
    forall k :: 0 <= k < |schedule| ==> Polite(Run(s, schedule[..k]), schedule[k])
  }

  // ------------------------------------------------------------------ invariant

  /** Where block `k` starts, or where the next one may. */
  function StartOf(log: seq<Published>, writePos: nat, k: nat): nat {
    if k < |log| then log[k].start else writePos
  }

  function EndOf(b: Published): nat { b.start + Total(b.data) }

  /** Block `k` ends where the next one starts, unless a wrap came between, and lies in one piece in the buffer. */
  ghost predicate BlockOk(cap: nat, writePos: nat, log: seq<Published>, lap: nat, writerMax: nat, k: nat)
    requires k < |log|
  {
    && EndOf(log[k]) <= StartOf(log, writePos, k + 1) && EndOf(log[k]) <= writePos
    && (lap <= k ==> EndOf(log[k]) == StartOf(log, writePos, k + 1))
    && cap > 0 && log[k].start % cap + Total(log[k].data) <= cap && |log[k].data| <= writerMax
    && (log[k].start % cap == 0 || log[k].start % cap >= HEADER)
  }

  ghost predicate LogOk(cap: nat, writePos: nat, log: seq<Published>, lap: nat, writerMax: nat) {
    && lap <= |log|
    && (lap > 0 ==> writePos > cap)
    && StartOf(log, writePos, 0) == 0 && (log != [] ==> EndOf(log[|log| - 1]) == writePos)
    && forall k :: 0 <= k < |log| ==> BlockOk(cap, writePos, log, lap, writerMax, k)
  }

  /** Every block that starts at most one capacity behind the write position is still intact. */
  ghost predicate Intact(cap: nat, mem: seq<byte>, writePos: nat, log: seq<Published>) {
    forall k :: 0 <= k < |log| && cap > 0 && log[k].start + cap >= writePos ==>
      BlockAt(mem, log[k].start % cap, k, log[k].topic, log[k].data)
  }

  predicate Increasing(xs: seq<nat>, bound: nat) {
    && (forall i :: 0 <= i < |xs| ==> xs[i] < bound)
    && (forall i, j :: 0 <= i < j < |xs| ==> xs[i] < xs[j])
  }

  /** An active reader stands on a block boundary of the current lap, at most one capacity behind. */
  ghost predicate ReaderOk(cap: nat, writePos: nat, log: seq<Published>, lap: nat, s: Slot, k: Cursor) {
    s.active ==>
      && lap <= k.next <= |log|
      && s.readPos == StartOf(log, writePos, k.next)
      && s.readPos <= writePos <= s.readPos + cap
      && |k.released| + k.skipped == k.next
      && Increasing(k.released, k.next)
      && (k.held ==> k.next < |log| && cap > 0 && k.at == log[k.next].start % cap && k.size == |log[k.next].data|)
  }

  ghost predicate Inv(s: Sys) {
    && Fit(s) && s.writerMax < 0x1_0000_0000
    && s.c.sequence == |s.log|
    && LogOk(s.c.cap, s.c.writePos, s.log, s.lap, s.writerMax)
    && Intact(s.c.cap, s.c.mem, s.c.writePos, s.log)
    && forall i :: 0 <= i < MAX_READERS ==> ReaderOk(s.c.cap, s.c.writePos, s.log, s.lap, s.c.slots[i], s.cur[i])
  }
}
