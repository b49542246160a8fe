/** The large-data channel's own count of its readers, over every run. */
module LargeReaderCount {
  import opened Bytes
  import opened Modular
  import opened LargeChannel
  import opened LargeRuns

  function ActiveCount(slots: seq<Slot>): nat {
    if slots == [] then 0 else ActiveCount(slots[..|slots| - 1]) + (if slots[|slots| - 1].active then 1 else 0)
  }

  lemma {:induction false} CountBound(slots: seq<Slot>)
    ensures ActiveCount(slots) <= |slots|
  {
    if slots != [] { CountBound(slots[..|slots| - 1]); }
  }

  lemma {:induction false} CountSet(slots: seq<Slot>, i: nat, s: Slot)
    requires i < |slots|
    ensures ActiveCount(slots[i := s]) == ActiveCount(slots) - (if slots[i].active then 1 else 0) + (if s.active then 1 else 0)
  {
    var k := |slots| - 1;
    if i < k {
      CountSet(slots[..k], i, s);
      assert slots[i := s][..k] == slots[..k][i := s];
    } else {
      assert slots[i := s][..k] == slots[..k];
    }
  }

  lemma {:induction false} CountSame(a: seq<Slot>, b: seq<Slot>)
    requires |a| == |b| && forall i :: 0 <= i < |a| ==> a[i].active == b[i].active
    ensures ActiveCount(a) == ActiveCount(b)
  {
    if a != [] { CountSame(a[..|a| - 1], b[..|b| - 1]); }
  }

  lemma {:induction false} CountRetired(slots: seq<Slot>, now: nat, alive: set<int>)
    ensures ActiveCount(RetireAll(slots, now, alive)) == ActiveCount(slots) - StaleCount(slots, now, alive)
  {
    if slots != [] {
      hide Elapsed;
      var k := |slots| - 1;
      CountRetired(slots[..k], now, alive);
      assert RetireAll(slots, now, alive)[..k] == RetireAll(slots[..k], now, alive);
    }
  }

  /** `a` unregisters a slot that is not in use. */
  predicate IdleUnregister(s: Sys, a: Action) {
    a.AUnregister? && a.reader < |s.c.slots| && a.reader < MAX_READERS && !s.c.slots[a.reader].active
  }

  function IdleUnregisters(s: Sys, schedule: seq<Action>): nat {
    if schedule == [] then 0
    else
      var k := |schedule| - 1;
      IdleUnregisters(s, schedule[..k]) + (if IdleUnregister(Run(s, schedule[..k]), schedule[k]) then 1 else 0)
  }

  lemma WriteCount(s: Sys, a: Action, idle: nat)
    requires Fit(s) && a.AWrite? && Congruent(s.c.numReaders + idle, ActiveCount(s.c.slots))
    ensures var s' := StepWrite(s, a); Fit(s') && Congruent(s'.c.numReaders + idle, ActiveCount(s'.c.slots))
  {
    hide Congruent, StaleCount, Stale, ActiveCount, Stored, MinReadPos, Elapsed;
    var n := StaleCount(s.c.slots, a.now, a.alive);
    CountRetired(s.c.slots, a.now, a.alive);
    CongruentShift(s.c.numReaders + idle, ActiveCount(s.c.slots), -(n as int));
    assert s.c.numReaders + idle - n == (s.c.numReaders - n) + idle;
    CongruentWrap(s.c.numReaders - n, idle, ActiveCount(s.c.slots) - n);
    var c1 := Cleanup(s.c, a.last, a.now, a.alive);
    if HasRoom(c1, |a.data|) { CountSame(c1.slots, MoveAll(c1.slots, BlockStart(c1, |a.data|))); }
  }

  lemma StepCount(s: Sys, a: Action, idle: nat)
    requires Fit(s) && Congruent(s.c.numReaders + idle, ActiveCount(s.c.slots))
    ensures var s' := Step(s, a);
      Fit(s') && Congruent(s'.c.numReaders + idle + (if IdleUnregister(s, a) then 1 else 0), ActiveCount(s'.c.slots))
  {
    hide Congruent, ActiveCount, ReadOutcome, StepWrite, Unregister, TryRead, Release, Register;
    match a
    case AWrite(_, _, _, _, _) => WriteCount(s, a, idle);
    case ARegister(now, pid) => RegisterCount(s, now, pid, idle);
    case AUnregister(i) => if i < MAX_READERS { UnregisterCount(s, i, idle); }
    case ARead(i, limit, now) => if i < MAX_READERS { ReadCount(s, i, limit, now); }
    case ARelease(i, at, size) => if i < MAX_READERS { ReleaseCount(s, i, at, size); }
  }

  lemma RegisterCount(s: Sys, now: nat, pid: int, idle: nat)
    requires Fit(s) && Congruent(s.c.numReaders + idle, ActiveCount(s.c.slots))
    ensures var c' := Register(s.c, now, pid);
      |c'.slots| == MAX_READERS && c'.mem == s.c.mem && c'.cap == s.c.cap && Congruent(c'.numReaders + idle, ActiveCount(c'.slots))
  {
    hide Congruent, ActiveCount;
    var n, k, i := s.c.numReaders, ActiveCount(s.c.slots), FreeSlot(s.c.slots);
    if i < MAX_READERS {
      CountSet(s.c.slots, i, Slot(true, 0, pid, now));
      CongruentShift(n + idle, k, 1);
      assert n + idle + 1 == (n + 1) + idle;
      CongruentWrap(n + 1, idle, k + 1);
    }
  }

  lemma ReadCount(s: Sys, i: nat, limit: nat, now: nat)
    requires Fit(s) && i < MAX_READERS
    ensures var c' := TryRead(s.c, i, limit, now);
      c' == s.c.(slots := c'.slots) && |c'.slots| == MAX_READERS && ActiveCount(c'.slots) == ActiveCount(s.c.slots)
  {
    hide ReadOutcome, CaughtUp, ActiveCount;
    CountSame(TryRead(s.c, i, limit, now).slots, s.c.slots);
  }

  lemma ReleaseCount(s: Sys, i: nat, at: nat, size: nat)
    requires Fit(s) && i < MAX_READERS
    ensures var c' := Release(s.c, i, at, size);
      c' == s.c.(slots := c'.slots) && |c'.slots| == MAX_READERS && ActiveCount(c'.slots) == ActiveCount(s.c.slots)
  {
    hide ActiveCount;
    CountSame(Release(s.c, i, at, size).slots, s.c.slots);
  }

  lemma UnregisterCount(s: Sys, i: nat, idle: nat)
    requires Fit(s) && i < MAX_READERS && Congruent(s.c.numReaders + idle, ActiveCount(s.c.slots))
    ensures var c' := Unregister(s.c, i);
      && |c'.slots| == MAX_READERS && c'.mem == s.c.mem && c'.cap == s.c.cap
      && Congruent(c'.numReaders + idle + (if s.c.slots[i].active then 0 else 1), ActiveCount(c'.slots))
  {
    hide Congruent, ActiveCount;
    var n, k := s.c.numReaders, ActiveCount(s.c.slots);
    CountSet(s.c.slots, i, s.c.slots[i].(active := false, pid := 0));
    if s.c.slots[i].active {
      CongruentShift(n + idle, k, -1);
      assert n + idle - 1 == (n - 1) + idle;
      CongruentWrap(n - 1, idle, k - 1);
    } else {
      assert n + idle == (n - 1) + (idle + 1);
      CongruentWrap(n - 1, idle + 1, k);
    }
  }

  /**
   * Over every run num_readers is the number of active readers less the number of calls that
   * unregistered a slot not in use, modulo 2^32; without such calls it is exact.
   */
  lemma {:induction false} ReadersAreCounted(cap: nat, mem: seq<byte>, writerMax: nat, dropNewest: bool, schedule: seq<Action>)
    requires |mem| == cap
    ensures var s0 := Init(cap, mem, writerMax, dropNewest);
      var s, idle := Run(s0, schedule), IdleUnregisters(s0, schedule);
      && Fit(s) && Congruent(s.c.numReaders + idle, ActiveCount(s.c.slots))
      && (idle == 0 ==> s.c.numReaders == ActiveCount(s.c.slots))
  {
    hide Step, Congruent, IdleUnregister;
    var s0 := Init(cap, mem, writerMax, dropNewest);
    if schedule == [] {
      NoneActive(s0.c.slots);
    } else {
      var k := |schedule| - 1;
      ReadersAreCounted(cap, mem, writerMax, dropNewest, schedule[..k]);
      StepCount(Run(s0, schedule[..k]), schedule[k], IdleUnregisters(s0, schedule[..k]));
    }
    var s := Run(s0, schedule);
    CountBound(s.c.slots);
    if IdleUnregisters(s0, schedule) == 0 { CongruentSmall(s.c.numReaders, ActiveCount(s.c.slots)); }
  }

  lemma {:induction false} NoneActive(slots: seq<Slot>)
    requires forall i :: 0 <= i < |slots| ==> !slots[i].active
    ensures ActiveCount(slots) == 0 && Congruent(0, ActiveCount(slots))
  {
    if slots != [] { NoneActive(slots[..|slots| - 1]); }
  }
}
