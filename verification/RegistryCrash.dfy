/**
 * The registry at the level of single stores, with a lock holder that may die between any two of
 * them. The next holder merely marks the lock consistent, so whatever the dead one left stays.
 */
module RegistryCrash {
  import opened Modular

  const CAPACITY: nat := 256

  /** Stores to id, name, pid, heartbeat and version between the ones that matter here. */
  const REGISTER_FIELDS: nat := 19
  const UPDATE_FIELDS: nat := 11
  const CLEAR_FIELDS: nat := 19

  /** Which of these stores, counted as `done` counts them, is the one to the heartbeat. */
  const REGISTER_BEAT: nat := 18
  const UPDATE_BEAT: nat := 9
  const UNREGISTER_BEAT: nat := 20
  const CLEANUP_BEAT: nat := 4

  /** A call under the lock, `done` stores into its work. Cleanup works slot by slot on an oracle's stale set. */
  datatype Holder =
    | Nobody
    | Registering(slot: nat, done: nat)
    | Updating(slot: nat, done: nat)
    | Unregistering(slot: nat, done: nat)
    | Cleaning(stale: set<nat>, slot: nat, done: nat)
    | Beating(slot: nat)

  /**
   * `beats` says which slots hold a heartbeat other than 0. `missing` and `extra` record the
   * deaths that left the counter one too low or one too high.
   */
  datatype State = State(
    flags: seq<nat>, beats: seq<bool>, num: nat, holder: Holder, deaths: nat, missing: nat, extra: nat)

  /** Update, Beat and Unregister stand for calls whose id is found in the given slot. */
  datatype Action =
    | Register(slot: nat) | Update(slot: nat) | Beat(slot: nat) | Unregister(slot: nat)
    | Cleanup(stale: set<nat>) | Store | Die

  function Init(): State { State(seq(CAPACITY, _ => 0), seq(CAPACITY, _ => false), 0, Nobody, 0, 0, 0) }

  predicate Shape(s: State) { |s.flags| == |s.beats| == CAPACITY }

  predicate Occupied(flag: nat) { flag % 2 == 1 }

  function Count(flags: seq<nat>): nat {
    if flags == [] then 0 else Count(flags[..|flags| - 1]) + (if Occupied(flags[|flags| - 1]) then 1 else 0)
  }

  function Add(num: nat, d: int): nat { (num + d) % TWO32 }

  // ------------------------------------------------------------------ steps

  /** Taking the lock for a call on a slot that the search found. */
  function Enter(s: State, a: Action): State
    requires Shape(s)
  {
    if !s.holder.Nobody? then s
    else match a
    case Register(i) => if i < CAPACITY && s.flags[i] == 0 then s.(holder := Registering(i, 0)) else s
    case Update(i) => if i < CAPACITY && Occupied(s.flags[i]) then s.(holder := Updating(i, 0)) else s
    case Beat(i) => if i < CAPACITY && Occupied(s.flags[i]) then s.(holder := Beating(i)) else s
    case Unregister(i) => if i < CAPACITY && Occupied(s.flags[i]) then s.(holder := Unregistering(i, 0)) else s
    case Cleanup(stale) => s.(holder := Cleaning(stale, 0, 0))
    case _ => s
  }

  /** The heartbeats after store number `k` of a call that writes its heartbeat with store number `at`. */
  function Beaten(beats: seq<bool>, i: nat, k: nat, at: nat, to: bool): (r: seq<bool>)
    requires i < |beats|
    ensures |r| == |beats|
  {
    if k == at then beats[i := to] else beats
  }

  /** The holder's next store; the last one releases the lock. */
  function NextStore(s: State): State
    requires Shape(s)
  {
    match s.holder
    case Nobody => s
    case Registering(i, k) =>
      if i >= CAPACITY then s
      else if k == 0 then s.(flags := s.flags[i := 1], holder := Registering(i, 1))
      else if k <= REGISTER_FIELDS then s.(beats := Beaten(s.beats, i, k, REGISTER_BEAT, true), holder := Registering(i, k + 1))
      else if k == REGISTER_FIELDS + 1 then s.(flags := s.flags[i := 3], holder := Registering(i, k + 1))
      else s.(num := Add(s.num, 1), holder := Nobody)
    case Updating(i, k) =>
      if i >= CAPACITY then s
      else if k < UPDATE_FIELDS then s.(beats := Beaten(s.beats, i, k, UPDATE_BEAT, true), holder := Updating(i, k + 1))
      else s.(flags := s.flags[i := 3], holder := Nobody)
    case Beating(i) =>
      if i >= CAPACITY then s else s.(beats := s.beats[i := true], holder := Nobody)
    case Unregistering(i, k) =>
      if i >= CAPACITY then s
      else if k == 0 then s.(num := Add(s.num, -1), holder := Unregistering(i, 1))
      else if k == 1 then s.(flags := s.flags[i := 0], holder := Unregistering(i, 2))
      else s.(beats := Beaten(s.beats, i, k, UNREGISTER_BEAT, false),
              holder := if k <= CLEAR_FIELDS then Unregistering(i, k + 1) else Nobody)
    case Cleaning(stale, i, k) =>
      if i >= CAPACITY then s.(holder := Nobody)
      else if k == 0 then
        s.(holder := if i in stale && Occupied(s.flags[i]) && s.beats[i] then Cleaning(stale, i, 1) else Cleaning(stale, i + 1, 0))
      else if k == 1 then s.(flags := s.flags[i := 0], holder := Cleaning(stale, i, 2))
      else if k <= CLEAR_FIELDS + 1 then s.(beats := Beaten(s.beats, i, k, CLEANUP_BEAT, false), holder := Cleaning(stale, i, k + 1))
      else s.(num := Add(s.num, -1), holder := Cleaning(stale, i + 1, 0))
  }

  /** By how much the counter is off because of the call in progress. */
  function Owed(h: Holder): int {
    match h
    case Registering(_, k) => if k >= 1 then 1 else 0
    case Unregistering(_, k) => if k == 1 then 1 else 0
    case Cleaning(_, _, k) => if k >= 2 then -1 else 0
    case _ => 0
  }

  function Death(s: State): State {
    if s.holder.Nobody? then s
    else s.(holder := Nobody, deaths := s.deaths + 1,
            missing := s.missing + (if Owed(s.holder) > 0 then 1 else 0),
            extra := s.extra + (if Owed(s.holder) < 0 then 1 else 0))
  }

  function Step(s: State, a: Action): State {
    if !Shape(s) then s
    else match a
    case Store => NextStore(s)
    case Die => Death(s)
    case _ => Enter(s, a)
  }

  function Run(s: State, schedule: seq<Action>): State {
    if schedule == [] then s
    else Step(Run(s, schedule[..|schedule| - 1]), schedule[|schedule| - 1])
  }

  // ------------------------------------------------------------------ invariant

  predicate HolderOk(flags: seq<nat>, h: Holder) {
    match h
    case Nobody => true
    case Registering(i, k) => i < |flags| && k <= REGISTER_FIELDS + 2 && (if k == 0 then flags[i] == 0 else Occupied(flags[i]))
    case Updating(i, k) => i < |flags| && Occupied(flags[i])
    case Beating(i) => i < |flags|
    case Unregistering(i, k) => i < |flags| && (k <= 1 ==> Occupied(flags[i]))
    case Cleaning(_, i, k) => k >= 1 ==> i < |flags| && k <= CLEAR_FIELDS + 2 && (k == 1 ==> Occupied(flags[i]))
  }

  /** The exact account: what the counter says, what is in flight, and what the dead left behind. */
  predicate Account(s: State) {
    && Shape(s) && s.num < TWO32
    && HolderOk(s.flags, s.holder)
    && Congruent(s.num + Owed(s.holder) + s.missing - s.extra, Count(s.flags))
    && s.missing + s.extra <= s.deaths
  }

  lemma {:induction false} CountSet(flags: seq<nat>, i: nat, f: nat)
    requires i < |flags|
    ensures Count(flags[i := f]) ==
            Count(flags) + (if Occupied(f) then 1 else 0) - (if Occupied(flags[i]) then 1 else 0)
  {
    var k := |flags| - 1;
    if i < k {
      CountSet(flags[..k], i, f);
      assert flags[i := f][..k] == flags[..k][i := f];
    } else {
      assert flags[i := f][..k] == flags[..k];
    }
  }

  lemma {:induction false} CountBound(flags: seq<nat>)
    ensures Count(flags) <= |flags|
  {
    if flags != [] { CountBound(flags[..|flags| - 1]); }
  }

  lemma {:induction false} CountNone(n: nat)
    ensures Count(seq(n, _ => 0)) == 0
  {
    if n > 0 {
      CountNone(n - 1);
      assert seq(n, _ => 0)[..n - 1] == seq(n - 1, _ => 0);
    }
  }

  lemma AddCongruent(num: nat, d: int, rest: int, c: int)
    requires Congruent(num + d + rest, c)
    ensures 0 <= Add(num, d) < TWO32 && Congruent(Add(num, d) + rest, c)
  {
  }

  lemma StoreKeepsAccount(s: State)
    requires Account(s)
    ensures Account(NextStore(s))
  {
    hide Congruent, Count, Add;
    var rest := s.missing - s.extra;
    match s.holder
    case Nobody =>
    case Registering(i, k) =>
      CountSet(s.flags, i, 1);
      CountSet(s.flags, i, 3);
      if k == 0 { CongruentShift(s.num + rest, Count(s.flags), 1); }
      AddCongruentIf(k == REGISTER_FIELDS + 2, s.num, 1, rest, Count(s.flags));
    case Updating(i, k) => CountSet(s.flags, i, 3);
    case Beating(i) =>
    case Unregistering(i, k) =>
      CountSet(s.flags, i, 0);
      if k == 0 { AddCongruent(s.num, -1, rest + 1, Count(s.flags)); }
      if k == 1 { CongruentShift(s.num + 1 + rest, Count(s.flags), -1); }
    case Cleaning(_, i, k) =>
      if k == 1 { CountSet(s.flags, i, 0); CongruentShift(s.num + rest, Count(s.flags), -1); }
      AddCongruentIf(k == CLEAR_FIELDS + 2, s.num, -1, rest, Count(s.flags));
  }

  lemma AddCongruentIf(on: bool, num: nat, d: int, rest: int, c: int)
    requires on ==> Congruent(num + d + rest, c)
    ensures on ==> 0 <= Add(num, d) < TWO32 && Congruent(Add(num, d) + rest, c)
  {
    if on { AddCongruent(num, d, rest, c); }
  }

  lemma StepKeepsAccount(s: State, a: Action)
    requires Account(s)
    ensures Account(Step(s, a))
  {
    hide Count;
    if a.Store? { StoreKeepsAccount(s); }
  }

  lemma {:induction false} EveryRunBalances(schedule: seq<Action>)
    ensures Account(Run(Init(), schedule))
  {
    hide Account, Step;
    if schedule == [] {
      StartsBalanced();
    } else {
      EveryRunBalances(schedule[..|schedule| - 1]);
      StepKeepsAccount(Run(Init(), schedule[..|schedule| - 1]), schedule[|schedule| - 1]);
    }
  }

  lemma StartsBalanced()
    ensures Account(Init())
  {
    CountNone(CAPACITY);
  }

  /**
   * With the lock free, num_entries plus the deaths that lost a count minus those that lost a
   * removal is the number of valid slots, modulo 2^32. So the two differ by at most the number of
   * holders that died, and without deaths they are equal.
   */
  lemma DriftIsBoundedByDeaths(schedule: seq<Action>)
    ensures var s := Run(Init(), schedule);
      s.holder.Nobody? ==>
        && Congruent(s.num + s.missing - s.extra, Count(s.flags))
        && s.missing + s.extra <= s.deaths
        && (s.deaths == 0 ==> s.num == Count(s.flags))
  {
    hide Run;
    EveryRunBalances(schedule);
    CountBound(Run(Init(), schedule).flags);
  }

  /** Only deaths change what the dead left behind. */
  lemma {:induction false} DriftStays(s: State, more: seq<Action>)
    requires Account(s) && Die !in more
    ensures var s' := Run(s, more); Account(s') && s'.missing == s.missing && s'.extra == s.extra && s'.deaths == s.deaths
  {
    hide Account, NextStore, Enter;
    if more != [] {
      var front, a := more[..|more| - 1], more[|more| - 1];
      DriftStays(s, front);
      StepKeepsAccount(Run(s, front), a);
      StoreKeepsHistory(Run(s, front), a);
    }
  }

  lemma StoreKeepsHistory(s: State, a: Action)
    requires a != Die
    ensures var s' := Step(s, a); s'.missing == s.missing && s'.extra == s.extra && s'.deaths == s.deaths
  {
  }

  ghost predicate Short(s: State) { s.deaths == 1 && Congruent(s.num + 1, Count(s.flags)) }

  /**
   * A single death already costs one for good: after one schedule, and then along every
   * continuation without a death, the counter is one short whenever the lock is free.
   */
  lemma OneDeathDrifts() returns (t: seq<Action>)
    ensures var s := Run(Init(), t); s.holder.Nobody? && s.num == 0 && Count(s.flags) == 1 && s.deaths == 1
    ensures forall more :: Die !in more ==> var s := Run(Run(Init(), t), more); s.holder.Nobody? ==> Short(s)
  {
    hide Run;
    t := DeathAfterClaim();
    var s := Run(Init(), t);
    EveryRunBalances(t);
    forall more | Die !in more
      ensures var s' := Run(s, more); s'.holder.Nobody? ==> Short(s')
    {
      DriftStays(s, more);
    }
  }

  /** A registering process dies right after it claimed slot 0. */
  lemma DeathAfterClaim() returns (t: seq<Action>)
    ensures var s := Run(Init(), t);
      s.holder.Nobody? && s.num == 0 && Count(s.flags) == 1 && s.deaths == 1 && s.missing == 1 && s.extra == 0
  {
    t := [Register(0), Store, Die];
    var s := Init();
    assert t[..2][..1] == [Register(0)] && t[..2] == [Register(0), Store] && [Register(0)][..0] == [];
    assert Run(s, []) == s;
    assert Run(s, [Register(0)]) == s.(holder := Registering(0, 0));
    var s2 := Run(s, t[..2]);
    assert s2 == s.(flags := s.flags[0 := 1], holder := Registering(0, 1));
    assert Run(s, t) == s2.(holder := Nobody, deaths := 1, missing := 1);
    CountNone(CAPACITY);
    CountSet(s.flags, 0, 1);
  }

  // ------------------------------------------------------------------ slots without a heartbeat

  /** The slot a call works on. */
  function SlotOf(h: Holder): int {
    match h
    case Nobody => -1
    case Registering(i, _) => i
    case Updating(i, _) => i
    case Beating(i) => i
    case Unregistering(i, _) => i
    case Cleaning(_, i, k) => if k == 0 then -1 else i
  }

  /** A valid slot without a heartbeat on which nobody is at work. */
  predicate Orphan(s: State, i: nat) {
    Shape(s) && i < CAPACITY && Occupied(s.flags[i]) && !s.beats[i] && SlotOf(s.holder) != i
  }

  /** A call that finds its id in slot `i`. */
  predicate Finds(a: Action, i: nat) { a == Update(i) || a == Beat(i) || a == Unregister(i) }

  lemma OrphanStep(s: State, i: nat, a: Action)
    requires Orphan(s, i) && !Finds(a, i)
    ensures Orphan(Step(s, a), i) && Step(s, a).flags[i] == s.flags[i]
  {
  }

  /**
   * A registrant that dies between claiming its slot and storing its heartbeat leaves an orphan:
   * no cleanup ever frees it and no registration ever reuses it, along every continuation, deaths
   * included, until some call finds its id in that slot.
   */
  lemma {:induction false} OrphanStays(s: State, i: nat, more: seq<Action>)
    requires Orphan(s, i) && forall a :: a in more ==> !Finds(a, i)
    ensures Orphan(Run(s, more), i) && Run(s, more).flags[i] == s.flags[i]
  {
    if more != [] {
      hide Orphan, Step;
      var front := more[..|more| - 1];
      OrphanStays(s, i, front);
      OrphanStep(Run(s, front), i, more[|more| - 1]);
      OrphanShape(Run(s, front), i);
      OrphanShape(Run(s, more), i);
    }
  }

  lemma OrphanShape(s: State, i: nat)
    requires Orphan(s, i)
    ensures Shape(s) && i < CAPACITY
  {
  }

  /** A death leaves a slot without heartbeat orphaned exactly when the slot is valid: in a registration, from the claim on. */
  lemma DeathOrphans(s: State, i: nat)
    requires Account(s) && i < CAPACITY && SlotOf(s.holder) == i && !s.beats[i]
    ensures Orphan(Death(s), i) <==> Occupied(s.flags[i])
    ensures s.holder.Registering? ==> (Orphan(Death(s), i) <==> s.holder.done >= 1)
  {
    hide Count, Congruent;
  }

  function Stores(n: nat): seq<Action> { seq(n, _ => Store) }

  lemma {:induction false} RunStores(s: State, n: nat)
    ensures Run(s, Stores(n + 1)) == Step(Run(s, Stores(n)), Store)
  {
    assert Stores(n + 1)[..n] == Stores(n);
  }

  /** Each of the calls that find it does put an end to it: an unregistration frees the slot, the others give it a heartbeat. */
  lemma FindersEndIt(s: State, i: nat)
    requires Orphan(s, i) && s.holder.Nobody?
    ensures var f := Run(Step(s, Unregister(i)), Stores(2)); Shape(f) && f.flags[i] == 0
    ensures var b := Run(Step(s, Beat(i)), Stores(1)); Shape(b) && b.beats[i]
    ensures var u := Run(Step(s, Update(i)), Stores(UPDATE_BEAT + 1)); Shape(u) && u.beats[i]
  {
    hide Run;
    var f := Step(s, Unregister(i));
    RunNone(f);
    RunStores(f, 0);
    RunStores(f, 1);
    var b := Step(s, Beat(i));
    RunNone(b);
    RunStores(b, 0);
    var u := Step(s, Update(i));
    UpdateSteps(u, i, UPDATE_BEAT);
    RunStores(u, UPDATE_BEAT);
  }

  lemma RunNone(s: State)
    ensures Run(s, Stores(0)) == s
  {
  }

  lemma {:induction false} UpdateSteps(u: State, i: nat, n: nat)
    requires Shape(u) && i < CAPACITY && u.holder == Updating(i, 0) && n <= UPDATE_BEAT
    ensures Run(u, Stores(n)) == u.(holder := Updating(i, n))
  {
    hide Run;
    if n == 0 {
      RunNone(u);
    } else {
      UpdateSteps(u, i, n - 1);
      RunStores(u, n - 1);
    }
  }

  /** Such a death occurs, and then the slot is lost to everybody who does not use its id. */
  lemma ClaimThenDeath() returns (t: seq<Action>)
    ensures var s := Run(Init(), t); Orphan(s, 0) && s.holder.Nobody?
    ensures forall more :: (forall a :: a in more ==> !Finds(a, 0)) ==> Orphan(Run(Run(Init(), t), more), 0)
  {
    t := [Register(0), Store, Die];
    var s := Init();
    assert t[..2][..1] == [Register(0)] && t[..2] == [Register(0), Store] && [Register(0)][..0] == [];
    assert Run(s, []) == s;
    assert Run(s, [Register(0)]) == s.(holder := Registering(0, 0));
    assert Run(s, t[..2]) == s.(flags := s.flags[0 := 1], holder := Registering(0, 1));
    assert Orphan(Run(s, t), 0);
    forall more | forall a :: a in more ==> !Finds(a, 0)
      ensures Orphan(Run(Run(Init(), t), more), 0)
    {
      OrphanStays(Run(s, t), 0, more);
    }
  }

  // ------------------------------------------------------------------ calls that are left alone

  lemma {:induction false} RunMore(s: State, a: nat, b: nat)
    ensures Run(s, Stores(a + b)) == Run(Run(s, Stores(a)), Stores(b))
    decreases b
  {
    hide Run, Step;
    if b == 0 {
      RunNone(Run(s, Stores(a)));
    } else {
      RunMore(s, a, b - 1);
      RunStores(s, a + b - 1);
      RunStores(Run(s, Stores(a)), b - 1);
    }
  }

  lemma RunFirst(s: State)
    ensures Run(s, Stores(1)) == Step(s, Store)
  {
    hide Step;
    RunNone(s);
    RunStores(s, 0);
  }

  lemma {:induction false} RegisterFields(s: State, i: nat, n: nat)
    requires Shape(s) && i < CAPACITY && s.holder == Registering(i, 1) && n <= REGISTER_FIELDS
    ensures Run(s, Stores(n)) == s.(holder := Registering(i, n + 1), beats := if n >= REGISTER_BEAT then s.beats[i := true] else s.beats)
  {
    hide Run;
    if n == 0 {
      RunNone(s);
    } else {
      RegisterFields(s, i, n - 1);
      RunStores(s, n - 1);
    }
  }

  /** A registration that completes makes its slot valid, gives it a heartbeat and counts it. */
  lemma RegisterCompletes(s: State, i: nat)
    requires Shape(s) && s.holder.Nobody? && i < CAPACITY && s.flags[i] == 0
    ensures Run(Step(s, Register(i)), Stores(1 + REGISTER_FIELDS + 1 + 1))
            == s.(flags := s.flags[i := 3], beats := s.beats[i := true], num := Add(s.num, 1))
  {
    hide Run, Add;
    var s1 := Step(s, Register(i));
    RunFirst(s1);
    var s2 := Step(s1, Store);
    RegisterFields(s2, i, REGISTER_FIELDS);
    var s3 := Run(s2, Stores(REGISTER_FIELDS));
    RunMore(s1, 1, REGISTER_FIELDS);
    RunFirst(s3);
    RunMore(s1, 1 + REGISTER_FIELDS, 1);
    var s4 := Step(s3, Store);
    RunFirst(s4);
    RunMore(s1, 1 + REGISTER_FIELDS + 1, 1);
    assert s2.flags[i := 3] == s.flags[i := 3];
  }

  /** What a cleanup frees. */
  predicate Clears(s: State, stale: set<nat>, j: nat)
    requires Shape(s) && j < CAPACITY
  {
    j in stale && Occupied(s.flags[j]) && s.beats[j]
  }

  lemma {:induction false} CleanFields(s: State, stale: set<nat>, i: nat, n: nat)
    requires Shape(s) && i < CAPACITY && s.holder == Cleaning(stale, i, 2) && n <= CLEAR_FIELDS
    ensures Run(s, Stores(n)) == s.(holder := Cleaning(stale, i, n + 2), beats := if n >= 3 then s.beats[i := false] else s.beats)
  {
    hide Run;
    if n == 0 {
      RunNone(s);
    } else {
      CleanFields(s, stale, i, n - 1);
      RunStores(s, n - 1);
    }
  }

  /** One slot of a cleanup. */
  lemma CleanSlot(s: State, stale: set<nat>, i: nat) returns (n: nat)
    requires Shape(s) && i < CAPACITY && s.holder == Cleaning(stale, i, 0)
    ensures Run(s, Stores(n)) ==
      if Clears(s, stale, i) then
        s.(holder := Cleaning(stale, i + 1, 0), flags := s.flags[i := 0], beats := s.beats[i := false], num := Add(s.num, -1))
      else s.(holder := Cleaning(stale, i + 1, 0))
  {
    hide Run, Add;
    RunFirst(s);
    n := 1;
    if Clears(s, stale, i) {
      var s1 := Step(s, Store);
      RunFirst(s1);
      RunMore(s, 1, 1);
      var s2 := Step(s1, Store);
      CleanFields(s2, stale, i, CLEAR_FIELDS);
      RunMore(s, 2, CLEAR_FIELDS);
      var s3 := Run(s2, Stores(CLEAR_FIELDS));
      RunFirst(s3);
      RunMore(s, 2 + CLEAR_FIELDS, 1);
      n := 2 + CLEAR_FIELDS + 1;
    }
  }

  lemma {:induction false} CleanFrom(s: State, stale: set<nat>, i: nat) returns (n: nat)
    requires Shape(s) && i <= CAPACITY && s.holder == Cleaning(stale, i, 0)
    ensures var s' := Run(s, Stores(n));
      && Shape(s') && s'.holder.Nobody?
      && forall j :: 0 <= j < CAPACITY ==> s'.flags[j] == if j >= i && Clears(s, stale, j) then 0 else s.flags[j]
    decreases CAPACITY - i
  {
    hide Run, Add;
    if i == CAPACITY {
      RunFirst(s);
      n := 1;
    } else {
      var one := CleanSlot(s, stale, i);
      var s1 := Run(s, Stores(one));
      var rest := CleanFrom(s1, stale, i + 1);
      RunMore(s, one, rest);
      n := one + rest;
    }
  }

  /** A cleanup that completes frees exactly the stale slots that are valid and have a heartbeat. */
  lemma CleanupCompletes(s: State, stale: set<nat>) returns (n: nat)
    requires Shape(s) && s.holder.Nobody?
    ensures var s' := Run(Step(s, Cleanup(stale)), Stores(n));
      && Shape(s') && s'.holder.Nobody?
      && forall j :: 0 <= j < CAPACITY ==> s'.flags[j] == if j in stale && Occupied(s.flags[j]) && s.beats[j] then 0 else s.flags[j]
  {
    hide Run;
    n := CleanFrom(Step(s, Cleanup(stale)), stale, 0);
  }
}
