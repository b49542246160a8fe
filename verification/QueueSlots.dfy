/**
 * Inbound queue slots of src/transport/SharedMemoryTransportV3.cpp: any number of senders claim
 * slots in a remote node's memory with compare-and-swap while that node refreshes its cached list.
 */
module QueueSlots {
  import opened Options

  const MAX_QUEUES: nat := 32

  type Sender = nat

  /** Progress of findOrCreateQueue. `mine` records, for the proof, a slot of the caller below the loaded count. */
  datatype Pc =
    | Idle
    | Scan(num: nat, at: nat, mine: Option<nat>)
    | Try(at: nat)
    | Claimed(slot: nat)
    | Named(slot: nat)
    | Active(slot: nat)
    | Done(found: Option<nat>, mine: Option<nat>)

  /** Progress of one refresh of receiveLoop_CV. `loaded` records the slots counted when num_queues was loaded. */
  datatype Receiver = RIdle | RScan(num: nat, loaded: set<nat>, at: nat, acc: seq<nat>)

  /** `owner`, `counted` and `known` are history variables; `known` goes with the cached count. */
  datatype State = State(
    flags: seq<nat>, name: seq<Option<Sender>>, num: nat, maxQueues: nat, pcs: map<Sender, Pc>,
    receiver: Receiver, cache: seq<nat>, cachedNum: nat,
    owner: seq<Option<Sender>>, counted: set<nat>, known: set<nat>)

  datatype Action = Begin(sender: Sender) | Advance(sender: Sender) | Load | Refresh

  function Init(maxQueues: nat): State {
    State(seq(MAX_QUEUES, _ => 0), seq(MAX_QUEUES, _ => None), 0, maxQueues, map[], RIdle, [], 0,
          seq(MAX_QUEUES, _ => None), {}, {})
  }

  predicate Shape(s: State) { |s.flags| == |s.name| == |s.owner| == MAX_QUEUES }

  function PcOf(s: State, x: Sender): Pc { if x in s.pcs then s.pcs[x] else Idle }

  // ------------------------------------------------------------------ steps

  /** A slot of `x` below `n`, if there is one. */
  function OwnBelow(owner: seq<Option<Sender>>, x: Sender, n: nat): (r: Option<nat>)
    ensures r.Some? ==> r.value < |owner| && r.value < n && owner[r.value] == Some(x)
    ensures r.None? ==> forall i :: 0 <= i < |owner| && i < n ==> owner[i] != Some(x)
  {
    if n == 0 then None
    else if n <= |owner| && owner[n - 1] == Some(x) then Some(n - 1)
    else OwnBelow(owner, x, n - 1)
  }

  function StepBegin(s: State, x: Sender): State {
    if PcOf(s, x).Idle? || PcOf(s, x).Done? then
      s.(pcs := s.pcs[x := Scan(s.num, 0, OwnBelow(s.owner, x, s.num))])
    else s
  }

  function StepAdvance(s: State, x: Sender): State
    requires Shape(s)
  {
    match PcOf(s, x)
    case Scan(n, j, mine) =>
      if j < n && j < MAX_QUEUES then
        if s.flags[j] % 2 == 1 && s.name[j] == Some(x) then s.(pcs := s.pcs[x := Done(Some(j), mine)])
        else s.(pcs := s.pcs[x := Scan(n, j + 1, mine)])
      else if n >= s.maxQueues then s.(pcs := s.pcs[x := Done(None, mine)])
      else s.(pcs := s.pcs[x := Try(0)])
    case Try(i) =>
      if i >= MAX_QUEUES then s.(pcs := s.pcs[x := Done(None, None)])
      else if s.flags[i] == 0 then s.(flags := s.flags[i := 1], owner := s.owner[i := Some(x)], pcs := s.pcs[x := Claimed(i)])
      else s.(pcs := s.pcs[x := Try(i + 1)])
    case Claimed(i) =>
      if i < MAX_QUEUES then s.(name := s.name[i := Some(x)], pcs := s.pcs[x := Named(i)]) else s
    case Named(i) =>
      if i < MAX_QUEUES then s.(flags := s.flags[i := 3], pcs := s.pcs[x := Active(i)]) else s
    case Active(i) =>
      s.(num := s.num + 1, counted := s.counted + {i}, pcs := s.pcs[x := Done(Some(i), None)])
    case _ => s
  }

  /** The receiver loads num_queues and starts a refresh when it differs or the list is empty. */
  function StepLoad(s: State): State {
    if s.receiver.RIdle? && (s.num != s.cachedNum || s.cache == []) then
      s.(receiver := RScan(s.num, s.counted, 0, []))
    else s
  }

  function StepRefresh(s: State): State
    requires Shape(s)
  {
    match s.receiver
    case RIdle => s
    case RScan(n, loaded, i, acc) =>
      if i < MAX_QUEUES then
        s.(receiver := RScan(n, loaded, i + 1, if s.flags[i] == 3 then acc + [i] else acc))
      else s.(receiver := RIdle, cache := acc, cachedNum := n, known := loaded)
  }

  function Step(s: State, a: Action): State {
    if !Shape(s) then s
    else match a
    case Begin(x) => StepBegin(s, x)
    case Advance(x) => StepAdvance(s, x)
    case Load => StepLoad(s)
    case Refresh => StepRefresh(s)
  }

  function Run(s: State, schedule: seq<Action>): State {
    if schedule == [] then s
    else Step(Run(s, schedule[..|schedule| - 1]), schedule[|schedule| - 1])
  }

  // ------------------------------------------------------------------ invariant

  /** What one slot's flags say about its owner's progress. */
  predicate SlotOk(i: nat, flag: nat, name: Option<Sender>, owner: Option<Sender>, counted: bool, pc: Pc) {
    && flag in {0, 1, 3}
    && (flag == 0 <==> owner == None)
    && (name != None ==> name == owner)
    && (flag == 0 ==> !counted)
    && (flag == 1 ==> !counted && pc in {Claimed(i), Named(i)})
    && (flag == 3 ==> name == owner && (counted || pc == Active(i)))
  }

  function OwnerPc(s: State, i: nat): Pc
    requires Shape(s) && i < MAX_QUEUES
  {
    if s.owner[i].Some? then PcOf(s, s.owner[i].value) else Idle
  }

  predicate SlotInv(s: State, i: nat)
    requires Shape(s) && i < MAX_QUEUES
  {
    SlotOk(i, s.flags[i], s.name[i], s.owner[i], i in s.counted, OwnerPc(s, i))
  }

  predicate OwnCounted(owner: seq<Option<Sender>>, counted: set<nat>, x: Sender) {
    forall i :: 0 <= i < |owner| && owner[i] == Some(x) ==> i in counted
  }

  /** What one sender's progress says about its slots. */
  predicate SenderOk(flags: seq<nat>, name: seq<Option<Sender>>, owner: seq<Option<Sender>>, counted: set<nat>, x: Sender, pc: Pc)
    requires |flags| == |name| == |owner| == MAX_QUEUES
  {
    match pc
    case Idle => OwnCounted(owner, counted, x)
    case Scan(n, j, mine) =>
      && OwnCounted(owner, counted, x)
      && (mine.Some? ==> mine.value < n && mine.value < MAX_QUEUES && j <= mine.value && owner[mine.value] == Some(x))
      && (mine.None? ==> forall i :: 0 <= i < n && i < MAX_QUEUES ==> owner[i] != Some(x))
    case Try(i) => OwnCounted(owner, counted, x) && i <= MAX_QUEUES && forall j :: 0 <= j < i ==> flags[j] != 0
    case Claimed(i) => i < MAX_QUEUES && flags[i] == 1 && owner[i] == Some(x) && OthersCounted(owner, counted, x, i)
    case Named(i) => i < MAX_QUEUES && flags[i] == 1 && owner[i] == Some(x) == name[i] && OthersCounted(owner, counted, x, i)
    case Active(i) => i < MAX_QUEUES && flags[i] == 3 && owner[i] == Some(x) && i !in counted && OthersCounted(owner, counted, x, i)
    case Done(found, mine) =>
      && OwnCounted(owner, counted, x)
      && (found.Some? ==> found.value < MAX_QUEUES && owner[found.value] == Some(x))
      && (mine.Some? ==> found.Some?)
  }

  predicate OthersCounted(owner: seq<Option<Sender>>, counted: set<nat>, x: Sender, slot: nat) {
    forall i :: 0 <= i < |owner| && i != slot && owner[i] == Some(x) ==> i in counted
  }

  predicate SenderInv(s: State, x: Sender)
    requires Shape(s)
  {
    SenderOk(s.flags, s.name, s.owner, s.counted, x, PcOf(s, x))
  }

  predicate ReceiverOk(counted: set<nat>, known: set<nat>, cachedNum: nat, cache: seq<nat>, r: Receiver) {
    && known <= counted && |known| == cachedNum && (forall i :: i in known ==> i in cache)
    && (r.RScan? ==>
          && r.loaded <= counted && |r.loaded| == r.num && (forall i :: i in r.loaded ==> i < MAX_QUEUES)
          && forall i :: i in r.loaded && i < r.at ==> i in r.acc)
  }

  predicate CountOk(flags: seq<nat>, num: nat, counted: set<nat>) {
    num == |counted| && forall i :: i in counted ==> i < |flags| && flags[i] == 3
  }

  /** Occupied slots come before free ones. */
  predicate Packed(flags: seq<nat>) {
    forall i, j :: 0 <= i < j < |flags| && flags[j] != 0 ==> flags[i] != 0
  }

  ghost predicate Inv(s: State) {
    && Shape(s)
    && CountOk(s.flags, s.num, s.counted) && Packed(s.flags)
    && (forall i :: 0 <= i < MAX_QUEUES ==> SlotInv(s, i))
    && (forall x: Sender :: SenderInv(s, x))
    && ReceiverOk(s.counted, s.known, s.cachedNum, s.cache, s.receiver)
  }

  lemma InitInv(maxQueues: nat)
    ensures Inv(Init(maxQueues))
  {
  }

  // ------------------------------------------------------------------ steps keep the invariant

  predicate Busy(pc: Pc) { pc.Claimed? || pc.Named? || pc.Active? }

  /** A step that only moves a sender that has no claim in progress. */
  lemma PcOnly(s: State, x: Sender, pc: Pc)
    requires Inv(s) && !Busy(PcOf(s, x)) && !Busy(pc)
    requires SenderOk(s.flags, s.name, s.owner, s.counted, x, pc)
    ensures Inv(s.(pcs := s.pcs[x := pc]))
  {
    hide SenderOk, ReceiverOk, CountOk, Packed;
    var s' := s.(pcs := s.pcs[x := pc]);
    forall i | 0 <= i < MAX_QUEUES
      ensures SlotInv(s', i)
    {
      assert SlotInv(s, i);
    }
    forall y: Sender
      ensures SenderInv(s', y)
    {
      assert SenderInv(s, y);
    }
  }

  lemma BeginKeepsInv(s: State, x: Sender)
    requires Inv(s)
    ensures Inv(StepBegin(s, x))
  {
    hide ReceiverOk, CountOk, Packed, OwnBelow;
    assert SenderInv(s, x);
    if PcOf(s, x).Idle? || PcOf(s, x).Done? {
      PcOnly(s, x, Scan(s.num, 0, OwnBelow(s.owner, x, s.num)));
    }
  }

  lemma ReceiverKeepsInv(s: State)
    requires Inv(s)
    ensures Inv(StepLoad(s)) && Inv(StepRefresh(s))
  {
    hide SenderOk, SlotOk, Packed;
    var s1, s2 := StepLoad(s), StepRefresh(s);
    forall i | 0 <= i < MAX_QUEUES
      ensures SlotInv(s1, i) && SlotInv(s2, i)
    {
      assert SlotInv(s, i);
    }
    forall y: Sender
      ensures SenderInv(s1, y) && SenderInv(s2, y)
    {
      assert SenderInv(s, y);
    }
  }

  lemma ScanStep(s: State, x: Sender)
    requires Inv(s) && PcOf(s, x).Scan?
    ensures Inv(StepAdvance(s, x))
  {
    hide ReceiverOk, CountOk, Packed;
    var Scan(n, j, mine) := PcOf(s, x);
    assert SenderInv(s, x);
    if j < n && j < MAX_QUEUES {
      assert SlotInv(s, j);
      if s.flags[j] % 2 == 1 && s.name[j] == Some(x) { PcOnly(s, x, Done(Some(j), mine)); } else { ScanMiss(s, x); }
    } else if n >= s.maxQueues {
      PcOnly(s, x, Done(None, mine));
    } else {
      PcOnly(s, x, Try(0));
    }
  }

  /** A scan does not miss a slot of the caller that lies below the count it loaded. */
  lemma ScanMiss(s: State, x: Sender)
    requires Inv(s) && PcOf(s, x).Scan?
    requires var j := PcOf(s, x).at; j < PcOf(s, x).num && j < MAX_QUEUES && !(s.flags[j] % 2 == 1 && s.name[j] == Some(x))
    ensures var Scan(n, j, mine) := PcOf(s, x); Inv(s.(pcs := s.pcs[x := Scan(n, j + 1, mine)]))
  {
    hide ReceiverOk, Packed;
    var Scan(n, j, mine) := PcOf(s, x);
    assert SenderInv(s, x) && SlotInv(s, j);
    PcOnly(s, x, Scan(n, j + 1, mine));
  }

  lemma ClaimStep(s: State, x: Sender, i: nat)
    requires Inv(s) && PcOf(s, x) == Try(i) && i < MAX_QUEUES && s.flags[i] == 0
    ensures Inv(StepAdvance(s, x))
  {
    hide ReceiverOk;
    var s' := StepAdvance(s, x);
    assert SenderInv(s, x) && SlotInv(s, i);
    forall j | 0 <= j < MAX_QUEUES
      ensures SlotInv(s', j)
    {
      assert SlotInv(s, j);
    }
    forall y: Sender
      ensures SenderInv(s', y)
    {
      assert SenderInv(s, y);
    }
  }

  lemma NameStep(s: State, x: Sender, i: nat)
    requires Inv(s) && PcOf(s, x) == Claimed(i)
    ensures Inv(StepAdvance(s, x))
  {
    hide ReceiverOk, CountOk, Packed;
    var s' := StepAdvance(s, x);
    assert SenderInv(s, x) && SlotInv(s, i);
    forall j | 0 <= j < MAX_QUEUES
      ensures SlotInv(s', j)
    {
      assert SlotInv(s, j);
    }
    forall y: Sender
      ensures SenderInv(s', y)
    {
      assert SenderInv(s, y);
    }
  }

  lemma ActivateStep(s: State, x: Sender, i: nat)
    requires Inv(s) && PcOf(s, x) == Named(i)
    ensures Inv(StepAdvance(s, x))
  {
    hide ReceiverOk;
    var s' := StepAdvance(s, x);
    assert SenderInv(s, x) && SlotInv(s, i);
    forall j | 0 <= j < MAX_QUEUES
      ensures SlotInv(s', j)
    {
      assert SlotInv(s, j);
    }
    forall y: Sender
      ensures SenderInv(s', y)
    {
      assert SenderInv(s, y);
    }
  }

  lemma CountStep(s: State, x: Sender, i: nat)
    requires Inv(s) && PcOf(s, x) == Active(i)
    ensures Inv(StepAdvance(s, x))
  {
    hide Packed;
    var s' := StepAdvance(s, x);
    assert SenderInv(s, x) && SlotInv(s, i);
    forall j | 0 <= j < MAX_QUEUES
      ensures SlotInv(s', j)
    {
      assert SlotInv(s, j);
    }
    forall y: Sender
      ensures SenderInv(s', y)
    {
      assert SenderInv(s, y);
    }
  }

  lemma AdvanceKeepsInv(s: State, x: Sender)
    requires Inv(s)
    ensures Inv(StepAdvance(s, x))
  {
    hide ReceiverOk, CountOk, Packed, SlotOk;
    assert SenderInv(s, x);
    match PcOf(s, x)
    case Scan(_, _, _) => ScanStep(s, x);
    case Try(i) =>
      if i >= MAX_QUEUES { PcOnly(s, x, Done(None, None)); }
      else if s.flags[i] == 0 { ClaimStep(s, x, i); }
      else { PcOnly(s, x, Try(i + 1)); }
    case Claimed(i) => NameStep(s, x, i);
    case Named(i) => ActivateStep(s, x, i);
    case Active(i) => CountStep(s, x, i);
    case _ =>
  }

  lemma StepKeepsInv(s: State, a: Action)
    requires Inv(s)
    ensures Inv(Step(s, a))
  {
    hide Inv, StepBegin, StepAdvance, StepLoad, StepRefresh;
    match a
    case Begin(x) => BeginKeepsInv(s, x);
    case Advance(x) => AdvanceKeepsInv(s, x);
    case Load => ReceiverKeepsInv(s);
    case Refresh => ReceiverKeepsInv(s);
  }

  lemma {:induction false} RunKeepsInv(maxQueues: nat, schedule: seq<Action>)
    ensures Inv(Run(Init(maxQueues), schedule))
  {
    hide Inv, Step;
    if schedule == [] {
      InitInv(maxQueues);
    } else {
      RunKeepsInv(maxQueues, schedule[..|schedule| - 1]);
      StepKeepsInv(Run(Init(maxQueues), schedule[..|schedule| - 1]), schedule[|schedule| - 1]);
    }
  }

  // ------------------------------------------------------------------ whole runs

  predicate NoClaimInProgress(s: State) { forall x :: x in s.pcs ==> !Busy(s.pcs[x]) }

  /** The slots the receiver may read from. */
  function Ready(s: State): set<nat> { set i | 0 <= i < |s.flags| && s.flags[i] == 3 }

  ghost predicate Sound(s: State) {
    && Shape(s)
    && s.num <= |Ready(s)| && (NoClaimInProgress(s) ==> s.num == |Ready(s)|)
    && |s.known| == s.cachedNum && s.known <= s.counted && (forall i :: i in s.known ==> i in s.cache)
    && (s.receiver.RIdle? && s.cachedNum == s.num ==> forall i :: i in s.counted ==> i in s.cache)
    && (forall x, i :: x in s.pcs && s.pcs[x].Done? && s.pcs[x].found == Some(i) ==> i < MAX_QUEUES && s.owner[i] == Some(x))
    && (forall x :: x in s.pcs && s.pcs[x].Done? && s.pcs[x].mine.Some? ==> s.pcs[x].found.Some?)
  }

  lemma SubsetSize<T>(a: set<T>, b: set<T>)
    requires a <= b
    ensures |a| <= |b| && (|a| == |b| ==> a == b)
  {
    assert b == a + (b - a);
  }

  /**
   * After every run: num_queues never exceeds the number of ready slots and equals it when no claim
   * is in progress; the receiver's list has every slot that was counted when it loaded its cached
   * count, so with a current count every counted slot;
   * every slot a lookup returned belongs to the caller; and a lookup finds a slot of the caller
   * whenever one lay below the count it loaded.
   */
  lemma EveryRunIsSound(maxQueues: nat, schedule: seq<Action>)
    ensures Sound(Run(Init(maxQueues), schedule))
  {
    RunKeepsInv(maxQueues, schedule);
    InvIsSound(Run(Init(maxQueues), schedule));
  }

  lemma InvIsSound(s: State)
    requires Inv(s)
    ensures Sound(s)
  {
    SubsetSize(s.counted, Ready(s));
    SubsetSize(s.known, s.counted);
    if NoClaimInProgress(s) { QuietMeansCounted(s); }
    forall x | x in s.pcs
      ensures SenderInv(s, x)
    {
    }
  }

  lemma QuietMeansCounted(s: State)
    requires Inv(s) && NoClaimInProgress(s)
    ensures s.counted == Ready(s)
    ensures forall i :: 0 <= i < MAX_QUEUES ==> (s.flags[i] != 0 <==> i < s.num)
  {
    forall i | 0 <= i < MAX_QUEUES
      ensures s.flags[i] != 0 ==> i in s.counted
    {
      assert SlotInv(s, i);
    }
    assert s.counted == Ready(s);
    PackedPrefix(s.flags, s.counted);
  }

  /** A downward closed set of slots is an initial segment as long as the set is large. */
  lemma PackedPrefix(flags: seq<nat>, counted: set<nat>)
    requires Packed(flags) && forall i :: i in counted <==> 0 <= i < |flags| && flags[i] != 0
    ensures forall i :: 0 <= i < |flags| ==> (flags[i] != 0 <==> i < |counted|)
  {
    assert counted == Segment(FirstFree(flags));
  }

  function Segment(k: nat): (r: set<nat>)
    ensures |r| == k && forall i :: i in r <==> 0 <= i < k
  {
    if k == 0 then {} else Segment(k - 1) + {k - 1}
  }

  function FirstFree(flags: seq<nat>): (k: nat)
    ensures k <= |flags| && (k < |flags| ==> flags[k] == 0)
    ensures forall i :: 0 <= i < k ==> flags[i] != 0
  {
    if flags == [] || flags[0] == 0 then 0 else 1 + FirstFree(flags[1..])
  }

  /** Once claimed, a slot keeps its owner for the rest of the run. */
  lemma {:induction false} OwnerForever(s: State, schedule: seq<Action>, i: nat)
    requires Inv(s) && i < MAX_QUEUES && s.owner[i].Some?
    ensures Inv(Run(s, schedule)) && Run(s, schedule).owner[i] == s.owner[i]
  {
    hide CountOk, Packed, ReceiverOk, SenderOk;
    if schedule != [] {
      var front := schedule[..|schedule| - 1];
      var t := Run(s, front);
      OwnerForever(s, front, i);
      StepKeepsInv(t, schedule[|schedule| - 1]);
      assert SlotInv(t, i);
    }
  }

  // ------------------------------------------------------------------ what a lookup returns

  /** Slot `j` is valid and carries the name of `x`, as the lookup's scan tests it. */
  predicate Carries(s: State, x: Sender, j: nat)
    requires Shape(s)
  {
    j < MAX_QUEUES && s.flags[j] % 2 == 1 && s.name[j] == Some(x)
  }

  /** A slot of `x` lies below the count that a lookup starting now loads. */
  ghost predicate InReach(s: State, x: Sender)
    requires Shape(s)
  {
    exists j :: 0 <= j < s.num && Carries(s, x, j)
  }

  /** For a sender without a claim in progress, its slots are those that carry its name. */
  lemma OwnIsCarried(s: State, x: Sender)
    requires Inv(s) && (PcOf(s, x).Idle? || PcOf(s, x).Done?)
    ensures forall j :: 0 <= j < MAX_QUEUES ==> (s.owner[j] == Some(x) <==> Carries(s, x, j))
  {
    hide Packed, ReceiverOk;
    assert SenderInv(s, x);
    forall j | 0 <= j < MAX_QUEUES
      ensures s.owner[j] == Some(x) <==> Carries(s, x, j)
    {
      assert SlotInv(s, j);
    }
  }

  /** How far a lookup of `x` has come that began when the slots had the owners `before`. */
  predicate LookupOk(before: seq<Option<Sender>>, reach: bool, owner: seq<Option<Sender>>, x: Sender, pc: Pc) {
    match pc
    case Idle => false
    case Scan(_, _, mine) => (mine.Some? <==> reach) && forall i :: 0 <= i < |owner| && owner[i] == Some(x) ==> OwnedBy(before, x, i)
    case Try(_) => !reach
    case Claimed(i) => !reach && !OwnedBy(before, x, i)
    case Named(i) => !reach && !OwnedBy(before, x, i)
    case Active(i) => !reach && !OwnedBy(before, x, i)
    case Done(found, _) =>
      if reach then found.Some? && OwnedBy(before, x, found.value)
      else found.Some? ==> !OwnedBy(before, x, found.value)
  }

  predicate OwnedBy(owner: seq<Option<Sender>>, x: Sender, i: nat) { i < |owner| && owner[i] == Some(x) }

  /** Slots never lose the owners they had. */
  predicate Kept(before: seq<Option<Sender>>, owner: seq<Option<Sender>>) {
    |before| == |owner| && forall i :: 0 <= i < |owner| && before[i].Some? ==> owner[i] == before[i]
  }

  lemma LookupStep(before: seq<Option<Sender>>, reach: bool, s: State, x: Sender, a: Action)
    requires Inv(s) && Kept(before, s.owner) && LookupOk(before, reach, s.owner, x, PcOf(s, x)) && a != Begin(x)
    ensures var s' := Step(s, a); Inv(s') && Kept(before, s'.owner) && LookupOk(before, reach, s'.owner, x, PcOf(s', x))
  {
    hide CountOk, Packed, ReceiverOk;
    StepKeepsInv(s, a);
    assert SenderInv(s, x);
    if a.Advance? {
      match PcOf(s, a.sender)
      case Scan(_, j, _) => if j < MAX_QUEUES { assert SlotInv(s, j); }
      case Try(j) => if j < MAX_QUEUES { assert SlotInv(s, j); }
      case _ =>
    }
  }

  lemma {:induction false} LookupRun(before: seq<Option<Sender>>, reach: bool, s: State, x: Sender, schedule: seq<Action>)
    requires Inv(s) && Kept(before, s.owner) && LookupOk(before, reach, s.owner, x, PcOf(s, x)) && Begin(x) !in schedule
    ensures var s' := Run(s, schedule); Inv(s') && Kept(before, s'.owner) && LookupOk(before, reach, s'.owner, x, PcOf(s', x))
  {
    hide Inv, LookupOk, Kept, Step;
    if schedule != [] {
      var front, a := schedule[..|schedule| - 1], schedule[|schedule| - 1];
      LookupRun(before, reach, s, x, front);
      LookupStep(before, reach, Run(s, front), x, a);
    }
  }

  /** No lookup takes more steps of its own than this. */
  const LOOKUP_STEPS: nat := 69

  function Rank(pc: Pc): (r: nat)
    ensures r <= LOOKUP_STEPS
  {
    match pc
    case Scan(_, j, _) => 37 + (if j <= MAX_QUEUES then MAX_QUEUES - j else 0)
    case Try(i) => 4 + (if i <= MAX_QUEUES then MAX_QUEUES - i else 0)
    case Claimed(_) => 3
    case Named(_) => 2
    case Active(_) => 1
    case _ => 0
  }

  /** The number of steps of `x` in a schedule. */
  function Advances(schedule: seq<Action>, x: Sender): nat {
    if schedule == [] then 0
    else Advances(schedule[..|schedule| - 1], x) + (if schedule[|schedule| - 1] == Advance(x) then 1 else 0)
  }

  lemma RankStep(s: State, x: Sender, a: Action)
    requires Inv(s) && a != Begin(x)
    ensures Rank(PcOf(Step(s, a), x)) <= Rank(PcOf(s, x))
    ensures a == Advance(x) && Rank(PcOf(s, x)) > 0 ==> Rank(PcOf(Step(s, a), x)) < Rank(PcOf(s, x))
  {
    hide CountOk, Packed, ReceiverOk, SlotOk;
    assert SenderInv(s, x);
  }

  /** Every step of its own brings a lookup closer to its end, whatever the others do. */
  lemma {:induction false} LookupEnds(s: State, x: Sender, schedule: seq<Action>)
    requires Inv(s) && Begin(x) !in schedule
    ensures Inv(Run(s, schedule))
    ensures var r := Rank(PcOf(Run(s, schedule), x)); r > 0 ==> r + Advances(schedule, x) <= Rank(PcOf(s, x))
  {
    hide Inv, Step, Rank;
    if schedule != [] {
      var front, a := schedule[..|schedule| - 1], schedule[|schedule| - 1];
      LookupEnds(s, x, front);
      RankStep(Run(s, front), x, a);
      StepKeepsInv(Run(s, front), a);
    }
  }

  lemma LookupFrom(s: State, x: Sender, schedule: seq<Action>)
    requires Inv(s) && (PcOf(s, x).Idle? || PcOf(s, x).Done?) && Begin(x) !in schedule
    ensures var pc := PcOf(Run(StepBegin(s, x), schedule), x);
      && (Advances(schedule, x) >= LOOKUP_STEPS ==> pc.Done?)
      && (pc.Done? ==> ((pc.found.Some? && Carries(s, x, pc.found.value)) <==> InReach(s, x)))
  {
    hide Rank, Advances, Run, OwnBelow, SlotOk, SenderOk, CountOk, Packed, ReceiverOk;
    var s1 := StepBegin(s, x);
    BeginKeepsInv(s, x);
    OwnIsCarried(s, x);
    ReachIsOwn(s, x);
    LookupRun(s.owner, InReach(s, x), s1, x, schedule);
    LookupEnds(s1, x, schedule);
    var pc := PcOf(Run(s1, schedule), x);
    if Advances(schedule, x) >= LOOKUP_STEPS { RankZero(pc); }
  }

  lemma ReachIsOwn(s: State, x: Sender)
    requires Inv(s) && (PcOf(s, x).Idle? || PcOf(s, x).Done?)
    ensures OwnBelow(s.owner, x, s.num).Some? <==> InReach(s, x)
  {
    hide SlotOk, SenderOk, CountOk, Packed, ReceiverOk;
    OwnIsCarried(s, x);
    var r := OwnBelow(s.owner, x, s.num);
    if r.Some? { assert Carries(s, x, r.value); }
  }

  lemma RankZero(pc: Pc)
    ensures Rank(pc) == 0 <==> pc.Idle? || pc.Done?
  {
  }

  /**
   * After any history, a lookup ends after at most 69 steps of its own, whatever the other senders
   * and the receiver do meanwhile, and it then returns a slot that carried the caller's name before
   * the call if and only if one of these lay below the num_queues it loaded. Otherwise it returns
   * nothing or a newly claimed slot: the caller's second one if it had one out of reach.
   */
  lemma LookupReturnsOwnSlotIff(maxQueues: nat, history: seq<Action>, x: Sender, schedule: seq<Action>)
    requires var pc := PcOf(Run(Init(maxQueues), history), x); pc.Idle? || pc.Done?
    requires Begin(x) !in schedule
    ensures var s := Run(Init(maxQueues), history);
      var pc := PcOf(Run(StepBegin(s, x), schedule), x);
      && Shape(s)
      && (Advances(schedule, x) >= LOOKUP_STEPS ==> pc.Done?)
      && (pc.Done? ==> ((pc.found.Some? && Carries(s, x, pc.found.value)) <==> InReach(s, x)))
  {
    hide Run, SlotOk, SenderOk, CountOk, Packed, ReceiverOk;
    RunKeepsInv(maxQueues, history);
    LookupFrom(Run(Init(maxQueues), history), x, schedule);
  }

  /** While no claim is in progress every slot is in reach, so a repeat lookup returns a slot the caller already had. */
  lemma RepeatLookup(maxQueues: nat, history: seq<Action>, x: Sender, i: nat, schedule: seq<Action>)
    requires var s := Run(Init(maxQueues), history); NoClaimInProgress(s) && Shape(s) && Carries(s, x, i)
    requires var pc := PcOf(Run(Init(maxQueues), history), x); pc.Idle? || pc.Done?
    requires Begin(x) !in schedule
    ensures var s := Run(Init(maxQueues), history);
      var pc := PcOf(Run(StepBegin(s, x), schedule), x);
      pc.Done? ==> pc.found.Some? && Carries(s, x, pc.found.value)
  {
    hide Run, Packed, ReceiverOk, SenderOk, CountOk, SlotOk;
    var s := Run(Init(maxQueues), history);
    RunKeepsInv(maxQueues, history);
    QuietMeansCounted(s);
    assert InReach(s, x);
    LookupFrom(s, x, schedule);
  }

  // ------------------------------------------------------------------ a lookup that finds no slot

  /** What it means that a lookup which loaded the count `num` is still looking, or has given up. */
  predicate GivesUpOk(s: State, x: Sender, num: nat) {
    Shape(s) &&
    match PcOf(s, x)
    case Scan(n, _, _) => n == num
    case Try(i) => num < s.maxQueues && forall j :: 0 <= j < i && j < MAX_QUEUES ==> s.flags[j] != 0
    case Claimed(_) => num < s.maxQueues
    case Named(_) => num < s.maxQueues
    case Active(_) => num < s.maxQueues
    case Done(found, _) => found.None? ==> num >= s.maxQueues || forall j :: 0 <= j < MAX_QUEUES ==> s.flags[j] != 0
    case Idle => false
  }

  lemma GivesUpStep(s: State, x: Sender, num: nat, a: Action)
    requires Inv(s) && GivesUpOk(s, x, num) && a != Begin(x)
    ensures GivesUpOk(Step(s, a), x, num) && Step(s, a).maxQueues == s.maxQueues
  {
    hide CountOk, Packed, ReceiverOk, SlotOk;
    assert SenderInv(s, x);
    if a.Advance? { assert SenderInv(s, a.sender); }
  }

  lemma {:induction false} GivesUpRun(s: State, x: Sender, num: nat, schedule: seq<Action>)
    requires Inv(s) && GivesUpOk(s, x, num) && Begin(x) !in schedule
    ensures var s' := Run(s, schedule); Inv(s') && GivesUpOk(s', x, num) && s'.maxQueues == s.maxQueues
  {
    hide Inv, GivesUpOk, Step;
    if schedule != [] {
      var front, a := schedule[..|schedule| - 1], schedule[|schedule| - 1];
      GivesUpRun(s, x, num, front);
      StepKeepsInv(Run(s, front), a);
      GivesUpStep(Run(s, front), x, num, a);
    }
  }

  /**
   * A lookup that ends without a slot either loaded a num_queues of at least max_queues, or all 32
   * slots are taken; and in the first case it returns nothing but a slot it found.
   */
  lemma LookupFailsOnlyWhenFull(maxQueues: nat, history: seq<Action>, x: Sender, schedule: seq<Action>)
    requires var pc := PcOf(Run(Init(maxQueues), history), x); pc.Idle? || pc.Done?
    requires Begin(x) !in schedule
    ensures var s := Run(Init(maxQueues), history);
      var s' := Run(StepBegin(s, x), schedule);
      && Shape(s) && Shape(s')
      && (PcOf(s', x).Done? && PcOf(s', x).found.None? ==>
            s.num >= s.maxQueues || forall j :: 0 <= j < MAX_QUEUES ==> s'.flags[j] != 0)
      && (PcOf(s', x).Done? && s.num >= s.maxQueues && !InReach(s, x) ==> PcOf(s', x).found.None?)
  {
    hide Run, SlotOk, SenderOk, CountOk, Packed, ReceiverOk, OwnBelow;
    RunKeepsInv(maxQueues, history);
    var s := Run(Init(maxQueues), history);
    var s1 := StepBegin(s, x);
    BeginKeepsInv(s, x);
    GivesUpRun(s1, x, s.num, schedule);
    NoClaimRun(s1, x, s.num, schedule);
    OwnIsCarried(s, x);
    ReachIsOwn(s, x);
  }

  /** With the limit reached a lookup returns only what its scan finds. */
  predicate OnlyFinds(s: State, x: Sender, num: nat) {
    num >= s.maxQueues ==>
      match PcOf(s, x)
      case Scan(n, _, _) => n == num
      case Done(found, mine) => mine.None? ==> found.None?
      case _ => false
  }

  lemma {:induction false} NoClaimRun(s: State, x: Sender, num: nat, schedule: seq<Action>)
    requires Inv(s) && PcOf(s, x).Scan? && PcOf(s, x).num == num && Begin(x) !in schedule
    ensures var s' := Run(s, schedule);
      && Inv(s') && s'.maxQueues == s.maxQueues && OnlyFinds(s', x, num)
      && (num >= s.maxQueues ==> MineOf(PcOf(s', x)) == PcOf(s, x).mine)
  {
    hide Inv, Step;
    if schedule != [] {
      var front, a := schedule[..|schedule| - 1], schedule[|schedule| - 1];
      NoClaimRun(s, x, num, front);
      StepKeepsInv(Run(s, front), a);
      OnlyFindsStep(Run(s, front), x, num, a);
    }
  }

  function MineOf(pc: Pc): Option<nat> {
    match pc
    case Scan(_, _, mine) => mine
    case Done(_, mine) => mine
    case _ => None
  }

  lemma OnlyFindsStep(s: State, x: Sender, num: nat, a: Action)
    requires Inv(s) && OnlyFinds(s, x, num) && a != Begin(x)
    ensures var s' := Step(s, a);
      && OnlyFinds(s', x, num) && s'.maxQueues == s.maxQueues
      && (num >= s.maxQueues ==> MineOf(PcOf(s', x)) == MineOf(PcOf(s, x)))
  {
    hide CountOk, Packed, ReceiverOk;
    assert SenderInv(s, x);
    if PcOf(s, x).Scan? && PcOf(s, x).at < MAX_QUEUES { assert SlotInv(s, PcOf(s, x).at); }
  }

  // ------------------------------------------------------------------ the receiver's list

  /** Slots in ascending order, all of them ready. */
  predicate ListOk(flags: seq<nat>, xs: seq<nat>, below: nat) {
    && (forall i :: 0 <= i < |xs| ==> xs[i] < below && xs[i] < |flags| && flags[xs[i]] == 3)
    && (forall i, j :: 0 <= i < j < |xs| ==> xs[i] < xs[j])
  }

  predicate CacheOk(s: State) {
    && Shape(s) && ListOk(s.flags, s.cache, MAX_QUEUES)
    && (s.receiver.RScan? ==> s.receiver.at <= MAX_QUEUES && ListOk(s.flags, s.receiver.acc, s.receiver.at))
  }

  /** A slot that is ready stays so. */
  lemma ReadyStays(s: State, a: Action)
    requires Inv(s)
    ensures Shape(Step(s, a)) && forall i :: 0 <= i < MAX_QUEUES && s.flags[i] == 3 ==> Step(s, a).flags[i] == 3
  {
    hide CountOk, Packed, ReceiverOk, SlotOk;
    if a.Advance? { assert SenderInv(s, a.sender); }
  }

  lemma ListStays(flags: seq<nat>, flags': seq<nat>, xs: seq<nat>, below: nat)
    requires ListOk(flags, xs, below) && |flags| == |flags'| && below <= |flags|
    requires forall i :: 0 <= i < |flags| && flags[i] == 3 ==> flags'[i] == 3
    ensures ListOk(flags', xs, below)
  {
  }

  lemma CacheStep(s: State, a: Action)
    requires Inv(s) && CacheOk(s)
    ensures CacheOk(Step(s, a))
  {
    hide SlotOk, SenderOk, CountOk, Packed, ReceiverOk;
    ReadyStays(s, a);
    var s' := Step(s, a);
    ListStays(s.flags, s'.flags, s.cache, MAX_QUEUES);
    if s.receiver.RScan? { ListStays(s.flags, s'.flags, s.receiver.acc, s.receiver.at); }
  }

  /** After every run the receiver's list has no slot twice and only slots that are ready to be read. */
  lemma {:induction false} ListIsReady(maxQueues: nat, schedule: seq<Action>)
    ensures CacheOk(Run(Init(maxQueues), schedule))
  {
    if schedule != [] {
      hide Inv, CacheOk, Step;
      var front := schedule[..|schedule| - 1];
      ListIsReady(maxQueues, front);
      RunKeepsInv(maxQueues, front);
      CacheStep(Run(Init(maxQueues), front), schedule[|schedule| - 1]);
    }
  }

  function Refreshes(schedule: seq<Action>): nat {
    if schedule == [] then 0
    else Refreshes(schedule[..|schedule| - 1]) + (if schedule[|schedule| - 1].Refresh? then 1 else 0)
  }

  /** `k` steps into the refresh that began in state `s0`. */
  ghost predicate Refreshing(s0: State, s: State, k: nat)
    requires Shape(s0)
  {
    Shape(s) && (forall i :: 0 <= i < MAX_QUEUES && s0.flags[i] == 3 ==> s.flags[i] == 3) &&
    if k <= MAX_QUEUES then
      && s.receiver.RScan? && s.receiver.num == s0.num && s.receiver.at == k
      && (forall i :: 0 <= i < k && s0.flags[i] == 3 ==> i in s.receiver.acc)
    else
      s.receiver.RIdle? && s.cachedNum == s0.num && forall i :: 0 <= i < MAX_QUEUES && s0.flags[i] == 3 ==> i in s.cache
  }

  lemma RefreshingStep(s0: State, s: State, k: nat, a: Action)
    requires Shape(s0) && Inv(s) && Refreshing(s0, s, k) && a != Load && k <= MAX_QUEUES + 1
    ensures Refreshing(s0, Step(s, a), if a.Refresh? && k <= MAX_QUEUES then k + 1 else k)
  {
    hide SlotOk, SenderOk, CountOk, Packed, ReceiverOk;
    ReadyStays(s, a);
  }

  /**
   * A receiver that finds its cached count out of date, or its list empty, and then takes its 33
   * steps, whatever the senders do meanwhile, ends up with the num_queues it loaded as its cached
   * count and with every slot in its list that was ready when it loaded it.
   */
  lemma RefreshCompletes(maxQueues: nat, history: seq<Action>, schedule: seq<Action>)
    requires var s := Run(Init(maxQueues), history); s.receiver.RIdle? && (s.num != s.cachedNum || s.cache == [])
    requires Load !in schedule && Refreshes(schedule) >= 33
    ensures var s := Run(Init(maxQueues), history);
      var s' := Run(Step(s, Load), schedule);
      && Shape(s) && Shape(s') && s'.receiver.RIdle? && s'.cachedNum == s.num
      && (forall i :: 0 <= i < MAX_QUEUES && s.flags[i] == 3 ==> i in s'.cache)
      && (forall i :: i in s'.cache ==> i < MAX_QUEUES && s'.flags[i] == 3)
  {
    hide Run, SlotOk, SenderOk, CountOk, Packed, ReceiverOk;
    RunKeepsInv(maxQueues, history);
    ListIsReady(maxQueues, history);
    var s := Run(Init(maxQueues), history);
    StepKeepsInv(s, Load);
    CacheStep(s, Load);
    RefreshRun(s, Step(s, Load), schedule);
  }

  lemma {:induction false} RefreshRun(s0: State, s: State, schedule: seq<Action>)
    requires Shape(s0) && Inv(s) && CacheOk(s) && Refreshing(s0, s, 0) && Load !in schedule
    ensures var s' := Run(s, schedule); Inv(s') && CacheOk(s')
    ensures Refreshing(s0, Run(s, schedule), if Refreshes(schedule) <= MAX_QUEUES then Refreshes(schedule) else MAX_QUEUES + 1)
  {
    hide Inv, CacheOk, Step, Refreshing;
    if schedule != [] {
      var front, a := schedule[..|schedule| - 1], schedule[|schedule| - 1];
      RefreshRun(s0, s, front);
      var k := if Refreshes(front) <= MAX_QUEUES then Refreshes(front) else MAX_QUEUES + 1;
      RefreshingStep(s0, Run(s, front), k, a);
      StepKeepsInv(Run(s, front), a);
      CacheStep(Run(s, front), a);
    }
  }

  // ------------------------------------------------------------------ a lookup that misses its own slot

  lemma Extend(max: nat, t: seq<Action>, a: Action) returns (t': seq<Action>)
    ensures t' == t + [a] && Run(Init(max), t') == Step(Run(Init(max), t), a)
  {
    t' := t + [a];
    assert t'[..|t'| - 1] == t;
  }

  /** One sender has claimed slot 0 and not yet counted it; another has found num_queues 0. */
  lemma FirstClaim(max: nat) returns (t: seq<Action>)
    requires max >= 2
    ensures var s := Run(Init(max), t);
      && Shape(s) && s.num == 0 && s.maxQueues == max && s.flags == Init(max).flags[0 := 1]
      && s.name == Init(max).name && PcOf(s, 1) == Try(0)
  {
    hide Run, OwnBelow;
    EmptyRun(max);
    t := Extend(max, [], Begin(0));
    t := Extend(max, t, Advance(0));
    t := Extend(max, t, Advance(0));
    t := Extend(max, t, Begin(1));
    t := Extend(max, t, Advance(1));
  }

  /** One sender is between claim and count on slot 0 while another completes its claim of slot 1. */
  lemma OverlappingClaims(max: nat) returns (t: seq<Action>)
    requires max >= 2
    ensures var s := Run(Init(max), t);
      && Shape(s) && s.num == 1 && s.maxQueues == max && s.flags[..3] == [1, 3, 0]
      && s.name[0] == None && s.owner[1] == Some(1) && PcOf(s, 1) == Done(Some(1), None)
  {
    hide Run, OwnBelow, Init;
    t := FirstClaim(max);
    var s := Run(Init(max), t);
    assert s.flags[0] == 1 && s.flags[1] == 0 && s.flags[2] == 0 && s.name[0] == None by { Fresh(max); }
    t := Extend(max, t, Advance(1));
    t := Extend(max, t, Advance(1));
    t := Extend(max, t, Advance(1));
    assert PcOf(Run(Init(max), t), 1) == Named(1);
    t := Extend(max, t, Advance(1));
    t := Extend(max, t, Advance(1));
  }

  lemma Fresh(max: nat)
    ensures Shape(Init(max))
    ensures forall i :: 0 <= i < MAX_QUEUES ==> Init(max).flags[i] == 0 && Init(max).name[i] == None
  {
  }

  lemma EmptyRun(max: nat)
    ensures Run(Init(max), []) == Init(max)
  {
  }

  /** While another claim is in progress, a repeat lookup can miss its own slot and claim a second one. */
  lemma DuplicateSlot(max: nat) returns (t: seq<Action>)
    requires max >= 2
    ensures var s := Run(Init(max), t); Shape(s) && s.owner[1] == Some(1) && s.owner[2] == Some(1)
  {
    hide Run, OwnBelow;
    t := OverlappingClaims(max);
    var s := Run(Init(max), t);
    assert s.flags[0] == s.flags[..3][0] && s.flags[1] == s.flags[..3][1] && s.flags[2] == s.flags[..3][2];
    t := Extend(max, t, Begin(1));
    t := Extend(max, t, Advance(1));
    t := Extend(max, t, Advance(1));
    assert PcOf(Run(Init(max), t), 1) == Try(0);
    t := Extend(max, t, Advance(1));
    t := Extend(max, t, Advance(1));
    t := Extend(max, t, Advance(1));
  }
}
