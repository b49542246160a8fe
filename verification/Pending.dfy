/**
 * The pending counter of one inbound queue of src/transport/SharedMemoryTransportV3.cpp. The sender
 * counts a message after writing it, the receiver subtracts a whole drain after reading it, and
 * both do so at other moments than the ring itself changes. The ring is the FIFO queue it refines.
 */
module Pending {
  import opened Modular

  type Msg = seq<int>

  /** Progress of one send: idle, or written to the ring but not yet counted. */
  datatype Sender = SIdle | SWritten

  /** Progress of one visit to this queue: outside, draining, or about to subtract. */
  datatype Receiver = RIdle | RDraining(processed: nat) | RSubtract(processed: nat)

  /**
   * `capacity` bounds the ring in messages and `limit` the messages read per visit (no limit on
   * the control lane). `completed` and `consumed` count sends and reads since the start.
   */
  datatype State = State(
    capacity: nat, limit: nat, queue: seq<Msg>, pending: nat, sender: Sender, receiver: Receiver,
    completed: nat, consumed: nat)

  datatype Action = Write(msg: Msg) | Count | Visit | Read | Subtract

  function Init(capacity: nat, limit: nat): State { State(capacity, limit, [], 0, SIdle, RIdle, 0, 0) }

  /** tryWrite of a send; a full ring refuses and the send ends without counting. */
  function StepWrite(s: State, m: Msg): State {
    if s.sender.SIdle? && |s.queue| < s.capacity then s.(queue := s.queue + [m], sender := SWritten) else s
  }

  /** pending.fetch_add(1), after which the send is complete. */
  function StepCount(s: State): State {
    if s.sender.SWritten? then s.(pending := (s.pending + 1) % TWO32, sender := SIdle, completed := s.completed + 1) else s
  }

  /** The receiver loads pending and passes the queue by when it is 0. */
  function StepVisit(s: State): State {
    if s.receiver.RIdle? && s.pending != 0 then s.(receiver := RDraining(0)) else s
  }

  /** One tryRead of the drain; an empty ring or the limit ends it. */
  function StepRead(s: State): State {
    if !s.receiver.RDraining? then s
    else if s.queue == [] || s.receiver.processed >= s.limit then s.(receiver := RSubtract(s.receiver.processed))
    else s.(queue := s.queue[1..], receiver := RDraining(s.receiver.processed + 1), consumed := s.consumed + 1)
  }

  /** pending.fetch_sub(processed), unless nothing was processed. */
  function StepSubtract(s: State): State {
    if s.receiver.RSubtract? then s.(pending := (s.pending - s.receiver.processed) % TWO32, receiver := RIdle) else s
  }

  function Step(s: State, a: Action): State {
    match a
    case Write(m) => StepWrite(s, m)
    case Count => StepCount(s)
    case Visit => StepVisit(s)
    case Read => StepRead(s)
    case Subtract => StepSubtract(s)
  }

  function Run(s: State, schedule: seq<Action>): State {
    if schedule == [] then s
    else Step(Run(s, schedule[..|schedule| - 1]), schedule[|schedule| - 1])
  }

  function Uncounted(s: State): nat { if s.sender.SWritten? then 1 else 0 }

  function Unsubtracted(s: State): nat { if s.receiver.RIdle? then 0 else s.receiver.processed }

  /** The books balance modulo 2^32 at every instant, and no message is lost or invented. */
  predicate Balanced(s: State) {
    && s.pending < TWO32
    && Congruent(s.pending + Uncounted(s) - |s.queue| - Unsubtracted(s), 0)
    && |s.queue| <= s.capacity
    && s.completed + Uncounted(s) == s.consumed + |s.queue|
  }

  lemma StepKeepsBalance(s: State, a: Action)
    requires Balanced(s)
    ensures Balanced(Step(s, a)) && Step(s, a).capacity == s.capacity
  {
    hide Congruent;
    var due := s.pending + Uncounted(s) - |s.queue| - Unsubtracted(s);
    var s' := Step(s, a);
    match a
    case Count =>
      if s.sender.SWritten? {
        assert due == (s.pending + 1) + (-|s.queue| - Unsubtracted(s));
        CongruentWrap(s.pending + 1, -|s.queue| - Unsubtracted(s), 0);
      }
    case Subtract =>
      if s.receiver.RSubtract? {
        assert due == (s.pending - s.receiver.processed) + (Uncounted(s) - |s.queue|);
        CongruentWrap(s.pending - s.receiver.processed, Uncounted(s) - |s.queue|, 0);
      }
    case _ =>
      assert due == s'.pending + Uncounted(s') - |s'.queue| - Unsubtracted(s');
  }

  lemma {:induction false} Conservation(capacity: nat, limit: nat, schedule: seq<Action>)
    ensures Balanced(Run(Init(capacity, limit), schedule))
    ensures Run(Init(capacity, limit), schedule).capacity == capacity
  {
    hide Balanced, Step;
    if schedule == [] {
      assert Balanced(Init(capacity, limit)) by { StartsBalanced(capacity, limit); }
    } else {
      Conservation(capacity, limit, schedule[..|schedule| - 1]);
      StepKeepsBalance(Run(Init(capacity, limit), schedule[..|schedule| - 1]), schedule[|schedule| - 1]);
    }
  }

  lemma StartsBalanced(capacity: nat, limit: nat)
    ensures Balanced(Init(capacity, limit))
  {
  }

  /**
   * A receiver between drains that sees pending 0 passes by a queue that holds nothing but, at
   * most, one message whose send has not yet completed: every completed send has been consumed.
   */
  lemma ZeroMeansDrained(capacity: nat, limit: nat, schedule: seq<Action>)
    requires capacity < TWO32
    ensures var s := Run(Init(capacity, limit), schedule);
      s.receiver.RIdle? ==>
        && (s.pending == 0 <==> |s.queue| == Uncounted(s))
        && (s.pending == 0 ==> s.consumed == s.completed)
  {
    Conservation(capacity, limit, schedule);
    var s := Run(Init(capacity, limit), schedule);
    if s.receiver.RIdle? && (s.pending == 0 || |s.queue| == Uncounted(s)) {
      CongruentSmall(s.pending + Uncounted(s) - |s.queue|, 0);
    }
  }

  lemma {:induction false} RunConcat(s: State, t: seq<Action>, a: Action, b: Action)
    ensures Run(s, t + [a, b]) == Step(Step(Run(s, t), a), b)
  {
    hide Step;
    assert (t + [a, b])[..|t| + 1] == t + [a];
    assert (t + [a])[..|t|] == t;
  }

  /** The counter can wrap below zero for a moment: a message is drained and subtracted before it is counted. */
  lemma CanUnderflow(m: Msg, capacity: nat, limit: nat)
    requires capacity >= 1 && limit >= 2
    ensures exists schedule :: Run(Init(capacity, limit), schedule).pending == TWO32 - 1
  {
    var s := Init(capacity, limit);
    var t2 := [Write(m), Count];
    var t4 := t2 + [Visit, Read];
    var t6 := t4 + [Write(m), Read];
    var t8 := t6 + [Read, Subtract];
    assert Run(s, []) == s && [] + t2 == t2;
    assert Run(s, t8) == Step(Step(Step(Step(Step(Step(Step(Step(s,
      Write(m)), Count), Visit), Read), Write(m)), Read), Read), Subtract) by {
      hide Step;
      RunConcat(s, [], Write(m), Count);
      RunConcat(s, t2, Visit, Read);
      RunConcat(s, t4, Write(m), Read);
      RunConcat(s, t6, Read, Subtract);
    }
    var s4 := Step(Step(Step(Step(s, Write(m)), Count), Visit), Read);
    assert s4 == s.(queue := [], pending := 1, completed := 1, receiver := RDraining(1), consumed := 1);
    assert Step(Step(Step(Step(s4, Write(m)), Read), Read), Subtract).pending == (1 - 2) % TWO32;
  }

  // ------------------------------------------------------------------ calls that are left alone

  lemma {:induction false} RunMore(s: State, a: seq<Action>, b: seq<Action>)
    ensures Run(s, a + b) == Run(Run(s, a), b)
    decreases |b|
  {
    hide Step;
    if b == [] {
      assert a + b == a;
    } else {
      RunMore(s, a, b[..|b| - 1]);
      assert (a + b)[..|a + b| - 1] == a + b[..|b| - 1];
    }
  }

  lemma RunOne(s: State, a: Action)
    ensures Run(s, [a]) == Step(s, a)
  {
    hide Step;
    assert [a][..0] == [];
    assert Run(s, []) == s;
  }

  /** A send into a ring with room writes its message and counts it. */
  lemma SoloSend(s: State, m: Msg)
    requires s.sender.SIdle? && |s.queue| < s.capacity
    ensures Run(s, [Write(m)] + [Count])
            == s.(queue := s.queue + [m], pending := (s.pending + 1) % TWO32, completed := s.completed + 1)
  {
    RunOne(s, Write(m));
    RunOne(Step(s, Write(m)), Count);
    RunMore(s, [Write(m)], [Count]);
  }

  /** How many messages one visit takes. */
  function VisitSize(s: State): nat { if |s.queue| <= s.limit then |s.queue| else s.limit }

  lemma {:induction false} DrainReads(s: State) returns (t: seq<Action>)
    requires s.receiver.RDraining? && s.receiver.processed <= s.limit
    ensures var room := s.limit - s.receiver.processed;
      var n := if |s.queue| <= room then |s.queue| else room;
      Run(s, t) == s.(queue := s.queue[n..], receiver := RSubtract(s.receiver.processed + n), consumed := s.consumed + n)
    decreases |s.queue|
  {
    RunOne(s, Read);
    t := [Read];
    if s.queue != [] && s.receiver.processed < s.limit {
      var rest := DrainReads(Step(s, Read));
      t := [Read] + rest;
      RunMore(s, [Read], rest);
    }
  }

  /** A receiver that sees pending other than 0 takes the oldest messages, all of them or as many as its limit allows, and subtracts their number. */
  lemma SoloVisit(s: State) returns (t: seq<Action>)
    requires s.receiver.RIdle? && s.pending != 0
    ensures var n := VisitSize(s);
      Run(s, t) == s.(queue := s.queue[n..], consumed := s.consumed + n, pending := (s.pending - n) % TWO32)
  {
    RunOne(s, Visit);
    var s1 := Step(s, Visit);
    var taken := DrainReads(s1);
    var s2 := Run(s1, taken);
    RunOne(s2, Subtract);
    RunMore(s, [Visit], taken);
    RunMore(s, [Visit] + taken, [Subtract]);
    t := [Visit] + taken + [Subtract];
  }

  /** One that sees 0 passes by. */
  lemma ZeroPassesBy(s: State)
    requires s.receiver.RIdle? && s.pending == 0
    ensures Step(s, Visit) == s
  {
  }
}
