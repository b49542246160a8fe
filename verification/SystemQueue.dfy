/** The bounded queue of src/core/NodeImpl.cpp between the packets that arrive and the thread that handles service messages. */
module SystemQueue {
  import opened Bytes
  import opened Options
  import opened Subsequence
  import opened ServiceRegistry
  import opened ServiceCodec
  import P = Packet

  const MAX_SYSTEM_QUEUE: nat := 1000

  /** What processPacket queues of a packet, if anything; join and leave messages lose their payload. */
  function Queued(self: Text, mem: seq<byte>): Option<P.Message> {
    match P.Parse(mem)
    case Ignored => None
    case OverRead => None
    case Parsed(m) =>
      if m.node == self then None
      else if m.kind == P.SERVICE_REGISTER || m.kind == P.SERVICE_UNREGISTER then Some(m)
      else if m.kind == P.NODE_JOIN || m.kind == P.NODE_LEAVE then Some(m.(payload := []))
      else None
  }

  function Pushed(q: seq<P.Message>, m: P.Message): seq<P.Message> {
    (if |q| >= MAX_SYSTEM_QUEUE then q[1..] else q) + [m]
  }

  /** The newest 1000 of what was queued and the message that comes in. */
  lemma PushedIsNewest(q: seq<P.Message>, m: P.Message)
    requires |q| <= 1000
    ensures var n := if |q| == 1000 then 1 else 0; Pushed(q, m) == (q + [m])[n..]
  {
    if |q| == 1000 { assert (q + [m])[1..] == q[1..] + [m]; } else { assert (q + [m])[0..] == q + [m]; }
  }

  /** Queueing and handling a packet is what Arrive says of it. */
  lemma QueuedReacts(self: Text, mem: seq<byte>)
    ensures Arrive(self, mem) == match Queued(self, mem) case Some(m) => React(self, m) case None => Nothing
  {
    hide P.Parse, Handle;
  }

  // ------------------------------------------------------------------ whole runs

  /** A handled message, with the order in which the service map then listed its groups. */
  datatype Handled = Handled(msg: P.Message, order: seq<Text>)

  /** `accepted`, `handled` and `lost` record what was queued, what the thread took out and how many it never saw. */
  datatype State = State(
    self: Text, queue: seq<P.Message>, services: Services,
    accepted: seq<P.Message>, handled: seq<Handled>, lost: nat)

  datatype Action = Receive(mem: seq<byte>) | Process(order: seq<Text>)

  function Init(self: Text, m: Services): State { State(self, [], m, [], [], 0) }

  predicate Full(s: State) { |s.queue| >= MAX_SYSTEM_QUEUE }

  function Step(s: State, a: Action): State {
    match a
    case Receive(mem) => (
      match Queued(s.self, mem)
      case None => s
      case Some(m) =>
        s.(queue := Pushed(s.queue, m), accepted := s.accepted + [m], lost := s.lost + (if Full(s) then 1 else 0)))
    case Process(order) =>
      if s.queue == [] then s
      else
        s.(queue := s.queue[1..], handled := s.handled + [Handled(s.queue[0], order)],
           services := Apply(s.services, React(s.self, s.queue[0]), order))
  }

  function Run(s: State, schedule: seq<Action>): State {
    if schedule == [] then s else Step(Run(s, Front(schedule)), Last(schedule))
  }

  function Messages(handled: seq<Handled>): (ms: seq<P.Message>)
    ensures |ms| == |handled|
  {
    seq(|handled|, i requires 0 <= i < |handled| => handled[i].msg)
  }

  /** The service map after the given messages, one after the other. */
  function Replay(self: Text, m: Services, handled: seq<Handled>): Services {
    if handled == [] then m
    else Apply(Replay(self, m, Front(handled)), React(self, Last(handled).msg), Last(handled).order)
  }

  ghost predicate Inv(s: State, self: Text, m: Services) {
    && s.self == self && |s.queue| <= MAX_SYSTEM_QUEUE
    && Subseq(Messages(s.handled) + s.queue, s.accepted)
    && |s.accepted| == |s.handled| + |s.queue| + s.lost
    && s.services == Replay(self, m, s.handled)
  }

  lemma ReceiveKeepsInv(s: State, self: Text, m: Services, msg: P.Message)
    requires Inv(s, self, m)
    ensures Inv(s.(queue := Pushed(s.queue, msg), accepted := s.accepted + [msg], lost := s.lost + (if Full(s) then 1 else 0)), self, m)
  {
    hide Subseq, Replay, Messages;
    var out, q := Messages(s.handled), s.queue;
    if Full(s) {
      SubseqDrop(out + q, s.accepted, |out|);
      assert (out + q)[..|out|] + (out + q)[|out| + 1..] == out + q[1..];
      SubseqExtend(out + q[1..], s.accepted, msg);
      assert out + (q[1..] + [msg]) == (out + q[1..]) + [msg];
    } else {
      SubseqExtend(out + q, s.accepted, msg);
      assert out + (q + [msg]) == (out + q) + [msg];
    }
  }

  lemma ProcessKeepsInv(s: State, self: Text, m: Services, order: seq<Text>)
    requires Inv(s, self, m)
    ensures Inv(Step(s, Process(order)), self, m)
  {
    hide Subseq, Apply, React;
    if s.queue != [] {
      var h := Handled(s.queue[0], order);
      assert Front(s.handled + [h]) == s.handled;
      assert Messages(s.handled + [h]) == Messages(s.handled) + [s.queue[0]];
      assert Messages(s.handled) + s.queue == Messages(s.handled) + [s.queue[0]] + s.queue[1..];
    }
  }

  lemma {:induction false} RunKeepsInv(self: Text, m: Services, schedule: seq<Action>)
    ensures Inv(Run(Init(self, m), schedule), self, m)
  {
    if schedule != [] {
      hide Inv, Apply, React, Queued, Pushed;
      var s := Run(Init(self, m), Front(schedule));
      RunKeepsInv(self, m, Front(schedule));
      match Last(schedule)
      case Receive(mem) =>
        SameSelf(s, self, m);
        if Queued(self, mem).Some? { ReceiveKeepsInv(s, self, m, Queued(self, mem).value); }
      case Process(order) => ProcessKeepsInv(s, self, m, order);
    }
  }

  lemma SameSelf(s: State, self: Text, m: Services)
    requires Inv(s, self, m)
    ensures s.self == self
  {
  }

  /** The messages that the packets of a schedule put into the queue. */
  function AcceptedOf(self: Text, schedule: seq<Action>): seq<P.Message> {
    if schedule == [] then []
    else
      var a := Last(schedule);
      AcceptedOf(self, Front(schedule)) +
      if a.Receive? && Queued(self, a.mem).Some? then [Queued(self, a.mem).value] else []
  }

  lemma {:induction false} AcceptedIs(self: Text, m: Services, schedule: seq<Action>)
    ensures Run(Init(self, m), schedule).accepted == AcceptedOf(self, schedule) && Run(Init(self, m), schedule).self == self
  {
    hide Queued, Apply, React;
    if schedule != [] { AcceptedIs(self, m, Front(schedule)); }
  }

  /** The system thread left alone handles what is queued, oldest first. */
  lemma {:induction false} ThreadDrains(s: State, order: seq<Text>) returns (t: seq<Action>)
    ensures var s' := Run(s, t);
      s'.queue == [] && Messages(s'.handled) == Messages(s.handled) + s.queue && s'.accepted == s.accepted && s'.lost == s.lost
    decreases |s.queue|
  {
    hide Apply, React, Queued;
    if s.queue == [] {
      t := [];
    } else {
      var s1 := Step(s, Process(order));
      var rest := ThreadDrains(s1, order);
      t := [Process(order)] + rest;
      RunFrom(s, Process(order), rest);
      assert Messages(s1.handled) == Messages(s.handled) + [s.queue[0]];
      assert s.queue == [s.queue[0]] + s.queue[1..];
    }
  }

  lemma {:induction false} RunFrom(s: State, a: Action, rest: seq<Action>)
    ensures Run(s, [a] + rest) == Run(Step(s, a), rest)
    decreases |rest|
  {
    hide Step;
    if rest == [] {
      assert [a] + rest == [a] && Front([a]) == [];
      assert Run(s, [a]) == Step(Run(s, []), a);
    } else {
      RunFrom(s, a, Front(rest));
      assert Front([a] + rest) == [a] + Front(rest);
    }
  }

  /** No packet that is to be queued ever meets a full queue. */
  ghost predicate NeverFull(s: State, schedule: seq<Action>) {
    forall k :: 0 <= k < |schedule| ==> !Overflows(Run(s, schedule[..k]), schedule[k])
  }

  predicate Overflows(s: State, a: Action) { a.Receive? && Queued(s.self, a.mem).Some? && Full(s) }

  lemma {:induction false} LostIffFull(s: State, schedule: seq<Action>)
    ensures Run(s, schedule).lost >= s.lost
    ensures Run(s, schedule).lost == s.lost <==> NeverFull(s, schedule)
  {
    if schedule != [] {
      hide Step, Overflows, NeverFull;
      LostIffFull(s, Front(schedule));
      LostStep(Run(s, Front(schedule)), Last(schedule));
      NeverFullLast(s, schedule);
    }
  }

  lemma LostStep(s: State, a: Action)
    ensures Step(s, a).lost == s.lost + (if Overflows(s, a) then 1 else 0)
  {
    hide Queued, Apply, React, Pushed;
  }

  lemma NeverFullLast(s: State, schedule: seq<Action>)
    requires schedule != []
    ensures NeverFull(s, schedule) <==> NeverFull(s, Front(schedule)) && !Overflows(Run(s, Front(schedule)), Last(schedule))
  {
    hide Overflows, Run;
    var n, front := |schedule| - 1, Front(schedule);
    assert forall k :: 0 <= k < n ==> schedule[..k] == front[..k] && schedule[k] == front[k];
    if NeverFull(s, schedule) {
      assert !Overflows(Run(s, schedule[..n]), schedule[n]);
      forall k | 0 <= k < n ensures !Overflows(Run(s, front[..k]), front[k]) {
        assert !Overflows(Run(s, schedule[..k]), schedule[k]);
      }
    }
    if NeverFull(s, front) && !Overflows(Run(s, front), Last(schedule)) {
      forall k | 0 <= k < |schedule| ensures !Overflows(Run(s, schedule[..k]), schedule[k]) {
        if k < n { assert !Overflows(Run(s, front[..k]), front[k]); }
      }
    }
  }

  /**
   * Over every run the service map is what the handled messages make of it one after the other,
   * these are an in-order selection of those accepted, and the others are queued or lost. Nothing
   * is lost exactly when no message meets a full queue, and then the handled ones are simply the
   * first of those accepted.
   */
  lemma EveryRunReplays(self: Text, m: Services, schedule: seq<Action>)
    ensures var s := Run(Init(self, m), schedule);
      && s.accepted == AcceptedOf(self, schedule)
      && s.services == Replay(self, m, s.handled)
      && |s.queue| <= MAX_SYSTEM_QUEUE && Subseq(Messages(s.handled) + s.queue, s.accepted)
      && |s.accepted| == |s.handled| + |s.queue| + s.lost
      && (s.lost == 0 <==> NeverFull(Init(self, m), schedule))
      && (s.lost == 0 ==> Messages(s.handled) + s.queue == s.accepted)
  {
    hide Subseq, Run, Replay, Messages, NeverFull, AcceptedOf;
    AcceptedIs(self, m, schedule);
    RunKeepsInv(self, m, schedule);
    LostIffFull(Init(self, m), schedule);
    var s := Run(Init(self, m), schedule);
    SubseqLength(Messages(s.handled) + s.queue, s.accepted);
  }

  // ------------------------------------------------------------------ in place

  class SystemThread {
    const self: Text
    var queue: seq<P.Message>

    constructor (self: Text)
      ensures this.self == self && queue == []
    {
      this.self, queue := self, [];
    }

    method EnqueueSystemMessage(m: P.Message)
      modifies this
      ensures queue == Pushed(old(queue), m)
    {
      if |queue| >= MAX_SYSTEM_QUEUE {
        queue := queue[1..];
      }
      queue := queue + [m];
    }

    /** processPacket. */
    method ProcessPacket(mem: seq<byte>)
      modifies this
      ensures queue == match Queued(self, mem) case Some(m) => Pushed(old(queue), m) case None => old(queue)
    {
      hide P.Parse, Pushed;
      var outcome := P.Parse(mem);
      if !outcome.Parsed? || outcome.message.node == self {
        return;
      }
      var m := outcome.message;
      if m.kind == P.SERVICE_REGISTER || m.kind == P.SERVICE_UNREGISTER {
        EnqueueSystemMessage(m);
      } else if m.kind == P.NODE_JOIN || m.kind == P.NODE_LEAVE {
        EnqueueSystemMessage(m.(payload := []));
      }
    }

    /** One turn of systemMessageThread, as far as it takes a message out. */
    method Next() returns (m: Option<P.Message>)
      modifies this
      ensures m == if old(queue) == [] then None else Some(old(queue)[0])
      ensures queue == if old(queue) == [] then [] else old(queue)[1..]
    {
      m := None;
      if queue != [] {
        m, queue := Some(queue[0]), queue[1..];
      }
    }
  }
}
