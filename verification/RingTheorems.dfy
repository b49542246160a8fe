/** The byte ring over whole runs: FIFO for every schedule, and the one place where it stops being so. */
module RingTheorems {
  import opened Bytes
  import opened RingLayout
  import opened RingMachine
  import opened RingProofs

  ghost predicate Buffer(n: nat, mem: seq<byte>) { Aligned(n) && |mem| == n + BEYOND }

  /** No prefix of the run interprets a header copied from behind the buffer. */
  ghost predicate StaysInside(s: State, schedule: seq<Action>) {
    forall k :: 0 <= k < |schedule| ==> !ReadsPastEnd(Run(s, schedule[..k]))
  }

  lemma StepKeepsInv(s: State, a: Action)
    requires Inv(s) && !ReadsPastEnd(s)
    ensures Inv(Step(s, a))
  {
    match a
    case Write(_) =>
    case Produce => ProducerKeepsInv(s);
    case Consume => ConsumerKeepsInv(s);
    case Neighbour(bytes) => NeighbourKeepsInv(s, bytes);
  }

  lemma {:induction false} RunKeepsInv(s: State, schedule: seq<Action>)
    requires Inv(s) && StaysInside(s, schedule)
    ensures Inv(Run(s, schedule))
  {
    hide Inv, ReadsPastEnd, Step;
    if schedule != [] {
      var k := |schedule| - 1;
      var front := schedule[..k];
      forall j | 0 <= j < |front|
        ensures !ReadsPastEnd(Run(s, front[..j]))
      {
        assert front[..j] == schedule[..j];
      }
      RunKeepsInv(s, front);
      StepKeepsInv(Run(s, front), schedule[k]);
    }
  }

  /** The FIFO contract: what came out is a prefix of what went in, and equal indices mean empty. */
  ghost predicate Fifo(s: State) {
    && s.delivered <= s.accepted
    && (s.head == s.tail <==> s.delivered == s.accepted)
    && s.written == |s.accepted| && s.read == |s.delivered|
    && s.corrupt == 0 && s.head <= s.n && s.tail <= s.n
    && (NextStore(s) >= 0 ==> NextStore(s) < s.n && !Unread(s.n, s.head, s.tail, s.pad, NextStore(s)))
  }

  lemma InvIsFifo(s: State)
    requires Inv(s)
    ensures Fifo(s)
  {
    EmptyIff(s.n, s.mem, s.head, s.tail, s.pad, s.pre, s.post);
    assert s.delivered + s.pre + s.post == s.delivered + (s.pre + s.post);
    assert s.accepted[..|s.delivered|] == s.delivered;
    if NextStore(s) >= 0 { StoresAreSafe(s); }
  }

  lemma InitInv(n: nat, mem: seq<byte>)
    requires Buffer(n, mem)
    ensures Inv(Init(n, mem))
  {
    assert Laid(mem, 0, 0, []);
  }

  /** FIFO under every interleaving that stays inside the buffer. */
  lemma FifoWhileInside(n: nat, mem: seq<byte>, schedule: seq<Action>)
    requires Buffer(n, mem) && StaysInside(Init(n, mem), schedule)
    ensures Fifo(Run(Init(n, mem), schedule))
  {
    InitInv(n, mem);
    RunKeepsInv(Init(n, mem), schedule);
    InvIsFifo(Run(Init(n, mem), schedule));
  }

  // ------------------------------------------------------------------ wraps taken at the very end

  /** The producer takes the wrap branch with its head on the end of the buffer, so no padding is written. */
  predicate WrapsAtEnd(s: State, a: Action) {
    && a.Produce? && s.producer.PLoaded? && s.head == s.n
    && Decide(s.n, s.head, s.producer.snap, Need(|s.producer.msg|)).Wrap?
  }

  ghost predicate NeverWrapsAtEnd(s: State, schedule: seq<Action>) {
    forall k :: 0 <= k < |schedule| ==> !WrapsAtEnd(Run(s, schedule[..k]), schedule[k])
  }

  ghost predicate PadInside(s: State) {
    && (s.head < s.tail ==> s.pad < s.n)
    && (s.producer.PPad? ==> s.head < s.n)
    && (s.producer.PFrame? && s.producer.wrap ==> s.head < s.n)
  }

  lemma StepKeepsPadInside(s: State, a: Action)
    requires Inv(s) && PadInside(s) && !WrapsAtEnd(s, a)
    ensures !ReadsPastEnd(s) && PadInside(Step(s, a))
  {
    hide Laid, PadAt, Holds, Le, FromLe, Frame, PadHeader, Magic, Length;
    if a.Consume? && s.consumer.CPayload? {
      LayoutConsume(s.n, s.mem, s.head, s.tail, s.pad, s.pre, s.post);
    }
  }

  lemma {:induction false} RunKeepsPadInside(s: State, schedule: seq<Action>)
    requires Inv(s) && PadInside(s) && NeverWrapsAtEnd(s, schedule)
    ensures Inv(Run(s, schedule)) && PadInside(Run(s, schedule))
  {
    hide Inv, PadInside, ReadsPastEnd, WrapsAtEnd, Step;
    if schedule != [] {
      var k := |schedule| - 1;
      var front := schedule[..k];
      forall j | 0 <= j < |front|
        ensures !WrapsAtEnd(Run(s, front[..j]), front[j])
      {
        assert front[..j] == schedule[..j] && front[j] == schedule[j];
      }
      RunKeepsPadInside(s, front);
      assert !WrapsAtEnd(Run(s, schedule[..k]), schedule[k]);
      StepKeepsPadInside(Run(s, front), schedule[k]);
      StepKeepsInv(Run(s, front), schedule[k]);
    }
  }

  /** FIFO for every run in which no wrap is taken with the head on the end of the buffer. */
  lemma FifoUnlessWrapAtEnd(n: nat, mem: seq<byte>, schedule: seq<Action>)
    requires Buffer(n, mem) && NeverWrapsAtEnd(Init(n, mem), schedule)
    ensures Fifo(Run(Init(n, mem), schedule))
  {
    InitInv(n, mem);
    RunKeepsPadInside(Init(n, mem), schedule);
    InvIsFifo(Run(Init(n, mem), schedule));
  }
}
