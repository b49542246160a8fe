/** The ring can be driven to the end of its buffer with messages unread. */
module RingReachability {
  import opened Bytes
  import opened RingLayout
  import opened RingMachine
  import opened RingProofs
  import opened RingTheorems
  import opened RingEnd

  lemma {:induction false} RunConcat(s: State, a: seq<Action>, b: seq<Action>)
    ensures Run(s, a + b) == Run(Run(s, a), b)
  {
    if b == [] {
      assert a + b == a;
    } else {
      var k := |b| - 1;
      RunConcat(s, a, b[..k]);
      assert (a + b)[..|a + b| - 1] == a + b[..k];
    }
  }

  lemma RunOne(s: State, a: Action)
    ensures Run(s, [a]) == Step(s, a)
  {
    assert [a][..0] == [];
    assert Run(s, []) == s;
  }

  /** Everything a write leaves alone. */
  predicate WriteFrame(s: State, s': State) {
    && |s.mem| == s.n + BEYOND == |s'.mem|
    && s'.n == s.n && s'.tail == s.tail && s'.consumer == s.consumer && s'.delivered == s.delivered && s'.dropped == s.dropped
    && Behind(s') == Behind(s)
  }

  /** A producer left alone completes the frame it is storing. */
  lemma {:induction false} FinishFrame(s: State) returns (t: seq<Action>)
    requires Inv(s) && s.producer.PFrame?
    ensures var s' := Run(s, t);
      && Inv(s') && s'.producer.PIdle? && WriteFrame(s, s')
      && s'.head == FrameStart(s.head, s.producer.wrap) + Need(|s.producer.msg|)
      && s'.pre + s'.post == s.pre + s.post + [s.producer.msg]
    decreases HEADER + |s.producer.msg| - s.producer.done
  {
    hide Layout, Laid, Le, FromLe, Frame, Holds, Fits, Need, Behind;
    var m := s.producer.msg;
    ProducerStaysInside(s);
    RunOne(s, Produce);
    if s.producer.done < HEADER + |m| {
      var rest := FinishFrame(ProducerStep(s));
      t := [Produce] + rest;
      RunConcat(s, [Produce], rest);
    } else {
      t := [Produce];
      PublishQueue(s);
    }
  }

  /** A producer left alone completes the padding header it is storing. */
  lemma {:induction false} FinishPad(s: State) returns (t: seq<Action>)
    requires Inv(s) && s.producer.PPad?
    ensures var s' := Run(s, t);
      && Inv(s') && s'.producer == PFrame(s.producer.msg, s.producer.snap, true, 0) && WriteFrame(s, s')
      && s'.head == s.head && s'.pre == s.pre && s'.post == s.post
    decreases HEADER - s.producer.done
  {
    hide Layout, Laid, Le, FromLe, Frame, Holds, Fits, Need, Behind, PadHeader;
    ProducerStaysInside(s);
    RunOne(s, Produce);
    t := [Produce];
    if s.producer.done < HEADER {
      var rest := FinishPad(ProducerStep(s));
      t := [Produce] + rest;
      RunConcat(s, [Produce], rest);
    }
  }

  lemma PublishQueue(s: State)
    requires Inv(s) && s.producer.PFrame?
    ensures var s' := Publish(s, s.producer.msg, s.producer.wrap);
      s'.pre + s'.post == s.pre + s.post + [s.producer.msg]
  {
    if s.producer.wrap || s.tail <= s.head {
      assert s.post == [];
      assert s.pre + s.post == s.pre;
    }
  }

  /** The frame of `m` can go to `p`. */
  ghost predicate Room(s: State, p: nat, m: Msg) { RoomAt(s.n, s.head, s.tail, s.pad, p, Need(|m|)) }

  /** A complete tryWrite for whose frame there is room, at the head or, behind a padding header, at 0. */
  lemma SoloWrite(s: State, m: Msg) returns (t: seq<Action>)
    requires Inv(s) && s.producer.PIdle? && Legal(m) && (Room(s, s.head, m) || Room(s, 0, m))
    ensures var s' := Run(s, t);
      && Inv(s') && s'.producer.PIdle? && WriteFrame(s, s')
      && s'.head == (if Room(s, s.head, m) then s.head else 0) + Need(|m|)
      && s'.pre + s'.post == s.pre + s.post + [m]
  {
    hide Layout, Laid, Le, FromLe, Frame, Holds, PadAt, Need, Behind, Decide, RoomAt;
    DecideIsRoom(s.n, s.mem, s.head, s.tail, s.pad, s.pre, s.post, Need(|m|));
    var s3;
    t, s3 := Decided(s, m);
    if s3.producer.PPad? {
      var pad := FinishPad(s3);
      RunConcat(s, t, pad);
      t, s3 := t + pad, Run(s3, pad);
    }
    var rest := FinishFrame(s3);
    RunConcat(s, t, rest);
    t := t + rest;
  }

  /** A complete tryWrite for which there is no room counts a drop and changes nothing else. */
  lemma SoloRefusal(s: State, m: Msg) returns (t: seq<Action>)
    requires Inv(s) && s.producer.PIdle? && Legal(m) && !Room(s, s.head, m) && !Room(s, 0, m)
    ensures Run(s, t) == s.(dropped := s.dropped + 1)
  {
    hide Layout, Need, Decide, RoomAt;
    DecideIsRoom(s.n, s.mem, s.head, s.tail, s.pad, s.pre, s.post, Need(|m|));
    var s1 := Begin(s, m);
    var s2 := ProducerStep(s1);
    RunOne(s, Write(m));
    RunOne(s1, Produce);
    RunOne(s2, Produce);
    RunConcat(s, [Write(m)], [Produce]);
    RunConcat(s, [Write(m)] + [Produce], [Produce]);
    t := [Write(m)] + [Produce] + [Produce];
  }

  /** The first steps of a tryWrite: call, load of the tail, space test. */
  lemma Decided(s: State, m: Msg) returns (t: seq<Action>, s3: State)
    requires Inv(s) && s.producer.PIdle? && Legal(m) && !Decide(s.n, s.head, s.tail, Need(|m|)).Refuse?
    ensures s3 == Run(s, t) && Inv(s3) && s3 == s.(producer := s3.producer) && WriteFrame(s, s3)
    ensures var wrap := Decide(s.n, s.head, s.tail, Need(|m|)).Wrap?;
      s3.producer == PFrame(m, s.tail, wrap, 0) || (wrap && s3.producer == PPad(m, s.tail, 0))
  {
    hide Layout, Laid, Le, FromLe, Frame, Holds, PadAt, Need, Decide;
    var s1 := Begin(s, m);
    var s2 := ProducerStep(s1);
    s3 := ProducerStep(s2);
    StepKeepsInv'(s, Write(m));
    ProducerKeepsInv(s1);
    ProducerKeepsInv(s2);
    RunOne(s, Write(m));
    RunOne(s1, Produce);
    RunOne(s2, Produce);
    RunConcat(s, [Write(m)], [Produce]);
    RunConcat(s, [Write(m)] + [Produce], [Produce]);
    t := [Write(m)] + [Produce] + [Produce];
  }

  lemma StepKeepsInv'(s: State, a: Action)
    requires Inv(s) && a.Write?
    ensures Inv(Step(s, a))
  {
  }

  function ReadRank(c: Consumer): nat {
    match c
    case CIdle => 4000
    case CHeader(_, _, got) => if |got| <= HEADER then 3000 - |got| else 0
    case CPayload(len, got) => if |got| <= len then len - |got| else 0
  }

  /** A consumer left alone before the padding takes exactly the oldest message. */
  lemma {:induction false} SoloTake(s: State) returns (t: seq<Action>)
    requires Inv(s) && s.pre != []
    ensures var s' := Run(s, t);
      && Inv(s') && s'.consumer.CIdle? && s'.n == s.n && s'.head == s.head && s'.producer == s.producer
      && s'.tail == s.tail + Need(|s.pre[0]|) && s'.pre == s.pre[1..] && s'.post == s.post
      && s'.mem == s.mem && s'.delivered == s.delivered + [s.pre[0]]
    decreases ReadRank(s.consumer)
  {
    hide Le, FromLe, Frame, PadAt, Magic, Length, Unread;
    BeforeEnd(s);
    ConsumerKeepsInv(s);
    RunOne(s, Consume);
    var s' := ConsumerStep(s);
    ReadProgress(s);
    if s'.consumer.CIdle? {
      t := [Consume];
    } else {
      var rest := SoloTake(s');
      t := [Consume] + rest;
      RunConcat(s, [Consume], rest);
    }
  }

  /** A consumer left alone at the padding turns back to 0. */
  lemma {:induction false} SoloTurn(s: State) returns (t: seq<Action>)
    requires Inv(s) && s.pre == [] && s.head != s.tail && s.tail < s.n
    ensures var s' := Run(s, t);
      && Inv(s') && s'.n == s.n && s'.head == s.head && s'.producer == s.producer && s'.tail == 0
      && s'.pre == s.post != [] && s'.post == [] && s'.mem == s.mem && s'.delivered == s.delivered
    decreases ReadRank(s.consumer)
  {
    hide Le, FromLe, Frame, PadAt, Magic, Length, Unread;
    ConsumerKeepsInv(s);
    RunOne(s, Consume);
    var s' := ConsumerStep(s);
    TurnProgress(s);
    t := [Consume];
    if s'.tail == s.tail {
      var rest := SoloTurn(s');
      t := [Consume] + rest;
      RunConcat(s, [Consume], rest);
    }
  }

  lemma TurnProgress(s: State)
    requires Inv(s) && s.pre == [] && s.head != s.tail && s.tail < s.n
    ensures var s' := ConsumerStep(s);
      || (s' == s.(consumer := s'.consumer) && ReadRank(s'.consumer) < ReadRank(s.consumer))
      || (s' == s.(consumer := s'.consumer, tail := 0, pre := s.post, post := []) && s.tail != 0 && s.post != [])
  {
    hide Le, FromLe, Frame, PadAt, Magic, Length, Unread, Laid, Need;
    EmptyIff(s.n, s.mem, s.head, s.tail, s.pad, s.pre, s.post);
    TailHeader(s.mem, s.n, s.head, s.tail, s.pad, s.pre, s.post);
    assert s.pre + s.post == s.post;
    if s.consumer.CHeader? && |s.consumer.got| == HEADER {
      assert s.consumer.got[..HEADER] == s.consumer.got;
      HeaderMeaning(s, s.consumer.got);
    }
  }

  /** A tryRead left alone takes exactly the oldest message, on either side of the padding. */
  lemma SoloRead(s: State) returns (t: seq<Action>, first: Msg)
    requires Inv(s) && s.head != s.tail && s.tail < s.n
    ensures var s' := Run(s, t);
      && Inv(s') && s'.consumer.CIdle? && s'.n == s.n && s'.head == s.head && s'.producer == s.producer
      && s.pre + s.post == [first] + (s'.pre + s'.post) && s'.delivered == s.delivered + [first] && s'.mem == s.mem
  {
    hide Layout, ProducerOk, ConsumerOk, Run;
    if s.pre == [] {
      var turn := SoloTurn(s);
      var s1 := Run(s, turn);
      var take := SoloTake(s1);
      t, first := turn + take, s1.pre[0];
      RunConcat(s, turn, take);
      assert s.pre + s.post == [s1.pre[0]] + (s1.pre[1..] + []);
    } else {
      first := s.pre[0];
      t := SoloTake(s);
      assert s.pre + s.post == [s.pre[0]] + (s.pre[1..] + s.post);
    }
  }

  lemma BeforeEnd(s: State)
    requires Inv(s) && s.pre != []
    ensures s.head != s.tail && s.tail < s.n && !ReadsPastEnd(s)
  {
    EmptyIff(s.n, s.mem, s.head, s.tail, s.pad, s.pre, s.post);
    LayoutConsume(s.n, s.mem, s.head, s.tail, s.pad, s.pre, s.post);
  }

  lemma ReadProgress(s: State)
    requires Inv(s) && s.pre != [] && s.head != s.tail && s.tail < s.n && !ReadsPastEnd(s)
    ensures var s' := ConsumerStep(s);
      if s.consumer.CPayload? && |s.consumer.got| == s.consumer.len then
        s' == s.(consumer := CIdle, tail := s.tail + Need(|s.pre[0]|), read := s.read + 1,
                 delivered := s.delivered + [s.pre[0]], pre := s.pre[1..])
      else
        s' == s.(consumer := s'.consumer) && ReadRank(s'.consumer) < ReadRank(s.consumer) && !s'.consumer.CIdle?
  {
    hide Le, FromLe, PadAt, Frame, Magic, Length, Unread, Need;
    if s.consumer.CHeader? && |s.consumer.got| == HEADER {
      assert s.consumer.got[..HEADER] == s.consumer.got;
      HeaderMeaning(s, s.consumer.got);
    }
    if s.consumer.CPayload? {
      LayoutConsume(s.n, s.mem, s.head, s.tail, s.pad, s.pre, s.post);
      if |s.consumer.got| == s.consumer.len { PayloadIs(s.mem, s.tail, s.pre[0], s.consumer.got); }
    }
  }

  /** A message whose frame is 2048 bytes long, the largest legal one. */
  const BIG: Msg := Zeros(MAX_MSG)

  lemma {:induction false} Fill(n: nat, mem: seq<byte>, k: nat) returns (t: seq<Action>)
    requires Buffer(n, mem) && 2048 * k <= n
    ensures var s := Run(Init(n, mem), t);
      && Inv(s) && s.producer.PIdle? && s.consumer.CIdle? && s.n == n && s.head == 2048 * k && s.tail == 0
      && s.pre + s.post == seq(k, _ => BIG) && s.mem[n..n + HEADER] == mem[n..n + HEADER]
  {
    hide Inv, Step;
    if k == 0 {
      t := [];
      InitInv(n, mem);
    } else {
      var before := Fill(n, mem, k - 1);
      var s := Run(Init(n, mem), before);
      var more := SoloWrite(s, BIG);
      t := before + more;
      RunConcat(Init(n, mem), before, more);
      assert seq(k, _ => BIG) == seq(k - 1, _ => BIG) + [BIG];
    }
  }

  lemma {:induction false} Drain(s: State, k: nat) returns (t: seq<Action>)
    requires Inv(s) && s.consumer.CIdle? && k <= |s.pre|
    requires forall i :: 0 <= i < k ==> s.pre[i] == BIG
    ensures var s' := Run(s, t);
      && Inv(s') && s'.consumer.CIdle? && s'.n == s.n && s'.head == s.head && s'.producer == s.producer
      && s'.tail == s.tail + 2048 * k && s'.pre == s.pre[k..] && s'.post == s.post && s'.mem == s.mem
    decreases k
  {
    hide Inv, Step;
    if k == 0 {
      t := [];
    } else {
      var first := SoloTake(s);
      var s1 := Run(s, first);
      var rest := Drain(s1, k - 1);
      t := first + rest;
      RunConcat(s, first, rest);
      assert s.pre[1..][k - 1..] == s.pre[k..];
    }
  }

  /**
   * For every buffer of m >= 2 times 2048 bytes, which both transport queues are, some schedule
   * leads to a tail on the end of the buffer with a message unread: m full-size writes, one read,
   * one small write that wraps without padding, and m - 1 reads.
   */
  lemma EndIsReachable(m: nat, mem: seq<byte>) returns (t: seq<Action>)
    requires m >= 2 && |mem| == 2048 * m + BEYOND
    ensures var s := Run(Init(2048 * m, mem), t);
      && Inv(s) && s.consumer.CIdle? && s.n == 2048 * m && s.tail == s.n && s.head != s.tail && s.pre == [] && s.post == [[0]]
      && s.mem[s.n..s.n + HEADER] == mem[s.n..s.n + HEADER]
  {
    hide Inv, Step;
    var n := 2048 * m;
    var t1 := Fill(n, mem, m);
    var s1 := Run(Init(n, mem), t1);
    Unwrapped(s1);
    var t2 := Drain(s1, 1);
    var s2 := Run(s1, t2);
    var t3 := SoloWrite(s2, [0]);
    var s3 := Run(s2, t3);
    Unwrapped(s2);
    Wrapped(s2, s3, [0]);
    var t4 := Drain(s3, m - 1);
    t := t1 + t2 + t3 + t4;
    RunConcat(Init(n, mem), t1, t2);
    RunConcat(Init(n, mem), t1 + t2, t3);
    RunConcat(Init(n, mem), t1 + t2 + t3, t4);
  }

  lemma Unwrapped(s: State)
    requires Inv(s) && s.tail <= s.head
    ensures s.post == [] && s.pre + s.post == s.pre
  {
  }

  /** A frame published at 0 while older ones remain leaves those in place. */
  lemma Wrapped(s: State, s': State, m: Msg)
    requires Inv(s') && s'.head < s'.tail && s'.head == Need(|m|) == 16
    requires s'.pre + s'.post == s.pre + [m]
    ensures s'.pre == s.pre && s'.post == [m]
  {
    LaidBounds(s'.mem, 0, s'.head, s'.post);
    assert |s'.post| == 1;
    assert (s'.pre + s'.post)[..|s'.pre|] == s'.pre;
    assert (s.pre + [m])[..|s.pre|] == s.pre;
  }

  /**
   * So for every such buffer followed by eight bytes that are no usable header, some schedule
   * leads to a state from which no continuation delivers the accepted message that is left, as
   * long as those bytes stay unusable.
   */
  lemma DeliveryCanStop(m: nat, mem: seq<byte>) returns (t: seq<Action>)
    requires m >= 2 && |mem| == 2048 * m + BEYOND && Unusable(mem[2048 * m..2048 * m + HEADER])
    ensures var s, h := Run(Init(2048 * m, mem), t), mem[2048 * m..2048 * m + HEADER];
      && s.delivered < s.accepted && Stuck(s, h)
      && forall more :: (forall a :: a in more ==> Spares(h, a)) ==> Run(s, more).delivered == s.delivered
  {
    hide Step, Magic, Length, Run, Layout, ProducerOk, ConsumerOk, Spares, Unusable;
    t := EndIsReachable(m, mem);
    var s, h := Run(Init(2048 * m, mem), t), mem[2048 * m..2048 * m + HEADER];
    assert s.(corrupt := 0) == s;
    assert s.accepted[..|s.delivered|] == s.delivered;
    forall more | forall a :: a in more ==> Spares(h, a)
      ensures Run(s, more).delivered == s.delivered
    {
      DeliveryStops(s, h, more);
    }
  }

  // ------------------------------------------------------------------ the two rings of an inbound queue

  const CONTROL_RING: nat := 16384
  const DATA_RING: nat := 524288

  /**
   * What lies behind either ring: a 32-bit counter that may change (data_pending behind the control
   * ring, congestion_level behind the data ring), and then four bytes of structure padding, which
   * stay 0 in a segment that was created filled with zeros.
   */
  predicate ZeroPadded(bytes: seq<byte>) { |bytes| == BEYOND && bytes[4..HEADER] == Zeros(4) }

  lemma ZeroMagic(h: seq<byte>)
    requires |h| == HEADER && h[4..] == Zeros(4)
    ensures Unusable(h) && Magic(h) == 0
  {
    assert Zeros(4)[1..][1..][1..][1..] == [];
    assert FromLe(Zeros(4)[1..][1..][1..]) == 0;
    assert FromLe(Zeros(4)[1..][1..]) == 0;
  }

  lemma ZeroPaddedSpares(h: seq<byte>, a: Action)
    requires |h| == HEADER && h[4..] == Zeros(4) && (a.Neighbour? ==> ZeroPadded(a.bytes))
    ensures Spares(h, a)
  {
    hide Magic, Length;
    ZeroMagic(h);
    if a.Neighbour? {
      var b := a.bytes[..HEADER];
      forall j | 4 <= j < HEADER ensures b[j] == h[j] { assert b[j] == a.bytes[4..HEADER][j - 4] && h[j] == h[4..][j - 4]; }
    }
  }

  /**
   * Both rings of the transport can get there, and however the counters behind them change
   * afterwards, the message that is left is never delivered.
   */
  lemma TransportCanStop(n: nat, mem: seq<byte>) returns (t: seq<Action>)
    requires n in {CONTROL_RING, DATA_RING} && |mem| == n + BEYOND && ZeroPadded(mem[n..])
    ensures var s := Run(Init(n, mem), t);
      && s.delivered < s.accepted
      && forall more :: (forall a: Action :: a in more && a.Neighbour? ==> ZeroPadded(a.bytes)) ==> Run(s, more).delivered == s.delivered
  {
    hide Run, Stuck, Unusable, Spares;
    var m, h := n / 2048, mem[n..n + HEADER];
    assert h[4..] == mem[n..][4..HEADER];
    ZeroMagic(h);
    t := DeliveryCanStop(m, mem);
    var s := Run(Init(n, mem), t);
    forall more | forall a: Action :: a in more && a.Neighbour? ==> ZeroPadded(a.bytes)
      ensures Run(s, more).delivered == s.delivered
    {
      forall a | a in more ensures Spares(h, a) { ZeroPaddedSpares(h, a); }
    }
  }
}
