/** The byte ring with its tail on the end of the buffer and messages unread, for every continuation. */
module RingEnd {
  import opened Bytes
  import opened RingLayout
  import opened RingMachine
  import opened RingProofs
  import opened RingTheorems

  /** The eight bytes behind the buffer, which a reader with its tail on the end takes for a header. */
  function Behind(s: State): seq<byte>
    requires |s.mem| == s.n + BEYOND
  {
    s.mem[s.n..s.n + HEADER]
  }

  predicate Unusable(h: seq<byte>) requires |h| == HEADER { Magic(h) != MAGIC_PADDING && !Acceptable(h) }

  /**
   * With the tail on the end and messages still unread, the outcome of tryRead hangs on the header
   * it copied from behind the buffer. The queue goes on exactly when that carries the padding
   * magic; an acceptable header makes it take a frame from outside, and any other is reported as
   * corrupt.
   */
  lemma ReadAtEnd(s: State)
    requires Inv(s) && s.consumer.CHeader? && |s.consumer.got| == HEADER && s.tail == s.n
    ensures s.delivered < s.accepted && s.pre == []
    ensures Inv(ConsumerStep(s)) <==> Magic(s.consumer.got) == MAGIC_PADDING
    ensures Magic(s.consumer.got) == MAGIC_PADDING ==> Fifo(ConsumerStep(s))
    ensures Unusable(s.consumer.got) ==> !Fifo(ConsumerStep(s))
    ensures Acceptable(s.consumer.got) ==> Taking(ConsumerStep(s))
  {
    hide Le, FromLe, Frame, PadAt, Magic, Length;
    var got := s.consumer.got;
    assert got[..HEADER] == got;
    EmptyIff(s.n, s.mem, s.head, s.tail, s.pad, s.pre, s.post);
    LaidBounds(s.mem, s.tail, s.pad, s.pre);
    if Magic(got) == MAGIC_PADDING {
      HeaderStep(s);
      InvIsFifo(ConsumerStep(s));
    }
    assert s.accepted[..|s.delivered|] == s.delivered;
  }

  // ------------------------------------------------------------------ steps of the producer

  /** A producer step leaves the consumer's part alone and stores at most one byte. */
  lemma ProducerFrame(s: State, c: Consumer, corrupt: nat)
    ensures var s' := ProducerStep(s);
      && s'.n == s.n && s'.tail == s.tail && s'.delivered == s.delivered && |s'.mem| == |s.mem|
      && ProducerStep(s.(consumer := c, corrupt := corrupt)) == s'.(consumer := c, corrupt := corrupt)
      && forall i :: 0 <= i < |s.mem| && i != NextStore(s) ==> s'.mem[i] == s.mem[i]
  {
    hide Frame, Need, Decide, PadHeader;
  }

  /** What lies behind the buffer stays, and a ring with unread messages keeps them. */
  lemma ProducerStaysInside(s: State)
    requires Inv(s)
    ensures Inv(ProducerStep(s)) && Behind(ProducerStep(s)) == Behind(s)
    ensures s.head != s.tail ==> ProducerStep(s).head != ProducerStep(s).tail
  {
    hide ProducerStep, Layout, ProducerOk, ConsumerOk, Unread, NextStore;
    ProducerKeepsInv(s);
    var s' := ProducerStep(s);
    ProducerFrame(s, s.consumer, s.corrupt);
    if NextStore(s) >= 0 { StoresAreSafe(s); }
    AcceptedGrows(s);
    if s.head != s.tail { UnreadIffBehind(s); UnreadIffBehind(s'); }
  }

  lemma UnreadIffBehind(s: State)
    requires Inv(s)
    ensures s.head == s.tail <==> |s.accepted| == |s.delivered|
  {
    hide Layout, ProducerOk, ConsumerOk;
    EmptyIff(s.n, s.mem, s.head, s.tail, s.pad, s.pre, s.post);
  }

  lemma AcceptedGrows(s: State)
    ensures |ProducerStep(s).accepted| >= |s.accepted| && ProducerStep(s).delivered == s.delivered
  {
    hide Frame, Need, Decide, PadHeader;
  }

  // ------------------------------------------------------------------ no usable header behind the buffer

  /** `b` agrees with `h` where it matters: in the magic, and in the length too if the magic is that of a message. */
  predicate Like(h: seq<byte>, b: seq<byte>)
    requires |h| == HEADER
  {
    |b| <= HEADER && forall j :: 0 <= j < |b| && (j >= 4 || Magic(h) == MAGIC_VALID) ==> b[j] == h[j]
  }

  lemma LikeIsUnusable(h: seq<byte>, b: seq<byte>)
    requires |h| == HEADER == |b| && Unusable(h) && Like(h, b)
    ensures Unusable(b)
  {
    assert b[4..] == h[4..];
    if Magic(h) == MAGIC_VALID { assert b == h; }
  }

  /** Whatever else changes behind the buffer, it stays like `h`. */
  predicate Spares(h: seq<byte>, a: Action)
    requires |h| == HEADER
  {
    a.Neighbour? && |a.bytes| == BEYOND ==> Like(h, a.bytes[..HEADER])
  }

  /** Messages are unread, the tail is on the end, and what lies behind and was read of it is like `h`. */
  ghost predicate Stuck(s: State, h: seq<byte>)
    requires |h| == HEADER
  {
    && Inv(s.(corrupt := 0)) && s.tail == s.n && s.head != s.tail
    && Like(h, Behind(s)) && (s.consumer.CHeader? ==> Like(h, s.consumer.got))
  }

  lemma StuckStep(s: State, h: seq<byte>, a: Action)
    requires |h| == HEADER && Unusable(h) && Stuck(s, h) && Spares(h, a)
    ensures var s' := Step(s, a); Stuck(s', h) && s'.delivered == s.delivered && s'.tail == s.tail
  {
    hide Layout, ProducerOk, ConsumerOk, Unusable, Like, Behind, ProducerStep, ConsumerStep;
    match a
    case Write(_) => StuckCall(s, h, a);
    case Produce =>
      var z := s.(corrupt := 0);
      ProducerStaysInside(z);
      ProducerFrame(z, s.consumer, s.corrupt);
      assert z.(consumer := s.consumer, corrupt := s.corrupt) == s;
      ProducerFrame(s, s.consumer, 0);
      assert s.(consumer := s.consumer, corrupt := 0) == z;
      BehindIgnores(s, 0);
      BehindIgnores(Step(s, a), 0);
    case Consume => StuckRead(s, h);
    case Neighbour(bytes) =>
      NeighbourKeepsInv(s.(corrupt := 0), bytes);
      BehindOverwritten(s, bytes);
  }

  lemma BehindIgnores(s: State, corrupt: nat)
    requires |s.mem| == s.n + BEYOND
    ensures Behind(s.(corrupt := corrupt)) == Behind(s)
  {
  }

  lemma BehindOverwritten(s: State, bytes: seq<byte>)
    requires |s.mem| == s.n + BEYOND
    ensures var s' := Overwrite(s, bytes);
      |s'.mem| == s.n + BEYOND && Behind(s') == if |bytes| == BEYOND then bytes[..HEADER] else Behind(s)
  {
  }

  lemma StuckCall(s: State, h: seq<byte>, a: Action)
    requires |h| == HEADER && Stuck(s, h) && a.Write?
    ensures var s' := Step(s, a); Stuck(s', h) && s'.delivered == s.delivered && s'.tail == s.tail
  {
    hide Layout, ConsumerOk, Like;
  }

  lemma StuckRead(s: State, h: seq<byte>)
    requires |h| == HEADER && Unusable(h) && Stuck(s, h)
    ensures var s' := ConsumerStep(s); Stuck(s', h) && s'.delivered == s.delivered && s'.tail == s.tail
  {
    hide Layout, ProducerOk, Magic, Length, Like, Behind;
    EndMeansPadded(s.(corrupt := 0));
    EmptyIff(s.n, s.mem, s.head, s.tail, s.pad, s.pre, s.post);
    BehindIgnores(s, 0);
    BehindDepends(s, ConsumerStep(s));
    LikeStarts(h);
    if s.consumer.CHeader? {
      var got := s.consumer.got;
      if |got| == HEADER {
        assert got[..HEADER] == got;
        LikeIsUnusable(h, got);
      } else if |got| < HEADER {
        LikeExtends(s, h, got);
      }
    }
  }

  lemma BehindDepends(s: State, s': State)
    requires |s.mem| == s.n + BEYOND
    ensures s'.n == s.n && s'.mem == s.mem ==> Behind(s') == Behind(s)
  {
  }

  lemma LikeStarts(h: seq<byte>)
    requires |h| == HEADER
    ensures Like(h, [])
  {
  }

  lemma LikeExtends(s: State, h: seq<byte>, got: seq<byte>)
    requires |h| == HEADER && |s.mem| == s.n + BEYOND && Like(h, Behind(s)) && Like(h, got) && |got| < HEADER
    ensures Like(h, got + [s.mem[s.n + |got|]])
  {
    hide Magic;
    assert s.mem[s.n + |got|] == Behind(s)[|got|];
  }

  lemma EndMeansPadded(s: State)
    requires Inv(s) && s.tail == s.n && s.head != s.tail
    ensures s.pre == []
  {
    LaidBounds(s.mem, s.tail, s.pad, s.pre);
  }

  /**
   * From then on, as long as what lies behind the buffer stays unusable, no schedule ever delivers
   * another message, and the tail stays where it is.
   */
  lemma {:induction false} DeliveryStops(s: State, h: seq<byte>, schedule: seq<Action>)
    requires |h| == HEADER && Unusable(h) && Stuck(s, h) && forall a :: a in schedule ==> Spares(h, a)
    ensures var s' := Run(s, schedule); Stuck(s', h) && s'.delivered == s.delivered && s'.tail == s.tail
  {
    hide Stuck, Step, Unusable, Spares;
    if schedule != [] {
      var k := |schedule| - 1;
      DeliveryStops(s, h, schedule[..k]);
      StuckStep(Run(s, schedule[..k]), h, schedule[k]);
    }
  }

  // ------------------------------------------------------------------ an acceptable header behind the buffer

  /** The consumer is copying a payload from behind the buffer. */
  ghost predicate Taking(s: State) {
    Inv(s.(consumer := CIdle)) && s.consumer.CPayload? && s.tail == s.n && s.head != s.tail
  }

  lemma TakingStep(s: State, a: Action)
    requires Taking(s)
    ensures (Taking(Step(s, a)) && Step(s, a).delivered == s.delivered) || !Fifo(Step(s, a))
  {
    hide Layout, ConsumerOk, Magic, Length, Unread, ProducerStep;
    match a
    case Write(_) =>
    case Produce =>
      hide ProducerOk;
      ProducerStaysInside(s.(consumer := CIdle));
      ProducerFrame(s, CIdle, s.corrupt);
      ProducerFrame(s.(consumer := CIdle), s.consumer, s.corrupt);
      assert s.(consumer := CIdle).(consumer := s.consumer, corrupt := s.corrupt) == s;
    case Consume =>
    case Neighbour(bytes) => NeighbourKeepsInv(s.(consumer := CIdle), bytes);
  }

  /** From then on every schedule delivers nothing more or breaks the queue when the foreign frame is delivered. */
  lemma {:induction false} ForeignFrame(s: State, schedule: seq<Action>)
    requires Taking(s)
    ensures Run(s, schedule).delivered == s.delivered || exists k :: 0 <= k <= |schedule| && !Fifo(Run(s, schedule[..k]))
    ensures Taking(Run(s, schedule)) || exists k :: 0 <= k <= |schedule| && !Fifo(Run(s, schedule[..k]))
  {
    hide Taking, Step, Fifo;
    if schedule != [] {
      var n := |schedule| - 1;
      var front := schedule[..n];
      ForeignFrame(s, front);
      if k :| 0 <= k <= |front| && !Fifo(Run(s, front[..k])) {
        assert front[..k] == schedule[..k];
      } else {
        TakingStep(Run(s, front), schedule[n]);
        assert schedule[..|schedule|] == schedule;
      }
    }
  }
}
