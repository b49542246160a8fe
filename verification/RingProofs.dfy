/** Every schedule keeps the ring's invariant, so the ring is a FIFO queue. */
module RingProofs {
  import opened Bytes
  import opened RingLayout
  import opened RingMachine

  // ------------------------------------------------------------------ one stored byte

  /** The bytes a reader may look at next are protected. */
  lemma ReaderBytesAreUnread(s: State, a: nat)
    requires Layout(s.n, s.mem, s.head, s.tail, s.pad, s.pre, s.post) && s.head != s.tail
    requires s.tail <= a < s.tail + HEADER || (s.pre != [] && s.tail <= a < s.tail + HEADER + |s.pre[0]|)
    ensures Unread(s.n, s.head, s.tail, s.pad, a)
  {
    LaidBounds(s.mem, s.tail, if s.tail <= s.head then s.head else s.pad, s.pre);
    if s.pre != [] {
      LaidBounds(s.mem, s.tail + Need(|s.pre[0]|), if s.tail <= s.head then s.head else s.pad, s.pre[1..]);
    }
  }

  lemma HoldsStable(mem: seq<byte>, at: nat, bytes: seq<byte>, a: nat, b: byte)
    requires Holds(mem, at, bytes) && a < |mem| && !(at <= a < at + |bytes|)
    ensures Holds(mem[a := b], at, bytes)
  {
    assert mem[a := b][at..at + |bytes|] == mem[at..at + |bytes|];
  }

  lemma PadAtStable(mem: seq<byte>, n: nat, at: nat, a: nat, b: byte)
    requires PadAt(mem, n, at) && a < |mem| && !(at <= a < at + HEADER)
    ensures PadAt(mem[a := b], n, at)
  {
    if at < n { assert mem[a := b][at..at + HEADER] == mem[at..at + HEADER]; }
  }

  lemma HoldsExtend(mem: seq<byte>, at: nat, bytes: seq<byte>, k: nat)
    requires k < |bytes| && at + k < |mem| && Holds(mem, at, bytes[..k])
    ensures Holds(mem[at + k := bytes[k]], at, bytes[..k + 1])
  {
    var mem' := mem[at + k := bytes[k]];
    assert mem'[at..at + k] == mem[at..at + k];
    assert mem'[at..at + k + 1] == mem'[at..at + k] + [bytes[k]];
    assert bytes[..k + 1] == bytes[..k] + [bytes[k]];
  }

  /** A store outside the unread area disturbs neither the unread messages nor the reader. */
  lemma StoreKeeps(s: State, a: nat, b: byte)
    requires Inv(s) && a < s.n && !Unread(s.n, s.head, s.tail, s.pad, a)
    ensures var s' := Store(s, a, b);
      Layout(s.n, s'.mem, s.head, s.tail, s.pad, s.pre, s.post)
      && ConsumerOk(s.n, s'.mem, s.head, s.tail, s.pre, s.consumer)
  {
    hide Laid, Le, FromLe, Frame, Need, Aligned;
    LayoutStable(s.n, s.mem, s.mem[a := b], s.head, s.tail, s.pad, s.pre, s.post);
    EmptyIff(s.n, s.mem, s.head, s.tail, s.pad, s.pre, s.post);
    if s.head != s.tail && s.tail <= a < s.tail + HEADER { ReaderBytesAreUnread(s, a); }
    if s.pre != [] && s.tail <= a < s.tail + HEADER + |s.pre[0]| { ReaderBytesAreUnread(s, a); }
    match s.consumer
    case CIdle =>
    case CHeader(_, _, got) => if s.tail < s.n { HoldsStable(s.mem, s.tail, got, a, b); }
    case CPayload(_, got) => HoldsStable(s.mem, s.tail + HEADER, got, a, b);
  }

  /** Where the producer's next store goes, if it is storing. */
  function NextStore(s: State): int {
    match s.producer
    case PPad(_, _, k) => if k < HEADER then s.head + k else -1
    case PFrame(m, _, wrap, k) => if k < HEADER + |m| then FrameStart(s.head, wrap) + k else -1
    case _ => -1
  }

  /** No write in progress ever touches a byte of an unread frame, nor one outside the buffer. */
  lemma StoresAreSafe(s: State)
    requires Inv(s) && NextStore(s) >= 0
    ensures NextStore(s) < s.n && !Unread(s.n, s.head, s.tail, s.pad, NextStore(s))
  {
    EmptyIff(s.n, s.mem, s.head, s.tail, s.pad, s.pre, s.post);
    if s.producer.PFrame? { assert HEADER + |s.producer.msg| <= Need(|s.producer.msg|); }
  }

  // ------------------------------------------------------------------ steps

  lemma PadStoreStep(s: State)
    requires Inv(s) && s.producer.PPad? && s.producer.done < HEADER
    ensures Inv(ProducerStep(s))
  {
    hide Laid, Le, FromLe, PadHeader, PadAt, Holds, Need, Magic;
    var k := s.producer.done;
    StoresAreSafe(s);
    StoreKeeps(s, s.head + k, PadByte(s, k));
    HoldsExtend(s.mem, s.head, PadHeader(s.n - s.head), k);
  }

  lemma FrameStoreStep(s: State)
    requires Inv(s) && s.producer.PFrame? && s.producer.done < HEADER + |s.producer.msg|
    ensures Inv(ProducerStep(s))
  {
    hide Layout, Laid, Need, Le, FromLe, Holds, PadAt, Magic, Unread, Aligned, Frame, PadHeader;
    var m, wrap, k := s.producer.msg, s.producer.wrap, s.producer.done;
    var at := FrameStart(s.head, wrap);
    StoresAreSafe(s);
    StoreKeeps(s, at + k, Frame(m)[k]);
    HoldsExtend(s.mem, at, Frame(m), k);
    if wrap { PadAtStable(s.mem, s.n, s.head, k, Frame(m)[k]); }
  }

  lemma PublishStep(s: State)
    requires Inv(s) && s.producer.PFrame? && s.producer.done == HEADER + |s.producer.msg|
    ensures Inv(Publish(s, s.producer.msg, s.producer.wrap))
  {
    hide Laid, Le, FromLe, Frame, PadAt, Holds, Unread, Need;
    var m, wrap := s.producer.msg, s.producer.wrap;
    assert Frame(m)[..HEADER + |m|] == Frame(m);
    assert FrameAt(s.mem, FrameStart(s.head, wrap), m);
    if wrap {
      LayoutWrap(s.n, s.mem, s.head, s.tail, s.pad, s.pre, s.post, m);
    } else {
      LayoutAppend(s.n, s.mem, s.head, s.tail, s.pad, s.pre, s.post, m);
    }
    Regroup(s.accepted, s.delivered, s.pre, s.post, m);
  }

  lemma Regroup(accepted: seq<Msg>, delivered: seq<Msg>, pre: seq<Msg>, post: seq<Msg>, m: Msg)
    requires accepted == delivered + pre + post
    ensures accepted + [m] == delivered + pre + (post + [m])
    ensures post == [] ==> accepted + [m] == delivered + (pre + [m]) + [] == delivered + pre + [m]
  {
  }

  lemma ProducerKeepsInv(s: State)
    requires Inv(s)
    ensures Inv(ProducerStep(s))
  {
    match s.producer
    case PIdle =>
    case PReady(_) =>
    case PLoaded(_, _) => LoadedStep(s);
    case PPad(_, _, k) =>
      if k < HEADER { PadStoreStep(s); } else { PadDoneStep(s); }
    case PFrame(m, _, _, k) =>
      if k < HEADER + |m| { FrameStoreStep(s); } else { PublishStep(s); }
  }

  lemma LoadedStep(s: State)
    requires Inv(s) && s.producer.PLoaded?
    ensures Inv(ProducerStep(s))
  {
    hide Laid, Le, FromLe, Frame, PadHeader, Magic, Unread, Need;
    assert Frame(s.producer.msg)[..0] == [] == PadHeader(s.n - s.head)[..0];
  }

  lemma PadDoneStep(s: State)
    requires Inv(s) && s.producer.PPad? && s.producer.done == HEADER
    ensures Inv(ProducerStep(s))
  {
    assert Frame(s.producer.msg)[..0] == [];
    assert PadHeader(s.n - s.head)[..HEADER] == PadHeader(s.n - s.head);
    PadMagic(s.n - s.head);
  }

  /** The header under a consumer that saw a non-empty ring. */
  lemma HeaderMeaning(s: State, h: seq<byte>)
    requires Inv(s) && s.head != s.tail && (s.tail < s.n ==> Holds(s.mem, s.tail, h)) && |h| == HEADER
    ensures s.pre != [] ==> Magic(h) == MAGIC_VALID && Length(h) == |s.pre[0]|
    ensures s.pre == [] ==> s.tail == s.pad > s.head && (s.tail < s.n ==> Magic(h) == MAGIC_PADDING)
  {
    hide Laid, Le, FromLe, Frame, PadAt, Magic, Length, Need;
    EmptyIff(s.n, s.mem, s.head, s.tail, s.pad, s.pre, s.post);
    LaidBounds(s.mem, s.tail, if s.tail <= s.head then s.head else s.pad, s.pre);
    if s.tail < s.n { TailHeader(s.mem, s.n, s.head, s.tail, s.pad, s.pre, s.post); }
  }

  lemma HeaderStep(s: State)
    requires Inv(s) && s.consumer.CHeader? && |s.consumer.got| == HEADER && !ReadsPastEnd(s)
    ensures Inv(ConsumerStep(s)) && !ConsumerStep(s).consumer.CIdle?
  {
    hide Le, FromLe, Frame, PadAt, Magic, Length, Need;
    var got := s.consumer.got;
    assert got[..HEADER] == got;
    HeaderMeaning(s, got);
    EmptyIff(s.n, s.mem, s.head, s.tail, s.pad, s.pre, s.post);
    if s.pre == [] {
      LayoutTurn(s.n, s.mem, s.head, s.tail, s.pad, s.pre, s.post);
      assert s.delivered + s.pre + s.post == s.delivered + s.post + [];
      assert s.pre + s.post == s.post;
    }
  }

  lemma CopyStep(s: State)
    requires Inv(s) && s.consumer.CPayload? && |s.consumer.got| < s.consumer.len
    ensures Inv(ConsumerStep(s))
  {
    hide Need, Le, FromLe, PadAt, Aligned, Frame;
    LayoutConsume(s.n, s.mem, s.head, s.tail, s.pad, s.pre, s.post);
    ReadExtend(s.mem, s.tail + HEADER, s.consumer.got);
  }

  /** A successful tryRead returns exactly the oldest undelivered accepted message. */
  lemma DeliverStep(s: State)
    requires Inv(s) && s.consumer.CPayload? && |s.consumer.got| == s.consumer.len
    ensures Inv(ConsumerStep(s))
    ensures |s.delivered| < |s.accepted|
    ensures ConsumerStep(s).delivered == s.delivered + [s.accepted[|s.delivered|]]
  {
    hide Need, Le, FromLe, PadAt, Aligned, Frame;
    LayoutConsume(s.n, s.mem, s.head, s.tail, s.pad, s.pre, s.post);
    PayloadIs(s.mem, s.tail, s.pre[0], s.consumer.got);
    Deliver(s.delivered, s.pre, s.post);
  }

  lemma PayloadIs(mem: seq<byte>, at: nat, m: Msg, got: seq<byte>)
    requires FrameAt(mem, at, m) && |got| == |m| && Holds(mem, at + HEADER, got)
    ensures got == m
  {
    assert got == mem[at..at + HEADER + |m|][HEADER..] == Frame(m)[HEADER..] == m;
  }

  lemma Deliver(delivered: seq<Msg>, pre: seq<Msg>, post: seq<Msg>)
    requires pre != []
    ensures delivered + pre + post == (delivered + [pre[0]]) + pre[1..] + post
  {
  }

  lemma ConsumerKeepsInv(s: State)
    requires Inv(s) && !ReadsPastEnd(s)
    ensures Inv(ConsumerStep(s))
  {
    match s.consumer
    case CIdle => EmptyIff(s.n, s.mem, s.head, s.tail, s.pad, s.pre, s.post);
    case CHeader(_, _, got) =>
      if |got| == HEADER { HeaderStep(s); } else if s.tail < s.n { ReadExtend(s.mem, s.tail, got); }
    case CPayload(len, got) =>
      if |got| < len { CopyStep(s); } else { DeliverStep(s); }
  }

  lemma ReadExtend(mem: seq<byte>, at: nat, got: seq<byte>)
    requires Holds(mem, at, got) && at + |got| < |mem|
    ensures Holds(mem, at, got + [mem[at + |got|]])
  {
  }

  ghost predicate SameInside(mem: seq<byte>, mem': seq<byte>, n: nat) {
    |mem| == |mem'| && n <= |mem| && forall a :: 0 <= a < n ==> mem'[a] == mem[a]
  }

  /** What lies behind the buffer is no part of the queue. */
  lemma NeighbourKeepsInv(s: State, bytes: seq<byte>)
    requires Inv(s)
    ensures Inv(Overwrite(s, bytes))
  {
    hide Layout, ProducerOk, ConsumerOk;
    if |bytes| == BEYOND {
      var mem' := s.mem[..s.n] + bytes;
      LayoutStable(s.n, s.mem, mem', s.head, s.tail, s.pad, s.pre, s.post);
      ProducerInside(s, mem');
      ConsumerInside(s, mem');
    }
  }

  lemma ProducerInside(s: State, mem': seq<byte>)
    requires Inv(s) && SameInside(s.mem, mem', s.n)
    ensures ProducerOk(s.n, mem', s.head, s.tail, s.producer)
  {
    hide Layout, ConsumerOk, Holds, PadAt, Frame, PadHeader, SameInside;
    match s.producer
    case PPad(_, _, k) => HoldsInside(s.mem, mem', s.n, s.head, PadHeader(s.n - s.head)[..k]);
    case PFrame(m, _, wrap, k) =>
      FrameInside(s);
      HoldsInside(s.mem, mem', s.n, FrameStart(s.head, wrap), Frame(m)[..k]);
      if wrap { PadInsideStable(s.mem, mem', s.n, s.head); }
    case _ =>
  }

  lemma ConsumerInside(s: State, mem': seq<byte>)
    requires Inv(s) && SameInside(s.mem, mem', s.n)
    ensures ConsumerOk(s.n, mem', s.head, s.tail, s.pre, s.consumer)
  {
    hide Layout, ProducerOk, Holds, SameInside, Need;
    match s.consumer
    case CIdle =>
    case CHeader(_, _, got) => if s.tail < s.n { TailInside(s); HoldsInside(s.mem, mem', s.n, s.tail, got); }
    case CPayload(len, got) =>
      FrontPayload(s.n, s.mem, s.head, s.tail, s.pad, s.pre, s.post);
      HoldsInside(s.mem, mem', s.n, s.tail + HEADER, got);
  }

  lemma HoldsInside(mem: seq<byte>, mem': seq<byte>, n: nat, at: nat, bytes: seq<byte>)
    requires SameInside(mem, mem', n) && Holds(mem, at, bytes) && at + |bytes| <= n
    ensures Holds(mem', at, bytes)
  {
    assert mem'[at..at + |bytes|] == mem[at..at + |bytes|];
  }

  lemma PadInsideStable(mem: seq<byte>, mem': seq<byte>, n: nat, at: nat)
    requires SameInside(mem, mem', n) && PadAt(mem, n, at)
    ensures PadAt(mem', n, at)
  {
    if at < n { assert mem'[at..at + HEADER] == mem[at..at + HEADER]; }
  }

  /** A frame being stored lies inside the buffer. */
  lemma FrameInside(s: State)
    requires Inv(s) && s.producer.PFrame?
    ensures FrameStart(s.head, s.producer.wrap) + HEADER + |s.producer.msg| <= s.n
  {
    hide Layout, ConsumerOk, Holds, PadAt, Frame;
  }

  lemma TailInside(s: State)
    requires Inv(s) && s.tail < s.n
    ensures s.tail + HEADER <= s.n
  {
    hide Laid, ProducerOk, ConsumerOk, PadAt;
  }
}
