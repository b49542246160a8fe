/**
 * One producer and one consumer of the byte ring, interleaved at the level of single byte copies
 * and single index loads and stores. A run is driven by an arbitrary schedule of actions.
 */
module RingMachine {
  import opened Bytes
  import opened RingLayout

  /** Progress of tryWrite. `snap` is the tail the producer loaded; it may be stale. */
  datatype Producer =
    | PIdle
    | PReady(msg: Msg)
    | PLoaded(msg: Msg, snap: nat)
    | PPad(msg: Msg, snap: nat, done: nat)
    | PFrame(msg: Msg, snap: nat, wrap: bool, done: nat)

  /** Progress of tryRead. `seen` is the head the consumer loaded; it may be stale. */
  datatype Consumer =
    | CIdle
    | CHeader(seen: nat, again: bool, got: seq<byte>)
    | CPayload(len: nat, got: seq<byte>)

  /**
   * Shared memory, both program counters and, as history variables that no step tests, the
   * messages accepted and delivered so far and the place of the unread ones. `mem` holds the
   * buffer followed by BEYOND bytes of whatever lies behind it, which other code may change.
   */
  datatype State = State(
    n: nat, mem: seq<byte>, head: nat, tail: nat,
    producer: Producer, consumer: Consumer,
    written: nat, read: nat, dropped: nat, corrupt: nat,
    accepted: seq<Msg>, delivered: seq<Msg>, pad: nat, pre: seq<Msg>, post: seq<Msg>)

  datatype Action = Write(msg: Msg) | Produce | Consume | Neighbour(bytes: seq<byte>)

  function Init(n: nat, mem: seq<byte>): State {
    State(n, mem, 0, 0, PIdle, CIdle, 0, 0, 0, 0, [], [], 0, [], [])
  }

  // ------------------------------------------------------------------ steps

  /** A call of tryWrite; a message of illegal size is refused without a trace. */
  function Begin(s: State, m: Msg): State {
    if s.producer.PIdle? && Legal(m) then s.(producer := PReady(m)) else s
  }

  function Store(s: State, at: nat, b: byte): State {
    if at < |s.mem| then s.(mem := s.mem[at := b]) else s
  }

  function FrameStart(head: nat, wrap: bool): nat { if wrap then 0 else head }

  /** The head store that publishes a completed frame. */
  function Publish(s: State, m: Msg, wrap: bool): State {
    var s' := s.(head := FrameStart(s.head, wrap) + Need(|m|), producer := PIdle,
                 written := s.written + 1, accepted := s.accepted + [m]);
    if wrap then s'.(pad := s.head, post := [m])
    else if s.head < s.tail then s'.(post := s.post + [m])
    else s'.(pre := s.pre + [m])
  }

  function ProducerStep(s: State): State {
    match s.producer
    case PIdle => s
    case PReady(m) => s.(producer := PLoaded(m, s.tail))
    case PLoaded(m, snap) => (
      match Decide(s.n, s.head, snap, Need(|m|))
      case Refuse => s.(producer := PIdle, dropped := s.dropped + 1)
      case Append => s.(producer := PFrame(m, snap, false, 0))
      case Wrap => s.(producer := if s.head + HEADER <= s.n then PPad(m, snap, 0) else PFrame(m, snap, true, 0)))
    case PPad(m, snap, k) =>
      if k < HEADER then Store(s, s.head + k, PadByte(s, k)).(producer := PPad(m, snap, k + 1))
      else s.(producer := PFrame(m, snap, true, 0))
    case PFrame(m, snap, wrap, k) =>
      if k < HEADER + |m| then
        Store(s, FrameStart(s.head, wrap) + k, Frame(m)[k]).(producer := PFrame(m, snap, wrap, k + 1))
      else Publish(s, m, wrap)
  }

  function PadByte(s: State, k: nat): byte
    requires k < HEADER
  {
    PadHeader(if s.head <= s.n then s.n - s.head else 0)[k]
  }

  function ConsumerStep(s: State): State {
    match s.consumer
    case CIdle => if s.tail == s.head then s else s.(consumer := CHeader(s.head, false, []))
    case CHeader(seen, again, got) =>
      if |got| < HEADER then
        if s.tail + |got| < |s.mem| then s.(consumer := CHeader(seen, again, got + [s.mem[s.tail + |got|]])) else s
      else Interpret(s, seen, again, got[..HEADER])
    case CPayload(len, got) =>
      if |got| < len then
        if s.tail + HEADER + |got| < |s.mem| then s.(consumer := CPayload(len, got + [s.mem[s.tail + HEADER + |got|]])) else s
      else
        s.(tail := s.tail + Need(len), consumer := CIdle, read := s.read + 1,
           delivered := s.delivered + [got], pre := if s.pre == [] then [] else s.pre[1..])
  }

  /** What tryRead does with the eight header bytes it copied. */
  function Interpret(s: State, seen: nat, again: bool, h: seq<byte>): State
    requires |h| == HEADER
  {
    if Magic(h) == MAGIC_PADDING && !again then
      s.(tail := 0, pre := s.pre + s.post, post := [],
         consumer := if seen == 0 then CIdle else CHeader(seen, true, []),
         corrupt := if seen == 0 then s.corrupt + 1 else s.corrupt)
    else if Magic(h) != MAGIC_VALID || Length(h) > MAX_MSG then
      s.(consumer := CIdle, corrupt := s.corrupt + 1)
    else s.(consumer := CPayload(Length(h), []))
  }

  /** Other code stores what it likes behind the buffer. */
  function Overwrite(s: State, bytes: seq<byte>): State {
    if |bytes| == BEYOND && s.n + BEYOND == |s.mem| then s.(mem := s.mem[..s.n] + bytes) else s
  }

  function Step(s: State, a: Action): State {
    match a
    case Write(m) => Begin(s, m)
    case Produce => ProducerStep(s)
    case Consume => ConsumerStep(s)
    case Neighbour(bytes) => Overwrite(s, bytes)
  }

  function Run(s: State, schedule: seq<Action>): State {
    if schedule == [] then s
    else Step(Run(s, schedule[..|schedule| - 1]), schedule[|schedule| - 1])
  }

  // ------------------------------------------------------------------ invariant

  /** A stale tail is still safe: the consumer only ever moved forward from it. */
  predicate SnapOk(n: nat, head: nat, tail: nat, snap: nat) {
    snap <= n &&
    if snap <= head then snap <= tail <= head
    else tail <= head || snap <= tail
  }

  predicate Fits(n: nat, head: nat, tail: nat, m: Msg, snap: nat, wrap: bool) {
    Legal(m) && SnapOk(n, head, tail, snap) && Decide(n, head, snap, Need(|m|)) == (if wrap then Wrap else Append)
  }

  ghost predicate ProducerOk(n: nat, mem: seq<byte>, head: nat, tail: nat, p: Producer) {
    match p
    case PIdle => true
    case PReady(m) => Legal(m)
    case PLoaded(m, snap) => Legal(m) && SnapOk(n, head, tail, snap)
    case PPad(m, snap, k) =>
      && Fits(n, head, tail, m, snap, true) && head + HEADER <= n && k <= HEADER
      && Holds(mem, head, PadHeader(n - head)[..k])
    case PFrame(m, snap, wrap, k) =>
      && Fits(n, head, tail, m, snap, wrap) && k <= HEADER + |m|
      && (wrap ==> PadAt(mem, n, head))
      && Holds(mem, FrameStart(head, wrap), Frame(m)[..k])
  }

  ghost predicate ConsumerOk(n: nat, mem: seq<byte>, head: nat, tail: nat, pre: seq<Msg>, c: Consumer) {
    match c
    case CIdle => true
    case CHeader(seen, again, got) =>
      && head != tail && seen != 0 && |got| <= HEADER
      && (again ==> pre != [])
      && (tail < n ==> Holds(mem, tail, got))
    case CPayload(len, got) =>
      && pre != [] && len == |pre[0]| && |got| <= len
      && Holds(mem, tail + HEADER, got)
  }

  ghost predicate Inv(s: State) {
    && |s.mem| == s.n + BEYOND
    && s.head <= s.n && s.tail <= s.n
    && Layout(s.n, s.mem, s.head, s.tail, s.pad, s.pre, s.post)
    && s.accepted == s.delivered + s.pre + s.post
    && s.written == |s.accepted| && s.read == |s.delivered| && s.corrupt == 0
    && ProducerOk(s.n, s.mem, s.head, s.tail, s.producer)
    && ConsumerOk(s.n, s.mem, s.head, s.tail, s.pre, s.consumer)
  }

  /** The consumer is about to interpret a header it copied from behind the buffer. */
  predicate ReadsPastEnd(s: State) {
    && s.consumer.CHeader? && |s.consumer.got| >= HEADER
    && s.tail == s.n && Magic(s.consumer.got[..HEADER]) != MAGIC_PADDING
  }
}
