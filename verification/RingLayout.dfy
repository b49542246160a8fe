/** Where the frames of the byte ring of include/nexus/transport/LockFreeQueue.h lie in memory. */
module RingLayout {
  import opened Bytes

  const HEADER: nat := 8
  const MAX_MSG: nat := 2040
  const MAGIC_VALID: nat := 0xCAFEBABE
  const MAGIC_PADDING: nat := 0xDEADBEEF
  /** Bytes of neighbouring memory that a header and payload read at the very end can reach. */
  const BEYOND: nat := 2048

  type Msg = seq<byte>

  predicate Legal(m: Msg) { 1 <= |m| <= MAX_MSG }

  /** Header plus payload, rounded up to a multiple of 8. */
  function Need(size: nat): (r: nat)
    ensures HEADER + size <= r < HEADER + size + 8 && Aligned(r)
  {
    (HEADER + size + 7) / 8 * 8
  }

  predicate Aligned(x: nat) { x % 8 == 0 }

  lemma NeedIs(size: nat)
    ensures Need(size) == (HEADER + size + 7) / 8 * 8
  {
  }

  lemma AlignedSum(x: nat, y: nat)
    requires Aligned(x) && Aligned(y)
    ensures Aligned(x + y)
  {
  }

  function Frame(m: Msg): (f: seq<byte>)
    ensures |f| == HEADER + |m|
  {
    Le(|m|, 4) + Le(MAGIC_VALID, 4) + m
  }

  function PadHeader(len: nat): (h: seq<byte>)
    ensures |h| == HEADER
  {
    Le(len, 4) + Le(MAGIC_PADDING, 4)
  }

  function Length(h: seq<byte>): nat requires |h| == HEADER { FromLe(h[..4]) }

  function Magic(h: seq<byte>): nat requires |h| == HEADER { FromLe(h[4..]) }

  /** A header that tryRead takes for that of a message. */
  predicate Acceptable(h: seq<byte>) requires |h| == HEADER { Magic(h) == MAGIC_VALID && Length(h) <= MAX_MSG }

  lemma FrameHeader(m: Msg)
    requires Legal(m)
    ensures Length(Frame(m)[..HEADER]) == |m| && Magic(Frame(m)[..HEADER]) == MAGIC_VALID
  {
    var h := Frame(m)[..HEADER];
    assert h[..4] == Le(|m|, 4) && h[4..] == Le(MAGIC_VALID, 4);
    assert Radix(4) == 0x1_0000_0000 by { RadixValues(); }
    LeRoundTrip(|m|, 4);
    LeRoundTrip(MAGIC_VALID, 4);
  }

  lemma PadMagic(len: nat)
    ensures Magic(PadHeader(len)) == MAGIC_PADDING
  {
    assert PadHeader(len)[4..] == Le(MAGIC_PADDING, 4);
    RadixValues();
    LeRoundTrip(MAGIC_PADDING, 4);
  }

  // ------------------------------------------------------------------ placement of one write

  datatype Plan = Refuse | Append | Wrap

  /** The space test of tryWrite, on the indices the producer holds. */
  function Decide(n: nat, head: nat, tail: nat, need: nat): Plan {
    if head >= tail then
      if head + need <= n then Append else if need < tail then Wrap else Refuse
    else if head + need < tail then Append
    else Refuse
  }

  /** size() on a given pair of indices. */
  function Used(n: nat, head: nat, tail: nat): int {
    if head >= tail then head - tail else n - (tail - head)
  }

  // ------------------------------------------------------------------ frames in memory

  ghost predicate Holds(mem: seq<byte>, at: nat, bytes: seq<byte>) {
    at + |bytes| <= |mem| && mem[at..at + |bytes|] == bytes
  }

  ghost predicate FrameAt(mem: seq<byte>, at: nat, m: Msg) {
    Legal(m) && Holds(mem, at, Frame(m))
  }

  /** The messages `q` lie one after the other from `from` to `to`, with no gap. */
  ghost predicate Laid(mem: seq<byte>, from: nat, to: nat, q: seq<Msg>)
    decreases |q|
  {
    if q == [] then from == to
    else
      && FrameAt(mem, from, q[0])
      && from + Need(|q[0]|) <= to
      && Laid(mem, from + Need(|q[0]|), to, q[1..])
  }

  /** A reader that reaches `at` turns back to 0: a padding header, or the end of the buffer. */
  ghost predicate PadAt(mem: seq<byte>, n: nat, at: nat) {
    at == n || (at + HEADER <= n <= |mem| && Magic(mem[at..at + HEADER]) == MAGIC_PADDING)
  }

  /** The unread messages: `pre` from the tail on and, once wrapped, `post` from 0 to the head. */
  ghost predicate Layout(n: nat, mem: seq<byte>, head: nat, tail: nat, pad: nat, pre: seq<Msg>, post: seq<Msg>) {
    && Aligned(n) && Aligned(head) && Aligned(tail) && Aligned(pad)
    && head <= n <= |mem|
    && if tail <= head then
         Laid(mem, tail, head, pre) && post == []
       else
         && tail <= pad <= n
         && Laid(mem, tail, pad, pre) && PadAt(mem, n, pad)
         && Laid(mem, 0, head, post) && post != []
  }

  /** Address `a` belongs to a frame not yet read, or to the padding header that leads to one. */
  predicate Unread(n: nat, head: nat, tail: nat, pad: nat, a: nat) {
    if tail <= head then tail <= a < head
    else tail <= a < pad + HEADER || a < head
  }

  lemma {:induction false} LaidBounds(mem: seq<byte>, from: nat, to: nat, q: seq<Msg>)
    requires Laid(mem, from, to, q)
    ensures from + 16 * |q| <= to
    ensures q == [] <==> from == to
    ensures Aligned(from) ==> Aligned(to)
    decreases |q|
  {
    if q != [] {
      if Aligned(from) { AlignedSum(from, Need(|q[0]|)); }
      LaidBounds(mem, from + Need(|q[0]|), to, q[1..]);
    }
  }

  lemma {:induction false} LaidStable(mem: seq<byte>, mem': seq<byte>, from: nat, to: nat, q: seq<Msg>)
    requires Laid(mem, from, to, q) && |mem| == |mem'| && to <= |mem|
    requires forall a :: from <= a < to ==> mem[a] == mem'[a]
    ensures Laid(mem', from, to, q)
    decreases |q|
  {
    if q != [] {
      var next := from + Need(|q[0]|);
      LaidStable(mem, mem', next, to, q[1..]);
      assert mem'[from..from + HEADER + |q[0]|] == mem[from..from + HEADER + |q[0]|];
    }
  }

  lemma {:induction false} LaidAppend(mem: seq<byte>, from: nat, to: nat, q: seq<Msg>, m: Msg)
    requires Laid(mem, from, to, q) && FrameAt(mem, to, m)
    ensures Laid(mem, from, to + Need(|m|), q + [m])
    decreases |q|
  {
    if q == [] {
      assert Laid(mem, to + Need(|m|), to + Need(|m|), []);
    } else {
      LaidAppend(mem, from + Need(|q[0]|), to, q[1..], m);
      assert (q + [m])[1..] == q[1..] + [m];
    }
  }

  /** Stores outside the unread area leave every unread message in place. */
  lemma LayoutStable(n: nat, mem: seq<byte>, mem': seq<byte>, head: nat, tail: nat, pad: nat, pre: seq<Msg>, post: seq<Msg>)
    requires Layout(n, mem, head, tail, pad, pre, post) && |mem| == |mem'|
    requires forall a :: 0 <= a < n && Unread(n, head, tail, pad, a) ==> mem[a] == mem'[a]
    ensures Layout(n, mem', head, tail, pad, pre, post)
  {
    if tail <= head {
      LaidStable(mem, mem', tail, head, pre);
    } else {
      LaidStable(mem, mem', tail, pad, pre);
      LaidStable(mem, mem', 0, head, post);
      if pad < n { assert mem[pad..pad + HEADER] == mem'[pad..pad + HEADER]; }
    }
  }

  /** A frame completed at the head and published there. */
  lemma LayoutAppend(n: nat, mem: seq<byte>, head: nat, tail: nat, pad: nat, pre: seq<Msg>, post: seq<Msg>, m: Msg)
    requires Layout(n, mem, head, tail, pad, pre, post) && FrameAt(mem, head, m)
    requires if tail <= head then head + Need(|m|) <= n else head + Need(|m|) < tail
    ensures tail <= head ==> Layout(n, mem, head + Need(|m|), tail, pad, pre + [m], post)
    ensures head < tail ==> Layout(n, mem, head + Need(|m|), tail, pad, pre, post + [m])
  {
    AlignedSum(head, Need(|m|));
    if tail <= head { LaidAppend(mem, tail, head, pre, m); } else { LaidAppend(mem, 0, head, post, m); }
  }

  /** A frame completed at 0 behind the padding header and published there. */
  lemma LayoutWrap(n: nat, mem: seq<byte>, head: nat, tail: nat, pad: nat, pre: seq<Msg>, post: seq<Msg>, m: Msg)
    requires Layout(n, mem, head, tail, pad, pre, post) && FrameAt(mem, 0, m)
    requires Need(|m|) < tail <= head && PadAt(mem, n, head)
    ensures Layout(n, mem, Need(|m|), tail, head, pre, [m])
  {
    LaidAppend(mem, 0, 0, [], m);
    assert [] + [m] == [m];
  }

  lemma FrontPayload(n: nat, mem: seq<byte>, head: nat, tail: nat, pad: nat, pre: seq<Msg>, post: seq<Msg>)
    requires Layout(n, mem, head, tail, pad, pre, post) && pre != []
    ensures var at := tail + HEADER; at + |pre[0]| <= n && mem[at..at + |pre[0]|] == pre[0]
  {
    hide PadAt, Le, FromLe;
    LaidBounds(mem, tail + Need(|pre[0]|), if tail <= head then head else pad, pre[1..]);
    var m := pre[0];
    assert mem[tail + HEADER..tail + HEADER + |m|] == mem[tail..tail + HEADER + |m|][HEADER..] == Frame(m)[HEADER..] == m;
  }

  /** The oldest message taken out. */
  lemma LayoutConsume(n: nat, mem: seq<byte>, head: nat, tail: nat, pad: nat, pre: seq<Msg>, post: seq<Msg>)
    requires Layout(n, mem, head, tail, pad, pre, post) && pre != []
    ensures Layout(n, mem, head, tail + Need(|pre[0]|), pad, pre[1..], post)
    ensures tail + Need(|pre[0]|) <= n
  {
    AlignedSum(tail, Need(|pre[0]|));
    LaidBounds(mem, tail + Need(|pre[0]|), if tail <= head then head else pad, pre[1..]);
  }

  /** The reader turns back to 0 at the padding. */
  lemma LayoutTurn(n: nat, mem: seq<byte>, head: nat, tail: nat, pad: nat, pre: seq<Msg>, post: seq<Msg>)
    requires Layout(n, mem, head, tail, pad, pre, post) && pre == [] && head < tail
    ensures Layout(n, mem, head, 0, pad, post, [])
  {
  }

  /** The header at the tail of a non-empty ring. */
  lemma TailHeader(mem: seq<byte>, n: nat, head: nat, tail: nat, pad: nat, pre: seq<Msg>, post: seq<Msg>)
    requires Layout(n, mem, head, tail, pad, pre, post) && head != tail && tail < n
    ensures tail + HEADER <= |mem|
    ensures pre != [] ==> Magic(mem[tail..tail + HEADER]) == MAGIC_VALID
    ensures pre != [] ==> Length(mem[tail..tail + HEADER]) == |pre[0]| <= MAX_MSG
    ensures pre == [] ==> head < tail && Magic(mem[tail..tail + HEADER]) == MAGIC_PADDING && post != []
  {
    if pre != [] {
      FrameHeader(pre[0]);
      assert mem[tail..tail + HEADER] == mem[tail..tail + HEADER + |pre[0]|][..HEADER] == Frame(pre[0])[..HEADER];
    } else {
      LaidBounds(mem, tail, if tail <= head then head else pad, pre);
    }
  }

  /** Indices agree exactly when nothing is unread. */
  lemma EmptyIff(n: nat, mem: seq<byte>, head: nat, tail: nat, pad: nat, pre: seq<Msg>, post: seq<Msg>)
    requires Layout(n, mem, head, tail, pad, pre, post)
    ensures head == tail <==> pre + post == []
    ensures head != tail ==> head > 0
    ensures tail <= n && 16 * |pre + post| <= n
  {
    if tail <= head {
      LaidBounds(mem, tail, head, pre);
    } else {
      LaidBounds(mem, tail, pad, pre);
      LaidBounds(mem, 0, head, post);
    }
  }

  // ------------------------------------------------------------------ capacity

  /**
   * A frame of `need` bytes can go to `p`: it lies in the buffer, covers no byte that is unread,
   * and its end does not come up to the tail from below, where head and tail would say the wrong
   * thing about what is unread.
   */
  ghost predicate RoomAt(n: nat, head: nat, tail: nat, pad: nat, p: nat, need: nat) {
    && p + need <= n && !(p < tail <= p + need)
    && forall a :: p <= a < p + need ==> !Unread(n, head, tail, pad, a)
  }

  /** The space test takes the head whenever the frame can go there, else 0 if it can go there, and else refuses. */
  lemma DecideIsRoom(n: nat, mem: seq<byte>, head: nat, tail: nat, pad: nat, pre: seq<Msg>, post: seq<Msg>, need: nat)
    requires Layout(n, mem, head, tail, pad, pre, post) && need > 0
    ensures Decide(n, head, tail, need).Append? <==> RoomAt(n, head, tail, pad, head, need)
    ensures Decide(n, head, tail, need).Wrap? <==>
      !RoomAt(n, head, tail, pad, head, need) && RoomAt(n, head, tail, pad, 0, need)
    ensures Decide(n, head, tail, need).Refuse? <==>
      !RoomAt(n, head, tail, pad, head, need) && !RoomAt(n, head, tail, pad, 0, need)
  {
    hide Laid, PadAt;
    EmptyIff(n, mem, head, tail, pad, pre, post);
    var d := Decide(n, head, tail, need);
    if head < tail {
      if head + need > tail && head + need <= n { assert Unread(n, head, tail, pad, tail); }
      assert Unread(n, head, tail, pad, 0);
    } else if tail < head && tail < need <= n {
      assert Unread(n, head, tail, pad, tail);
    }
  }

  /** A refused legal write met a ring more than `n - 2 * need` full. */
  lemma RefusalMeansNearlyFull(n: nat, head: nat, tail: nat, size: nat)
    requires head <= n && tail <= n && 1 <= size <= MAX_MSG
    ensures Decide(n, head, tail, Need(size)).Refuse? ==> Used(n, head, tail) > n - 2 * Need(size)
    ensures n >= 4096 && head == tail ==> !Decide(n, head, tail, Need(size)).Refuse?
  {
  }

  /** The bytes that frames take up. */
  function FrameBytes(q: seq<Msg>): nat
    decreases |q|
  {
    if q == [] then 0 else Need(|q[0]|) + FrameBytes(q[1..])
  }

  lemma {:induction false} LaidBytes(mem: seq<byte>, from: nat, to: nat, q: seq<Msg>)
    requires Laid(mem, from, to, q)
    ensures to - from == FrameBytes(q)
    decreases |q|
  {
    if q != [] { LaidBytes(mem, from + Need(|q[0]|), to, q[1..]); }
  }

  /** size() is what the unread frames take up, and the unused end of the buffer while the ring is wrapped. */
  lemma UsedIsFrames(n: nat, mem: seq<byte>, head: nat, tail: nat, pad: nat, pre: seq<Msg>, post: seq<Msg>)
    requires Layout(n, mem, head, tail, pad, pre, post)
    ensures Used(n, head, tail) == FrameBytes(pre) + FrameBytes(post) + (if tail <= head then 0 else n - pad)
  {
    if tail <= head {
      LaidBytes(mem, tail, head, pre);
    } else {
      LaidBytes(mem, tail, pad, pre);
      LaidBytes(mem, 0, head, post);
    }
  }
}
