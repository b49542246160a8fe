/** tryWrite and tryRead as sequential code over the ring's own buffer. */
module LockFreeRingBuffer {
  import opened Bytes
  import opened RingLayout

  lemma PadSurvives(mem: seq<byte>, mem': seq<byte>, n: nat, at: nat, upTo: nat)
    requires PadAt(mem, n, at) && |mem| == |mem'| && upTo <= at
    requires forall i :: upTo <= i < |mem| ==> mem'[i] == mem[i]
    ensures PadAt(mem', n, at)
  {
    if at < n { assert mem'[at..at + HEADER] == mem[at..at + HEADER]; }
  }

  class RingBuffer {
    const n: nat
    const buffer: array<byte>
    var head: nat
    var tail: nat
    var written: nat
    var read: nat
    var dropped: nat
    ghost var pad: nat
    ghost var pre: seq<Msg>
    ghost var post: seq<Msg>

    ghost predicate Valid()
      reads this, buffer
    {
      buffer.Length == n && Layout(n, buffer[..], head, tail, pad, pre, post)
    }

    /** The unread messages, oldest first. */
    ghost function Contents(): seq<Msg>
      reads this
    {
      pre + post
    }

    constructor (size: nat)
      requires Aligned(size)
      ensures Valid() && Contents() == [] && n == size && fresh(buffer)
      ensures head == tail == written == read == dropped == 0
    {
      n, buffer := size, new byte[size](_ => 0);
      head, tail, written, read, dropped := 0, 0, 0, 0, 0;
      pad, pre, post := 0, [], [];
    }

    /** A frame with `size` bytes of payload can go to `p`. */
    ghost predicate HasRoom(p: nat, size: nat)
      reads this
    {
      RoomAt(n, head, tail, pad, p, Need(size))
    }

    /**
     * Appends `data` to the contents, or leaves everything but the drop counter alone. It is
     * accepted exactly when it has 1 to 2040 bytes and its frame can go to the head or to 0; it
     * goes to the head whenever it can.
     */
    method TryWrite(data: seq<byte>) returns (ok: bool)
      requires Valid()
      modifies this, buffer
      ensures Valid() && tail == old(tail) && read == old(read)
      ensures ok <==> 1 <= |data| <= 2040 && (old(HasRoom(head, |data|)) || old(HasRoom(0, |data|)))
      ensures Contents() == if ok then old(Contents()) + [data] else old(Contents())
      ensures ok ==> head == (if old(HasRoom(head, |data|)) then old(head) else 0) + Need(|data|)
      ensures !ok ==> head == old(head) && buffer[..] == old(buffer[..])
      ensures written == old(written) + (if ok then 1 else 0)
      ensures dropped == old(dropped) + (if 1 <= |data| <= 2040 && !ok then 1 else 0)
    {
      hide Layout, RoomAt, Need;
      if |data| > MAX_MSG || |data| == 0 {
        return false;
      }
      EmptyIff(n, buffer[..], head, tail, pad, pre, post);
      DecideIsRoom(n, buffer[..], head, tail, pad, pre, post, Need(|data|));
      var needed := (HEADER + |data| + 7) / 8 * 8;
      assert needed == Need(|data|) by { NeedIs(|data|); }
      if head >= tail {
        if head + needed <= n {
          AppendFrame(data);
          return true;
        }
        if needed < tail {
          WrapFrame(data);
          return true;
        }
      } else if head + needed < tail {
        AppendFrame(data);
        return true;
      }
      dropped := dropped + 1;
      return false;
    }

    method AppendFrame(data: seq<byte>)
      requires Valid() && Legal(data) && tail <= n
      requires if tail <= head then head + Need(|data|) <= n else head + Need(|data|) < tail
      modifies this`head, this`written, this`pre, this`post, buffer
      ensures Valid() && Contents() == old(Contents()) + [data]
      ensures head == old(head) + Need(|data|) && written == old(written) + 1
    {
      hide Laid, Frame, PadAt, Le, Put;
      ghost var before := buffer[..];
      CopyInto(buffer, head, Frame(data));
      LayoutStable(n, before, buffer[..], head, tail, pad, pre, post);
      LayoutAppend(n, buffer[..], head, tail, pad, pre, post, data);
      if tail <= head { pre := pre + [data]; } else { post := post + [data]; }
      head := head + Need(|data|);
      written := written + 1;
    }

    method WrapFrame(data: seq<byte>)
      requires Valid() && Legal(data) && Need(|data|) < tail <= head
      modifies this`head, this`written, this`pad, this`post, buffer
      ensures Valid() && Contents() == old(Contents()) + [data]
      ensures head == Need(|data|) && written == old(written) + 1
    {
      hide Laid, Le, FromLe, Frame, PadHeader, Magic, Put, PadAt;
      ghost var before := buffer[..];
      WritePadding();
      ghost var padded := buffer[..];
      CopyInto(buffer, 0, Frame(data));
      PadSurvives(padded, buffer[..], n, head, HEADER + |data|);
      LayoutStable(n, before, buffer[..], head, tail, pad, pre, post);
      LayoutWrap(n, buffer[..], head, tail, pad, pre, post, data);
      pad, post := head, [data];
      head := Need(|data|);
      written := written + 1;
    }

    /** Marks the unused end of the buffer, if a header fits there. */
    method WritePadding()
      requires Valid()
      modifies buffer
      ensures PadAt(buffer[..], n, head)
      ensures forall i :: 0 <= i < head ==> buffer[i] == old(buffer[i])
    {
      hide Laid, Le, FromLe, PadHeader, Put;
      var padLen := n - head;
      if padLen >= HEADER {
        CopyInto(buffer, head, PadHeader(padLen));
        PadMagic(padLen);
      }
    }

    /** The tail stands on the end of the buffer with messages unread. */
    predicate AtEnd()
      reads this
    {
      tail == n && tail != head
    }

    /**
     * Takes the oldest message, or reports that there is none. With the tail on the end of the
     * buffer and messages unread, the header comes from the bytes `behind` the buffer: padding
     * there leads on to the oldest message, an acceptable header makes the call return foreign
     * bytes and the tail leave the buffer, and anything else makes it fail and change nothing.
     */
    method TryRead(behind: seq<byte>) returns (ok: bool, data: seq<byte>)
      requires Valid() && |behind| == BEYOND
      modifies this
      ensures head == old(head) && written == old(written) && dropped == old(dropped)
      ensures read == old(read) + (if ok then 1 else 0) && (!ok ==> data == [])
      ensures !old(AtEnd()) || Magic(behind[..HEADER]) == MAGIC_PADDING ==>
        && Valid() && (ok <==> old(Contents()) != [])
        && old(Contents()) == (if ok then [data] + Contents() else Contents())
      ensures old(AtEnd()) && Magic(behind[..HEADER]) != MAGIC_PADDING && !Acceptable(behind[..HEADER]) ==>
        !ok && Valid() && tail == old(tail) && Contents() == old(Contents()) != []
      ensures old(AtEnd()) && Acceptable(behind[..HEADER]) ==>
        var len := Length(behind[..HEADER]);
        ok && data == behind[HEADER..HEADER + len] && tail == n + Need(len) && !Valid()
    {
      hide Layout, Magic, Length, Need;
      data := [];
      EmptyIff(n, buffer[..], head, tail, pad, pre, post);
      if tail == head {
        return false, data;
      }
      var header := LoadHeader(behind);
      if Magic(header) == MAGIC_PADDING {
        header := TurnBack();
      }
      if Magic(header) != MAGIC_VALID || Length(header) > MAX_MSG {
        return false, data;
      }
      if tail < n {
        data := TakeFront(Length(header));
      } else {
        data := behind[HEADER..HEADER + Length(header)];
        tail := tail + Need(Length(header));
        read := read + 1;
        OutsideIsInvalid();
      }
      ok := true;
    }

    /** The eight bytes at the tail of a ring with messages unread. */
    method LoadHeader(behind: seq<byte>) returns (header: seq<byte>)
      requires Valid() && tail != head && |behind| == BEYOND
      ensures |header| == HEADER && tail <= n
      ensures tail == n ==> header == behind[..HEADER]
      ensures tail < n && pre != [] ==> Magic(header) == MAGIC_VALID && Length(header) == |pre[0]| <= MAX_MSG
      ensures tail < n && pre == [] ==> Magic(header) == MAGIC_PADDING
      ensures tail == n || pre == [] ==> pre == [] && head < tail
    {
      hide Laid, Le, FromLe, Frame, PadAt, Magic, Length, Need;
      EmptyIff(n, buffer[..], head, tail, pad, pre, post);
      if tail < n {
        TailHeader(buffer[..], n, head, tail, pad, pre, post);
        header := buffer[tail..tail + HEADER];
      } else {
        LaidBounds(buffer[..], tail, pad, pre);
        header := behind[..HEADER];
      }
    }

    /** Consumes the padding and loads the header at 0. */
    method TurnBack() returns (header: seq<byte>)
      requires Valid() && pre == [] && head < tail
      modifies this`tail, this`pre, this`post
      ensures Valid() && Contents() == old(Contents()) && pre != [] && tail == 0 < n
      ensures |header| == HEADER && Magic(header) == MAGIC_VALID && Length(header) == |pre[0]| <= MAX_MSG
    {
      hide Laid, Le, FromLe, Frame, PadAt, Magic, Length, Need;
      EmptyIff(n, buffer[..], head, tail, pad, pre, post);
      LayoutTurn(n, buffer[..], head, tail, pad, pre, post);
      tail := 0;
      pre, post := post, [];
      assert old(Contents()) == pre == pre + post;
      EmptyIff(n, buffer[..], head, tail, pad, pre, post);
      TailHeader(buffer[..], n, head, tail, pad, pre, post);
      header := buffer[tail..tail + HEADER];
    }

    lemma OutsideIsInvalid()
      requires tail > n
      ensures !Valid()
    {
    }

    method TakeFront(len: nat) returns (data: seq<byte>)
      requires Valid() && pre != [] && len == |pre[0]|
      modifies this`tail, this`read, this`pre
      ensures Valid() && old(Contents()) == [data] + Contents() && read == old(read) + 1
    {
      hide Layout, Need;
      LayoutConsume(n, buffer[..], head, tail, pad, pre, post);
      FrontPayload(n, buffer[..], head, tail, pad, pre, post);
      data := buffer[tail + HEADER..tail + HEADER + len];
      assert old(Contents()) == [pre[0]] + (pre[1..] + post);
      tail := tail + Need(len);
      pre := pre[1..];
      read := read + 1;
    }

    /** Number of bytes between tail and head, going round the end. */
    method Size() returns (used: int)
      requires Valid()
      ensures used == Used(n, head, tail) && 0 <= used <= n
      ensures used == 0 <==> Contents() == []
      ensures used == FrameBytes(pre) + FrameBytes(post) + (if tail <= head then 0 else n - pad)
    {
      UsedIsFrames(n, buffer[..], head, tail, pad, pre, post);
      EmptyIff(n, buffer[..], head, tail, pad, pre, post);
      if head >= tail { used := head - tail; } else { used := n - (tail - head); }
    }
  }
}
