/** A wrap of the large-data channel while a reader sits between tryRead and releaseBlock. */
module LargeWrap {
  import opened Bytes
  import opened LargeBlock
  import opened LargeChannel
  import opened LargeRuns
  import opened LargeProofs

  /** A position at which some published block starts, or at which the next one would. */
  ghost predicate Boundary(s: Sys, pos: nat) {
    exists k :: 0 <= k <= |s.log| && StartOf(s.log, s.c.writePos, k) == pos
  }

  // ------------------------------------------------------------------ the held header after the wrap

  /** The part of a block stored at 0 that falls on the magic of a header at `h`. */
  function Overlap(data: seq<byte>, h: nat): (o: seq<byte>)
    requires h >= HEADER
    ensures |o| <= 4
  {
    if Total(data) <= h then []
    else if Total(data) < h + 4 then data[h - HEADER..]
    else data[h - HEADER..h - HEADER + 4]
  }

  /** A block with this payload, stored at 0, leaves a magic at `h`. */
  predicate SparesMagic(data: seq<byte>, h: nat) {
    h == 0 || (h >= HEADER && Overlap(data, h) <= Le(MAGIC, 4))
  }

  lemma MagicBytes(mem: seq<byte>, at: nat)
    requires at + HEADER <= |mem|
    ensures MagicAt(mem, at) == MAGIC <==> mem[at..at + 4] == Le(MAGIC, 4)
  {
    hide FromLe, Le, Radix;
    RadixValues();
    LeRoundTrip(MAGIC, 4);
    if MagicAt(mem, at) == MAGIC { FromLeInjective(mem[at..at + 4], Le(MAGIC, 4)); }
  }

  /** A write at 0 leaves a handle on the header at `h` valid exactly when it spares the magic. */
  lemma MagicAfterWrite(mem: seq<byte>, sequence: nat, topic: seq<byte>, data: seq<byte>, h: nat)
    requires Honoured(mem, h) && Total(data) <= |mem| && (h == 0 || h >= HEADER)
    ensures Honoured(Stored(mem, 0, sequence, topic, data), h) <==> SparesMagic(data, h)
  {
    hide Le, FromLe, MagicAt, Stored, HeaderBytes, Kept;
    var r := Stored(mem, 0, sequence, topic, data);
    if h == 0 {
      DecodeBlock(r, 0, sequence, topic, data);
    } else {
      MagicBytes(mem, h);
      MagicBytes(r, h);
      var o, m := Overlap(data, h), Le(MAGIC, 4);
      assert r[HEADER..HEADER + |data|] == data;
      assert forall j :: 0 <= j < |o| ==> r[h + j] == r[HEADER..HEADER + |data|][h - HEADER + j] == o[j];
      assert forall j :: |o| <= j < 4 ==> r[h + j] == mem[h + j] == mem[h..h + 4][j] == m[j];
      assert r[h..h + 4] == o + m[|o|..];
      assert o <= m <==> o + m[|o|..] == m;
    }
  }

  // ------------------------------------------------------------------ the release after the wrap

  /**
   * Why a wrap between tryRead and releaseBlock is excluded. The wrap moves the cursor to the new
   * block at offset 0, and the release checks the magic where the old block was. If the new block
   * spares it, the release adds the size of the old block: the cursor is past the new block, and
   * on a block boundary exactly when the two have equal size. If not, the release is ignored, and
   * the reader goes on with the new block.
   */
  lemma ReleaseAfterWrap(s: Sys, a: Action, i: nat, limit: nat, s': Sys)
    requires Inv(s) && a.AWrite? && i < MAX_READERS && s.cur[i].held
    requires Accepts(s.c, |a.data|, s.writerMax, a.last, a.now, a.alive)
    requires WrapsFor(Cleanup(s.c, a.last, a.now, a.alive), |a.data|) && Cleanup(s.c, a.last, a.now, a.alive).slots[i].active
    requires s' == Step(Step(s, a), ARelease(i, s.cur[i].at, s.cur[i].size))
    ensures Fit(s') && |s'.log| == |s.log| + 1 && (s.cur[i].at == 0 || s.cur[i].at >= HEADER)
    ensures SparesMagic(a.data, s.cur[i].at) ==> s'.c.slots[i].readPos == s'.log[|s.log|].start + HEADER + s.cur[i].size
    ensures !SparesMagic(a.data, s.cur[i].at) ==>
      && s'.c.slots[i].readPos == s'.log[|s.log|].start
      && Delivers(s'.log[|s.log|], |s.log|, limit, ReadOutcome(s'.c, i, limit))
    ensures Boundary(s', s'.c.slots[i].readPos) <==> !SparesMagic(a.data, s.cur[i].at) || s.cur[i].size == |a.data|
  {
    hide Intact, LogOk, ReaderOk, Step, Boundary, Cleanup, WrapsFor, HasRoom, SparesMagic, Honoured, ReadOutcome, Delivers;
    var k, s1 := s.cur[i], Step(s, a);
    var start := BlockStart(Cleanup(s.c, a.last, a.now, a.alive), |a.data|);
    WrapMoves(s, a, i);
    HeldBeforeWrap(s, a, i);
    ReleaseMoves(s1, i, k.at, k.size);
    assert s'.log == s.log + [Published(start, a.topic, a.data)];
    if Honoured(s1.c.mem, k.at) {
      forall j | 0 <= j < |s.log|
        ensures s'.log[j].start <= start
      {
        StartsBefore(s, j);
      }
      BoundaryAtEnd(s', start + HEADER + k.size);
    } else {
      BoundaryAt(s', |s.log|);
      NewBlockReads(s, a, i, limit);
      assert s' == s1 by { IgnoredRelease(s1, i, k.at, k.size); }
    }
  }

  /** The held block before a wrapping write, and whether its handle stays valid. */
  lemma HeldBeforeWrap(s: Sys, a: Action, i: nat)
    requires Inv(s) && a.AWrite? && i < MAX_READERS && s.cur[i].held
    requires Accepts(s.c, |a.data|, s.writerMax, a.last, a.now, a.alive)
    requires var c1 := Cleanup(s.c, a.last, a.now, a.alive); WrapsFor(c1, |a.data|) && c1.slots[i].active
    ensures s.cur[i].at == 0 || s.cur[i].at >= HEADER
    ensures Honoured(Step(s, a).c.mem, s.cur[i].at) <==> SparesMagic(a.data, s.cur[i].at)
  {
    hide Intact, LogOk, Stale, StaleCount, MinReadPos, Stored, Honoured, SparesMagic, BlockAt, BlockStart;
    RetiredWereActive(s, a.last, a.now, a.alive);
    HeldIsIntact(s, i);
    assert ReaderOk(s.c.cap, s.c.writePos, s.log, s.lap, s.c.slots[i], s.cur[i]);
    BlockOf(s, s.cur[i].next);
    MagicAfterWrite(s.c.mem, s.c.sequence, a.topic, a.data, s.cur[i].at);
  }

  lemma BlockOf(s: Sys, k: nat)
    requires Inv(s) && k < |s.log|
    ensures BlockOk(s.c.cap, s.c.writePos, s.log, s.lap, s.writerMax, k)
  {
  }

  lemma StartsBefore(s: Sys, k: nat)
    requires Inv(s) && k < |s.log|
    ensures s.log[k].start <= s.c.writePos
  {
    hide Inv;
    BlockOf(s, k);
  }

  lemma ReleaseMoves(s: Sys, i: nat, at: nat, size: nat)
    requires Fit(s) && i < MAX_READERS
    ensures var s' := Step(s, ARelease(i, at, size));
      && Fit(s') && s'.log == s.log && s'.c.writePos == s.c.writePos
      && s'.c.slots[i].readPos == s.c.slots[i].readPos + (if Honoured(s.c.mem, at) then HEADER + size else 0)
  {
    hide Honoured;
  }

  lemma IgnoredRelease(s: Sys, i: nat, at: nat, size: nat)
    requires Fit(s) && i < MAX_READERS && !Honoured(s.c.mem, at)
    ensures Step(s, ARelease(i, at, size)) == s
  {
    hide Honoured;
  }

  /** What a wrapping write does to an active reader, whether it holds a block or not. */
  lemma WrapMoves(s: Sys, a: Action, i: nat)
    requires Inv(s) && a.AWrite? && i < MAX_READERS
    requires Accepts(s.c, |a.data|, s.writerMax, a.last, a.now, a.alive)
    requires var c1 := Cleanup(s.c, a.last, a.now, a.alive); WrapsFor(c1, |a.data|) && c1.slots[i].active
    ensures var s', start := Step(s, a), BlockStart(Cleanup(s.c, a.last, a.now, a.alive), |a.data|);
      && Fit(s') && s'.log == s.log + [Published(start, a.topic, a.data)] && s.c.writePos < start
      && s'.c.writePos == start + Total(a.data) && s'.c.slots[i].readPos == start && s'.c.slots[i].active
  {
    hide Intact, LogOk, BlockStart, WrapsFor, Stored, Offset, Stale, StaleCount, MinReadPos;
    var c1 := Cleanup(s.c, a.last, a.now, a.alive);
    CleanupKeepsInv(s, a.last, a.now, a.alive);
    PlaceOfBlock(c1, |a.data|);
    assert ReaderOk(c1.cap, c1.writePos, s.log, s.lap, c1.slots[i], s.cur[i]);
  }

  /** After a wrapping write a read by an active reader is about the new block. */
  lemma NewBlockReads(s: Sys, a: Action, i: nat, limit: nat)
    requires Inv(s) && a.AWrite? && i < MAX_READERS
    requires Accepts(s.c, |a.data|, s.writerMax, a.last, a.now, a.alive)
    requires var c1 := Cleanup(s.c, a.last, a.now, a.alive); WrapsFor(c1, |a.data|) && c1.slots[i].active
    ensures var s' := Step(s, a);
      Fit(s') && |s'.log| == |s.log| + 1 && Delivers(s'.log[|s.log|], |s.log|, limit, ReadOutcome(s'.c, i, limit))
  {
    hide Intact, LogOk, ReaderOk, Inspect, Delivers, BlockAt, Stale, StaleCount, MinReadPos, Stored;
    var c1, s' := Cleanup(s.c, a.last, a.now, a.alive), Step(s, a);
    WrapMoves(s, a, i);
    PlaceOfBlock(c1, |a.data|);
    CatchUpNeverFires(s'.c, i);
    InspectBlock(s'.c.mem, 0, Total(a.data), limit, |s.log|, s'.log[|s.log|]);
  }

  lemma BoundaryAt(s: Sys, k: nat)
    requires k < |s.log|
    ensures Boundary(s, s.log[k].start)
  {
    assert StartOf(s.log, s.c.writePos, k) == s.log[k].start;
  }

  /** Past the start of the last block only its end is a boundary. */
  lemma BoundaryAtEnd(s: Sys, pos: nat)
    requires s.log != [] && (forall k :: 0 <= k < |s.log| ==> s.log[k].start <= s.log[|s.log| - 1].start < pos)
    ensures Boundary(s, pos) <==> pos == s.c.writePos
  {
    assert StartOf(s.log, s.c.writePos, |s.log|) == s.c.writePos;
  }
}
