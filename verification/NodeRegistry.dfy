/** The slot table of src/registry/SharedMemoryRegistry.cpp, under its lock, as a finite map. */
module NodeRegistry {
  import opened Options
  import opened Bytes

  const CAPACITY: nat := 256
  const FIELD: nat := 64

  /** A slot: flag bits valid (1) and active (2), owner process, heartbeat, and two 64-byte text fields. */
  datatype Entry = Entry(flags: nat, pid: int, heartbeat: nat, id: seq<byte>, shm: seq<byte>)

  const FREE: Entry := Entry(0, 0, 0, Zeros(FIELD), Zeros(FIELD))

  datatype Info = Info(shm: Text, pid: int, heartbeat: nat)

  // ------------------------------------------------------------------ text fields

  /** writeAtomicString. */
  function StoreText(s: Text): (f: seq<byte>)
    ensures |f| == FIELD
  {
    CField(s, FIELD)
  }

  /** readAtomicString: the last byte is taken as NUL whatever it holds. */
  function LoadText(f: seq<byte>): (s: Text)
    requires |f| == FIELD
    ensures |s| < FIELD && 0 !in s
  {
    UntilNul(f[..FIELD - 1])
  }

  /** An id survives its field exactly when it has no NUL and fewer than 64 bytes. */
  lemma TextRoundTrip(s: Text)
    ensures LoadText(StoreText(s)) == Kept(s, FIELD)
    ensures LoadText(StoreText(s)) == s <==> (0 !in s && |s| < FIELD)
  {
    hide UntilNul, Kept, Zeros;
    var k := Kept(s, FIELD);
    assert StoreText(s)[..FIELD - 1] == k + Zeros(FIELD - 1 - |k|);
    UntilNulOfPadded(k, FIELD - 1 - |k|);
  }

  // ------------------------------------------------------------------ table and map

  predicate Occupied(e: Entry) { e.flags % 2 == 1 }

  predicate Formed(e: Entry) { |e.id| == FIELD && |e.shm| == FIELD && (e.flags == 0 || e.flags == 3) }

  function IdOf(e: Entry): Text requires Formed(e) { LoadText(e.id) }

  function InfoOf(e: Entry): Info requires Formed(e) { Info(LoadText(e.shm), e.pid, e.heartbeat) }

  function Slots(es: seq<Entry>): set<nat> { set i | 0 <= i < |es| && Occupied(es[i]) }

  ghost predicate RowOk(e: Entry, m: map<Text, Info>) {
    Formed(e) && (Occupied(e) ==> IdOf(e) in m && m[IdOf(e)] == InfoOf(e))
  }

  ghost predicate Rows(es: seq<Entry>, m: map<Text, Info>) { forall i :: 0 <= i < |es| ==> RowOk(es[i], m) }

  ghost predicate HolderAt(es: seq<Entry>, k: Text, i: nat) {
    i < |es| && Formed(es[i]) && Occupied(es[i]) && IdOf(es[i]) == k
  }

  ghost predicate Holder(es: seq<Entry>, k: Text) { exists i :: HolderAt(es, k, i) }

  ghost predicate Keyed(es: seq<Entry>, m: map<Text, Info>) { forall k :: k in m ==> Holder(es, k) }

  ghost predicate Clash(a: Entry, b: Entry) {
    Formed(a) && Formed(b) && Occupied(a) && Occupied(b) && IdOf(a) == IdOf(b)
  }

  ghost predicate Distinct(es: seq<Entry>) {
    forall i, j :: 0 <= i < |es| && 0 <= j < |es| && i != j ==> !Clash(es[i], es[j])
  }

  /** The occupied slots hold exactly the pairs of `m`, each once. */
  ghost predicate Table(es: seq<Entry>, m: map<Text, Info>) {
    Rows(es, m) && Keyed(es, m) && Distinct(es) && |Slots(es)| == |m|
  }

  /** Keys other than `id` keep their holders when the slot that may hold `id` changes. */
  lemma HoldersKept(es: seq<Entry>, m: map<Text, Info>, m': map<Text, Info>, i: nat, e: Entry, id: Text)
    requires Keyed(es, m) && i < |es| && m'.Keys <= m.Keys + {id}
    requires Formed(es[i]) && (Occupied(es[i]) ==> IdOf(es[i]) == id)
    requires id in m' ==> Formed(e) && Occupied(e) && IdOf(e) == id
    ensures Keyed(es[i := e], m')
  {
    hide LoadText, Formed, Occupied;
    var es' := es[i := e];
    forall k | k in m'
      ensures Holder(es', k)
    {
      if k == id {
        assert HolderAt(es', k, i);
      } else {
        assert Holder(es, k);
        var j: nat :| HolderAt(es, k, j);
        assert HolderAt(es', k, j);
      }
    }
  }

  lemma SlotsAdd(es: seq<Entry>, i: nat, e: Entry)
    requires i < |es| && !Occupied(es[i]) && Occupied(e)
    ensures |Slots(es[i := e])| == |Slots(es)| + 1
  {
    assert Slots(es[i := e]) == Slots(es) + {i};
  }

  lemma Insert(es: seq<Entry>, m: map<Text, Info>, i: nat, e: Entry)
    requires Table(es, m) && i < |es| && !Occupied(es[i]) && Formed(e) && Occupied(e) && IdOf(e) !in m
    ensures Table(es[i := e], m[IdOf(e) := InfoOf(e)])
  {
    hide LoadText, InfoOf, Keyed, Slots;
    var es', m' := es[i := e], m[IdOf(e) := InfoOf(e)];
    assert RowOk(es[i], m);
    HoldersKept(es, m, m', i, e, IdOf(e));
    SlotsAdd(es, i, e);
    forall j | 0 <= j < |es|
      ensures RowOk(es'[j], m') && (j != i ==> !Clash(es'[j], e))
    {
      assert RowOk(es[j], m);
    }
  }

  predicate WellFormed(id: Text, shm: Text) { 1 <= |id| < FIELD && 1 <= |shm| < FIELD }

  /** A call that stores an id with a NUL, so cut at the NUL, although the part before the NUL is registered. */
  predicate Breaks(id: Text, shm: Text, m: map<Text, Info>) {
    0 in id && WellFormed(id, shm) && Kept(id, FIELD) in m && |m| < CAPACITY
  }

  /**
   * A second slot for an id that is already there leaves no map that the table could stand for.
   * This is what registering an id with a NUL does when the part before the NUL is registered.
   */
  lemma SecondSlotBreaks(es: seq<Entry>, m: map<Text, Info>, i: nat, e: Entry, m': map<Text, Info>)
    requires Table(es, m) && i < |es| && !Occupied(es[i]) && Formed(e) && Occupied(e) && IdOf(e) in m
    ensures !Table(es[i := e], m')
  {
    hide LoadText, InfoOf, Slots, Rows;
    var es' := es[i := e];
    assert Holder(es, IdOf(e));
    var j: nat :| HolderAt(es, IdOf(e), j);
    assert es'[j] == es[j] && es'[i] == e && Clash(es'[i], es'[j]) && Clash(es'[j], es'[i]);
  }

  lemma Replace(es: seq<Entry>, m: map<Text, Info>, i: nat, e: Entry)
    requires Table(es, m) && i < |es| && Occupied(es[i]) && Formed(e) && Occupied(e) && IdOf(e) == LoadText(es[i].id)
    ensures Table(es[i := e], m[IdOf(e) := InfoOf(e)])
  {
    hide LoadText, InfoOf, Keyed;
    var es', m' := es[i := e], m[IdOf(e) := InfoOf(e)];
    assert RowOk(es[i], m);
    HoldersKept(es, m, m', i, e, IdOf(e));
    assert Slots(es') == Slots(es);
    assert m'.Keys == m.Keys;
    forall j | 0 <= j < |es|
      ensures RowOk(es'[j], m') && (j != i ==> !Clash(es'[j], e))
    {
      assert RowOk(es[j], m) && (j != i ==> !Clash(es[j], es[i]));
    }
  }

  lemma Remove(es: seq<Entry>, m: map<Text, Info>, i: nat, e: Entry, id: Text)
    requires Table(es, m) && HolderAt(es, id, i) && Formed(e) && !Occupied(e)
    ensures id in m && Table(es[i := e], m - {id})
  {
    hide LoadText, InfoOf, Keyed;
    var es', m' := es[i := e], m - {id};
    assert RowOk(es[i], m);
    HoldersKept(es, m, m', i, e, id);
    assert Slots(es') == Slots(es) - {i};
    assert m'.Keys == m.Keys - {id} && |m'.Keys| == |m.Keys| - 1;
    forall j | 0 <= j < |es|
      ensures RowOk(es'[j], m') && (j != i ==> !Clash(es'[j], e))
    {
      assert RowOk(es[j], m) && (j != i ==> !Clash(es[j], es[i]));
    }
  }

  /** As many slots are occupied as there are slots exactly when all of them are. */
  lemma SlotsFull(es: seq<Entry>)
    ensures |Slots(es)| <= |es|
    ensures |Slots(es)| == |es| <==> forall i :: 0 <= i < |es| ==> Occupied(es[i])
  {
    var all, used := Indices(|es|), Slots(es);
    assert all == used + (all - used);
    if |used| == |es| {
      assert all - used == {};
      forall i | 0 <= i < |es|
        ensures Occupied(es[i])
      {
        assert i in all && i in used;
      }
    } else {
      assert all - used != {};
    }
  }

  function Indices(n: nat): (r: set<nat>)
    ensures |r| == n && forall i :: i in r <==> 0 <= i < n
  {
    if n == 0 then {} else Indices(n - 1) + {n - 1}
  }

  lemma NotHeld(es: seq<Entry>, id: Text)
    requires forall j :: 0 <= j < |es| ==> !HolderAt(es, id, j)
    ensures !Holder(es, id)
  {
  }

  // ------------------------------------------------------------------ staleness

  /** Timed out by this process's clock, or its process is gone; an entry still being filled in is neither. */
  predicate Stale(n: Info, now: nat, timeout: nat, alive: set<int>) {
    n.heartbeat != 0 && ((now >= n.heartbeat && now - n.heartbeat > timeout) || n.pid <= 0 || n.pid !in alive)
  }

  lemma StaleMeans(n: Info, now: nat, timeout: nat, alive: set<int>)
    ensures Stale(n, now, timeout, alive) <==>
      n.heartbeat != 0 && (n.heartbeat + timeout < now || n.pid <= 0 || n.pid !in alive)
  {
  }

  datatype Node = Node(id: Text, info: Info)

  // ------------------------------------------------------------------ the registry

  class Registry {
    const entries: array<Entry>
    var numEntries: nat
    ghost var contents: map<Text, Info>

    ghost predicate Valid()
      reads this, entries
    {
      entries.Length == CAPACITY && Table(entries[..], contents) && numEntries == |contents|
    }

    constructor ()
      ensures Valid() && contents == map[] && fresh(entries)
    {
      entries := new Entry[CAPACITY](_ => FREE);
      numEntries, contents := 0, map[];
      new;
      assert Slots(entries[..]) == {};
    }

    /** The slot of `id`, or -1 when it is not registered. */
    method FindEntryIndex(id: Text) returns (idx: int)
      requires Valid()
      ensures idx == -1 <==> id !in contents
      ensures idx != -1 ==> 0 <= idx < CAPACITY && HolderAt(entries[..], id, idx)
    {
      hide LoadText, Slots, InfoOf, Distinct;
      for i := 0 to CAPACITY
        invariant forall j :: 0 <= j < i ==> !HolderAt(entries[..], id, j)
      {
        assert RowOk(entries[..][i], contents);
        if Occupied(entries[i]) && IdOf(entries[i]) == id {
          return i;
        }
      }
      NotHeld(entries[..], id);
      idx := -1;
    }

    /** The first slot with flags 0, or -1. */
    method ClaimFree() returns (idx: int)
      requires Valid()
      ensures |contents| <= CAPACITY && (idx == -1 <==> |contents| == CAPACITY)
      ensures idx != -1 ==> 0 <= idx < CAPACITY && !Occupied(entries[idx])
    {
      hide Distinct, Keyed, InfoOf, IdOf;
      SlotsFull(entries[..]);
      for i := 0 to CAPACITY
        invariant forall j :: 0 <= j < i ==> Occupied(entries[..][j])
      {
        assert RowOk(entries[..][i], contents);
        if entries[i].flags == 0 {
          assert !Occupied(entries[..][i]);
          return i;
        }
      }
      idx := -1;
    }

    /** One store of a slot with everything else left alone. */
    method SetEntry(i: nat, e: Entry)
      requires i < entries.Length
      modifies entries
      ensures entries[..] == old(entries[..])[i := e]
    {
      entries[i] := e;
    }

    /**
     * Registers or refreshes a node. A well-formed call fails only when the id is new and all 256
     * slots are taken. Otherwise exactly this node's pair is set, under the id as its field keeps
     * it, unless the call breaks the table: then no map fits it any more.
     */
    method RegisterNode(id: Text, shm: Text, pid: int, now: nat) returns (ok: bool)
      requires Valid()
      modifies this, entries
      ensures ok <==> 1 <= |id| < 64 && 1 <= |shm| < 64 && (id in old(contents) || |old(contents)| < 256)
      ensures !ok ==> Valid() && contents == old(contents)
      ensures ok && !Breaks(id, shm, old(contents)) ==>
        Valid() && contents == old(contents)[Kept(id, FIELD) := Info(Kept(shm, FIELD), pid, now)]
      ensures Breaks(id, shm, old(contents)) ==> forall m :: !Table(entries[..], m)
    {
      hide Table, Kept, Slots, HolderAt, Occupied;
      if id == [] || shm == [] || |id| >= FIELD || |shm| >= FIELD {
        return false;
      }
      var at := FindEntryIndex(id);
      if at >= 0 {
        FillEntry(at, id, shm, pid, now);
        return true;
      }
      at := ClaimFree();
      if at < 0 {
        return false;
      }
      FillEntry(at, id, shm, pid, now);
      numEntries := numEntries + 1;
      ok := true;
    }

    /** Stores all fields of a slot that is free, or that already holds the id. */
    method FillEntry(at: nat, id: Text, shm: Text, pid: int, now: nat)
      requires Valid() && at < CAPACITY && |id| < FIELD
      requires if id in contents then HolderAt(entries[..], id, at) else !Occupied(entries[at])
      modifies this`contents, entries
      ensures id in old(contents) ==> 0 !in id
      ensures var key := Kept(id, FIELD);
        && (id in old(contents) || key !in old(contents) ==>
              && Table(entries[..], contents) && contents == old(contents)[key := Info(Kept(shm, FIELD), pid, now)]
              && |contents| == |old(contents)| + (if id in old(contents) then 0 else 1))
        && (id !in old(contents) && key in old(contents) ==> forall m :: !Table(entries[..], m))
    {
      hide Table, Kept, LoadText, StoreText;
      var e := Entry(3, pid, now, StoreText(id), StoreText(shm));
      TextRoundTrip(id);
      TextRoundTrip(shm);
      ghost var es, key := entries[..], IdOf(e);
      SetEntry(at, e);
      if id in contents { Replace(es, contents, at, e); }
      else if key !in contents { Insert(es, contents, at, e); }
      else { forall m ensures !Table(entries[..], m) { SecondSlotBreaks(es, contents, at, e, m); } }
      KeySize(contents, key, InfoOf(e));
      contents := contents[key := InfoOf(e)];
    }

    /** Removes exactly the named node. */
    method UnregisterNode(id: Text) returns (ok: bool)
      requires Valid()
      modifies this, entries
      ensures Valid()
      ensures ok <==> id in old(contents)
      ensures contents == old(contents) - {id}
    {
      hide Table;
      var at := FindEntryIndex(id);
      if at < 0 {
        assert contents - {id} == contents;
        return false;
      }
      RemoveAt(at, id);
      ok := true;
    }

    method RemoveAt(at: nat, id: Text)
      requires Valid() && HolderAt(entries[..], id, at)
      modifies this, entries
      ensures Valid() && id in old(contents) && contents == old(contents) - {id}
      ensures entries[..] == old(entries[..])[at := FREE] && |contents| == |old(contents)| - 1
    {
      hide Table;
      Remove(entries[..], contents, at, FREE, id);
      assert (contents - {id}).Keys == contents.Keys - {id};
      numEntries := numEntries - 1;
      SetEntry(at, FREE);
      contents := contents - {id};
    }

    method UpdateHeartbeat(id: Text, now: nat) returns (ok: bool)
      requires Valid()
      modifies this`contents, entries
      ensures Valid()
      ensures ok <==> id in old(contents)
      ensures contents == if ok then old(contents)[id := old(contents)[id].(heartbeat := now)] else old(contents)
    {
      hide Keyed, Distinct, LoadText, Slots;
      var at := FindEntryIndex(id);
      if at < 0 {
        return false;
      }
      assert RowOk(entries[..][at], contents);
      var e := entries[at].(heartbeat := now);
      Replace(entries[..], contents, at, e);
      SetEntry(at, e);
      KeySize(contents, id, InfoOf(e));
      contents := contents[id := InfoOf(e)];
      ok := true;
    }

    method FindNode(id: Text) returns (r: Option<Info>)
      requires Valid()
      ensures r == if id in contents then Some(contents[id]) else None
    {
      hide Keyed, Distinct, LoadText, Slots;
      var at := FindEntryIndex(id);
      if at < 0 {
        return None;
      }
      assert RowOk(entries[..][at], contents);
      r := Some(InfoOf(entries[at]));
    }

    /** Every registered node, each once. */
    method GetAllNodes() returns (nodes: seq<Node>)
      requires Valid()
      ensures forall n :: n in nodes ==> n.id in contents && n.info == contents[n.id]
      ensures forall k :: k in contents ==> Node(k, contents[k]) in nodes
      ensures forall i, j :: 0 <= i < j < |nodes| ==> nodes[i].id != nodes[j].id
    {
      hide LoadText, Slots, Keyed, InfoOf;
      nodes := [];
      for i := 0 to CAPACITY
        invariant forall n :: n in nodes ==> exists j :: 0 <= j < i && HolderAt(entries[..], n.id, j) && n.info == InfoOf(entries[j])
        invariant forall k, j :: 0 <= j < i && HolderAt(entries[..], k, j) ==> Node(k, InfoOf(entries[j])) in nodes
        invariant forall a, b :: 0 <= a < b < |nodes| ==> nodes[a].id != nodes[b].id
      {
        assert RowOk(entries[..][i], contents);
        if Occupied(entries[i]) {
          var n := Node(IdOf(entries[i]), InfoOf(entries[i]));
          forall a | 0 <= a < |nodes|
            ensures nodes[a].id != n.id
          {
            assert nodes[a] in nodes;
            var j :| 0 <= j < i && HolderAt(entries[..], nodes[a].id, j);
            assert !Clash(entries[..][j], entries[..][i]);
          }
          nodes := nodes + [n];
        }
      }
      Listed(entries[..], contents, nodes);
    }

    /**
     * Removes exactly the nodes with a heartbeat other than 0 that lies more than the timeout
     * behind now or whose process is not alive, and returns their number. So an entry that is
     * still being filled in stays, and so does a live one within the timeout or ahead of the clock.
     */
    method CleanupStaleNodes(now: nat, timeout: nat, alive: set<int>) returns (cleaned: nat)
      requires Valid()
      modifies this, entries
      ensures Valid()
      ensures forall k :: k in contents <==>
        k in old(contents) && var n := old(contents)[k];
        n.heartbeat == 0 || (now <= n.heartbeat + timeout && n.pid > 0 && n.pid in alive)
      ensures forall k :: k in contents ==> contents[k] == old(contents)[k]
      ensures cleaned == |old(contents)| - |contents|
    {
      hide LoadText, Slots, Table;
      ghost var m0 := contents;
      cleaned := 0;
      for i := 0 to CAPACITY
        invariant Valid() && cleaned == |m0| - |contents|
        invariant forall k :: k in contents ==> k in m0 && contents[k] == m0[k]
        invariant forall k :: k in m0 && !Stale(m0[k], now, timeout, alive) ==> k in contents
        invariant forall j :: 0 <= j < i ==> FreshRow(entries[..][j], now, timeout, alive)
      {
        ghost var es := entries[..];
        RowOf(es, contents, i);
        if Occupied(entries[i]) && Stale(InfoOf(entries[i]), now, timeout, alive) {
          RemoveAt(i, IdOf(entries[i]));
          cleaned := cleaned + 1;
        }
        assert forall j :: 0 <= j < i ==> entries[..][j] == es[j];
      }
      AllFresh(entries[..], contents, now, timeout, alive);
      forall k | k in m0
        ensures Stale(m0[k], now, timeout, alive) <==>
          m0[k].heartbeat != 0 && (m0[k].heartbeat + timeout < now || m0[k].pid <= 0 || m0[k].pid !in alive)
      {
        StaleMeans(m0[k], now, timeout, alive);
      }
    }
  }

  ghost predicate FreshRow(e: Entry, now: nat, timeout: nat, alive: set<int>) {
    Formed(e) && (Occupied(e) ==> !Stale(InfoOf(e), now, timeout, alive))
  }

  lemma RowOf(es: seq<Entry>, m: map<Text, Info>, i: nat)
    requires Table(es, m) && i < |es|
    ensures RowOk(es[i], m)
    ensures Occupied(es[i]) ==> HolderAt(es, IdOf(es[i]), i)
  {
  }

  lemma KeySize(m: map<Text, Info>, k: Text, n: Info)
    ensures |m[k := n]| == if k in m then |m| else |m| + 1
  {
    assert m[k := n].Keys == m.Keys + {k};
  }

  lemma AllFresh(es: seq<Entry>, m: map<Text, Info>, now: nat, timeout: nat, alive: set<int>)
    requires Table(es, m) && forall j :: 0 <= j < |es| ==> FreshRow(es[j], now, timeout, alive)
    ensures forall k :: k in m ==> !Stale(m[k], now, timeout, alive)
  {
    hide Slots, LoadText, Stale, Distinct;
    forall k | k in m
      ensures !Stale(m[k], now, timeout, alive)
    {
      assert Holder(es, k);
      var j: nat :| HolderAt(es, k, j);
      assert RowOk(es[j], m) && FreshRow(es[j], now, timeout, alive);
    }
  }

  lemma Listed(es: seq<Entry>, m: map<Text, Info>, nodes: seq<Node>)
    requires Table(es, m)
    requires forall n :: n in nodes ==> exists j :: 0 <= j < |es| && HolderAt(es, n.id, j) && n.info == InfoOf(es[j])
    requires forall k, j :: 0 <= j < |es| && HolderAt(es, k, j) ==> Node(k, InfoOf(es[j])) in nodes
    ensures forall n :: n in nodes ==> n.id in m && n.info == m[n.id]
    ensures forall k :: k in m ==> Node(k, m[k]) in nodes
  {
    hide Slots, LoadText, Distinct;
    forall n | n in nodes
      ensures n.id in m && n.info == m[n.id]
    {
      var j :| 0 <= j < |es| && HolderAt(es, n.id, j) && n.info == InfoOf(es[j]);
      assert RowOk(es[j], m);
    }
    forall k | k in m
      ensures Node(k, m[k]) in nodes
    {
      assert Holder(es, k);
      var j: nat :| HolderAt(es, k, j);
      assert RowOk(es[j], m);
    }
  }
}
