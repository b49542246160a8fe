/** The service map of src/registry/GlobalRegistry.cpp: what registrations and removals leave in it. */
module ServiceRegistry {
  import opened Bytes
  import opened Subsequence

  const NORMAL_MESSAGE: byte := 1
  const LARGE_DATA: byte := 2

  const SHARED_MEMORY: byte := 1
  const UDP: byte := 2

  const SLASH: byte := 47

  /** `kind` and `transport` hold whatever byte arrived; only the codes above have a meaning. */
  datatype Service = Service(
    node: Text, group: Text, topic: Text, kind: byte, channel: Text, transport: byte, address: Text)

  function Capability(s: Service): Text {
    if s.kind == LARGE_DATA then s.group + [SLASH] + s.channel + [SLASH] + s.topic
    else s.group + [SLASH] + s.topic
  }

  predicate SameKey(a: Service, b: Service) { a.node == b.node && Capability(a) == Capability(b) }

  type Services = map<Text, seq<Service>>

  function Group(m: Services, g: Text): seq<Service> { if g in m then m[g] else [] }

  // ------------------------------------------------------------------ operations

  function FirstMatch(vec: seq<Service>, svc: Service): (i: nat)
    ensures i <= |vec| && (i < |vec| ==> SameKey(vec[i], svc))
    ensures forall j :: 0 <= j < i ==> !SameKey(vec[j], svc)
  {
    if vec == [] || SameKey(vec[0], svc) then 0 else 1 + FirstMatch(vec[1..], svc)
  }

  /** A group after a registration. */
  function Enrolled(vec: seq<Service>, svc: Service): seq<Service> {
    var i := FirstMatch(vec, svc);
    if i == |vec| then vec + [svc]
    else if vec[i].transport != SHARED_MEMORY && svc.transport == SHARED_MEMORY then vec[i := svc]
    else vec
  }

  function Registered(m: Services, g: Text, svc: Service): Services { m[g := Enrolled(Group(m, g), svc)] }

  function OtherTopic(svc: Service): Service -> bool {
    (s: Service) => !(s.node == svc.node && s.topic == svc.topic)
  }

  function OtherNode(node: Text): Service -> bool { (s: Service) => s.node != node }

  function Unregistered(m: Services, g: Text, svc: Service): Services {
    if g !in m then m
    else
      var rest := Filter(m[g], OtherTopic(svc));
      if rest == [] then m - {g} else m[g := rest]
  }

  function NodeDropped(m: Services, node: Text): Services {
    map g | g in m && Filter(m[g], OtherNode(node)) != [] :: Filter(m[g], OtherNode(node))
  }

  // ------------------------------------------------------------------ every run

  datatype Action = Register(group: Text, svc: Service) | Unregister(group: Text, svc: Service) | Drop(node: Text) | Clear

  function Step(m: Services, a: Action): Services {
    match a
    case Register(g, svc) => Registered(m, g, svc)
    case Unregister(g, svc) => Unregistered(m, g, svc)
    case Drop(node) => NodeDropped(m, node)
    case Clear => map[]
  }

  function Run(schedule: seq<Action>): Services {
    if schedule == [] then map[] else Step(Run(Front(schedule)), Last(schedule))
  }

  ghost predicate Unique(vec: seq<Service>) { forall i, j :: 0 <= i < j < |vec| ==> !SameKey(vec[i], vec[j]) }

  ghost predicate NoEmptyGroup(m: Services) { forall g :: g in m ==> m[g] != [] }

  ghost predicate UniqueGroups(m: Services) { forall g :: g in m ==> Unique(m[g]) }

  /** Every service sits under the group it names. */
  ghost predicate OwnGroups(m: Services) { forall g, s :: g in m && s in m[g] ==> s.group == g }

  predicate RegistersOwn(a: Action) { a.Register? ==> a.group == a.svc.group }

  lemma EnrolledUnique(vec: seq<Service>, svc: Service)
    requires Unique(vec)
    ensures Unique(Enrolled(vec, svc)) && Enrolled(vec, svc) != []
  {
    hide Capability;
  }

  lemma {:induction false} FilterUnique(vec: seq<Service>, p: Service -> bool)
    requires Unique(vec)
    ensures Unique(Filter(vec, p))
  {
    if vec != [] {
      hide SameKey;
      FilterUnique(Front(vec), p);
      forall i | 0 <= i < |Filter(Front(vec), p)|
        ensures !SameKey(Filter(Front(vec), p)[i], Last(vec))
      {
        FilterIn(Front(vec), p, Filter(Front(vec), p)[i]);
      }
    }
  }

  lemma StepKeepsInv(m: Services, a: Action)
    requires NoEmptyGroup(m) && UniqueGroups(m)
    ensures NoEmptyGroup(Step(m, a)) && UniqueGroups(Step(m, a))
  {
    hide Unique, Filter, Enrolled;
    match a
    case Register(g, svc) =>
      assert Unique(Group(m, g)) by { EmptyUnique(); }
      EnrolledUnique(Group(m, g), svc);
    case Unregister(g, svc) =>
      if g in m { FilterUnique(m[g], OtherTopic(svc)); }
    case Drop(node) =>
      forall g | g in NodeDropped(m, node) ensures Unique(NodeDropped(m, node)[g]) {
        FilterUnique(m[g], OtherNode(node));
      }
    case Clear =>
  }

  lemma EmptyUnique()
    ensures Unique([])
  {
  }

  /** No run leaves an empty group or two entries for one node and capability in a group. */
  lemma {:induction false} EveryRunIsUnique(schedule: seq<Action>)
    ensures NoEmptyGroup(Run(schedule)) && UniqueGroups(Run(schedule))
  {
    if schedule != [] {
      EveryRunIsUnique(Front(schedule));
      StepKeepsInv(Run(Front(schedule)), Last(schedule));
    }
  }

  lemma StepKeepsOwn(m: Services, a: Action)
    requires OwnGroups(m) && RegistersOwn(a)
    ensures OwnGroups(Step(m, a))
  {
    hide Filter;
    var m' := Step(m, a);
    forall g, s: Service | g in m' && s in m'[g]
      ensures s.group == g
    {
      if a.Drop? { FilterIn(m[g], OtherNode(a.node), s); }
      else if a.Unregister? && g in m { FilterIn(m[g], OtherTopic(a.svc), s); }
    }
  }

  /** When every registration names its own group, every service stays under the group it names. */
  lemma {:induction false} EveryRunKeepsOwn(schedule: seq<Action>)
    requires forall a :: a in schedule ==> RegistersOwn(a)
    ensures OwnGroups(Run(schedule))
  {
    if schedule != [] {
      EveryRunKeepsOwn(Front(schedule));
      StepKeepsOwn(Run(Front(schedule)), Last(schedule));
    }
  }

  // ------------------------------------------------------------------ which registration survives

  function Same(key: Service): Service -> bool { (s: Service) => SameKey(s, key) }

  function SameShared(key: Service): Service -> bool {
    (s: Service) => SameKey(s, key) && s.transport == SHARED_MEMORY
  }

  /** The first shared-memory registration of `key`'s node and capability, or else the first of any. */
  function Chosen(log: seq<Service>, key: Service): Service {
    var same, shared := Filter(log, Same(key)), Filter(log, SameShared(key));
    if shared != [] then shared[0] else if same != [] then same[0] else key
  }

  /** The first registration of each node and capability, in order. */
  function Firsts(log: seq<Service>): seq<Service> {
    if log == [] then []
    else
      var f := Firsts(Front(log));
      if FirstMatch(f, Last(log)) == |f| then f + [Last(log)] else f
  }

  function Survivors(log: seq<Service>): (r: seq<Service>)
    ensures |r| == |Firsts(log)|
  {
    seq(|Firsts(log)|, i requires 0 <= i < |Firsts(log)| => Chosen(log, Firsts(log)[i]))
  }

  function EnrollAll(log: seq<Service>): seq<Service> {
    if log == [] then [] else Enrolled(EnrollAll(Front(log)), Last(log))
  }

  lemma FirstMatchExtends(f: seq<Service>, x: Service)
    ensures forall y :: FirstMatch(f, y) < |f| ==> FirstMatch(f + [x], y) < |f|
    ensures FirstMatch(f + [x], x) <= |f|
    ensures Unique(f) && FirstMatch(f, x) == |f| ==> Unique(f + [x])
  {
    hide Capability, SameKey;
    forall y | FirstMatch(f, y) < |f| ensures FirstMatch(f + [x], y) < |f| {
      assert (f + [x])[FirstMatch(f, y)] == f[FirstMatch(f, y)];
    }
    SameKeyReflexive(x);
    assert (f + [x])[|f|] == x;
  }

  lemma SameKeyReflexive(x: Service)
    ensures SameKey(x, x)
  {
  }

  /** Firsts has every key of the log, once. */
  lemma {:induction false} FirstsCover(log: seq<Service>)
    ensures Unique(Firsts(log)) && (forall f :: f in Firsts(log) ==> f in log)
    ensures forall x :: x in log ==> FirstMatch(Firsts(log), x) < |Firsts(log)|
  {
    hide SameKey, FirstMatch, Unique;
    EmptyUnique();
    if log != [] {
      var f, x := Firsts(Front(log)), Last(log);
      FirstsCover(Front(log));
      assert log == Front(log) + [x];
      FirstMatchExtends(f, x);
    }
  }

  lemma ChosenKey(log: seq<Service>, key: Service)
    ensures SameKey(Chosen(log, key), key)
  {
    hide Capability, Filter;
    var same, shared := Filter(log, Same(key)), Filter(log, SameShared(key));
    if shared != [] { FilterIn(log, SameShared(key), shared[0]); }
    else if same != [] { FilterIn(log, Same(key), same[0]); }
  }

  function Preferred(current: Service, other: Service): Service {
    if current.transport != SHARED_MEMORY && other.transport == SHARED_MEMORY then other else current
  }

  /** One more registration changes the choice for its own key only, and only towards shared memory. */
  lemma ChosenStep(log: seq<Service>, x: Service, key: Service)
    ensures !SameKey(x, key) ==> Chosen(log + [x], key) == Chosen(log, key)
    ensures SameKey(x, key) && Filter(log, Same(key)) == [] ==> Chosen(log + [x], key) == x
    ensures SameKey(x, key) && Filter(log, Same(key)) != [] ==> Chosen(log + [x], key) == Preferred(Chosen(log, key), x)
  {
    hide Filter, SameKey;
    var p, q := Same(key), SameShared(key);
    var same, shared := Filter(log, p), Filter(log, q);
    assert Front(log + [x]) == log;
    FilterLast(log + [x], p);
    FilterLast(log + [x], q);
    if shared != [] {
      FilterIn(log, q, shared[0]);
      FilterIn(log, p, shared[0]);
    } else if same != [] {
      FilterIn(log, p, same[0]);
      FilterIn(log, q, same[0]);
    }
  }

  /**
   * After any sequence of registrations a group holds one entry per node and capability, in the
   * order in which these first appeared, and that entry is the first shared-memory registration
   * if there was one, and otherwise the first registration.
   */
  lemma {:induction false} SurvivorsOfGroup(log: seq<Service>)
    ensures EnrollAll(log) == Survivors(log)
  {
    if log != [] {
      SurvivorsOfGroup(Front(log));
      SurvivorStep(Front(log), Last(log));
      assert Front(log) + [Last(log)] == log;
    }
  }

  lemma SurvivorStep(log: seq<Service>, x: Service)
    ensures Enrolled(Survivors(log), x) == Survivors(log + [x])
  {
    hide Capability, Chosen, Filter;
    var f, v := Firsts(log), Survivors(log);
    FirstsCover(log);
    assert Front(log + [x]) == log;
    var i := FirstMatch(f, x);
    SurvivorKeys(log);
    SameFirstMatch(f, v, x);
    forall k | 0 <= k < |f| && k != i
      ensures Chosen(log + [x], f[k]) == Chosen(log, f[k])
    {
      ChosenStep(log, x, f[k]);
    }
    if i == |f| {
      NoneBefore(log, x);
      ChosenStep(log, x, x);
      assert Firsts(log + [x]) == f + [x];
    } else {
      FilterIn(log, Same(f[i]), f[i]);
      ChosenStep(log, x, f[i]);
      assert Firsts(log + [x]) == f;
    }
  }

  lemma SurvivorKeys(log: seq<Service>)
    ensures forall k :: 0 <= k < |Firsts(log)| ==> SameKey(Survivors(log)[k], Firsts(log)[k])
  {
    hide Chosen, Capability;
    forall k | 0 <= k < |Firsts(log)| ensures SameKey(Survivors(log)[k], Firsts(log)[k]) {
      ChosenKey(log, Firsts(log)[k]);
    }
  }

  lemma SameFirstMatch(f: seq<Service>, v: seq<Service>, x: Service)
    requires |f| == |v| && forall k :: 0 <= k < |f| ==> SameKey(v[k], f[k])
    ensures FirstMatch(f, x) == FirstMatch(v, x)
  {
    hide Capability;
    var i, j := FirstMatch(f, x), FirstMatch(v, x);
    assert i < |f| ==> SameKey(v[i], f[i]);
    assert j < |f| ==> SameKey(v[j], f[j]);
  }

  /** A key that Firsts lacks was never registered. */
  lemma NoneBefore(log: seq<Service>, x: Service)
    requires FirstMatch(Firsts(log), x) == |Firsts(log)|
    ensures Filter(log, Same(x)) == []
  {
    hide Capability, Filter;
    FirstsCover(log);
    forall y | y in log
      ensures !Same(x)(y)
    {
      var k := FirstMatch(Firsts(log), y);
      assert SameKey(Firsts(log)[k], y) && !SameKey(Firsts(log)[k], x);
    }
    FilterNone(log, Same(x));
  }

  /** The descriptors registered under `g`. */
  function LogOf(regs: seq<(Text, Service)>, g: Text): seq<Service> {
    if regs == [] then []
    else if Last(regs).0 == g then LogOf(Front(regs), g) + [Last(regs).1]
    else LogOf(Front(regs), g)
  }

  function RegisterAll(regs: seq<(Text, Service)>): Services {
    if regs == [] then map[] else Registered(RegisterAll(Front(regs)), Last(regs).0, Last(regs).1)
  }

  /** Over every sequence of registrations, group by group. */
  lemma {:induction false} RegistrationsSurvive(regs: seq<(Text, Service)>, g: Text)
    ensures g in RegisterAll(regs) <==> LogOf(regs, g) != []
    ensures Group(RegisterAll(regs), g) == Survivors(LogOf(regs, g))
  {
    RegistrationsEnroll(regs, g);
    SurvivorsOfGroup(LogOf(regs, g));
  }

  lemma {:induction false} RegistrationsEnroll(regs: seq<(Text, Service)>, g: Text)
    ensures g in RegisterAll(regs) <==> LogOf(regs, g) != []
    ensures Group(RegisterAll(regs), g) == EnrollAll(LogOf(regs, g))
  {
    if regs != [] {
      hide Enrolled;
      RegistrationsEnroll(Front(regs), g);
      var log := LogOf(Front(regs), g);
      assert Front(log + [Last(regs).1]) == log;
    }
  }

  // ------------------------------------------------------------------ a remote node leaves

  /** findServices(""): all groups, in the order in which the map lists its keys. */
  function Flatten(m: Services, order: seq<Text>): seq<Service> {
    if order == [] then [] else Flatten(m, Front(order)) + Group(m, Last(order))
  }

  lemma {:induction false} FlattenIn(m: Services, order: seq<Text>, s: Service)
    ensures s in Flatten(m, order) <==> exists g :: g in order && s in Group(m, g)
  {
    if order != [] {
      FlattenIn(m, Front(order), s);
      assert order == Front(order) + [Last(order)];
    }
  }

  predicate Enumerates(order: seq<Text>, keys: set<Text>) {
    && (forall i :: 0 <= i < |order| ==> order[i] in keys)
    && (forall i, j :: 0 <= i < j < |order| ==> order[i] != order[j])
    && (forall g :: g in keys ==> g in order)
  }

  /** The loop of handleNodeEvent: unregister, one by one, the snapshot's services of `node`. */
  function LeaveLoop(m: Services, snapshot: seq<Service>, node: Text): Services {
    if snapshot == [] then m
    else
      var m' := LeaveLoop(m, Front(snapshot), node);
      var svc := Last(snapshot);
      if svc.node == node then Unregistered(m', svc.group, svc) else m'
  }

  /** The loop is a run of unregistrations, so it keeps what every run keeps. */
  lemma {:induction false} LeaveLoopKeepsInv(m: Services, snapshot: seq<Service>, node: Text)
    requires OwnGroups(m) && NoEmptyGroup(m) && UniqueGroups(m)
    ensures var m' := LeaveLoop(m, snapshot, node); OwnGroups(m') && NoEmptyGroup(m') && UniqueGroups(m')
  {
    hide OwnGroups, NoEmptyGroup, UniqueGroups, Unregistered;
    if snapshot != [] {
      var svc := Last(snapshot);
      var m1 := LeaveLoop(m, Front(snapshot), node);
      LeaveLoopKeepsInv(m, Front(snapshot), node);
      StepKeepsOwn(m1, Unregister(svc.group, svc));
      StepKeepsInv(m1, Unregister(svc.group, svc));
    }
  }

  /** Some service of the snapshot makes the loop remove `s` from group `g`. */
  predicate Reached(snapshot: seq<Service>, node: Text, g: Text, s: Service) {
    s.node == node && exists i :: 0 <= i < |snapshot| && Hits(snapshot[i], node, g, s)
  }

  predicate Hits(x: Service, node: Text, g: Text, s: Service) { x.node == node && x.group == g && x.topic == s.topic }

  function Unreached(snapshot: seq<Service>, node: Text, g: Text): Service -> bool {
    (s: Service) => !Reached(snapshot, node, g, s)
  }

  lemma UnregisteredGroup(m: Services, svc: Service, g: Text)
    requires NoEmptyGroup(m)
    ensures NoEmptyGroup(Unregistered(m, svc.group, svc))
    ensures g == svc.group ==> Group(Unregistered(m, svc.group, svc), g) == Filter(Group(m, g), OtherTopic(svc))
    ensures g != svc.group ==> Group(Unregistered(m, svc.group, svc), g) == Group(m, g)
  {
    hide Filter;
    assert Filter([], OtherTopic(svc)) == [] by { FilterNone([], OtherTopic(svc)); }
  }

  lemma {:induction false} LeaveLoopGroup(m: Services, snapshot: seq<Service>, node: Text, g: Text)
    requires NoEmptyGroup(m)
    ensures NoEmptyGroup(LeaveLoop(m, snapshot, node))
    ensures Group(LeaveLoop(m, snapshot, node), g) == Filter(Group(m, g), Unreached(snapshot, node, g))
  {
    if snapshot == [] {
      FilterAll(Group(m, g), Unreached(snapshot, node, g));
    } else {
      hide Filter, Unregistered, Group, NoEmptyGroup, Unreached;
      var before, svc := Front(snapshot), Last(snapshot);
      LeaveLoopGroup(m, before, node, g);
      assert before + [svc] == snapshot;
      UnregisteredGroup(LeaveLoop(m, before, node), svc, g);
      UnreachedStep(Group(m, g), before, svc, node, g);
    }
  }

  /** One more unregistration filters a group once more, or leaves it alone. */
  lemma UnreachedStep(vec: seq<Service>, before: seq<Service>, svc: Service, node: Text, g: Text)
    ensures var kept, kept' := Filter(vec, Unreached(before, node, g)), Filter(vec, Unreached(before + [svc], node, g));
      kept' == if svc.node == node && svc.group == g then Filter(kept, OtherTopic(svc)) else kept
  {
    hide Filter, Reached;
    ReachedStep(before, svc, node, g);
    if svc.node == node && svc.group == g {
      FilterBoth(vec, Unreached(before, node, g), OtherTopic(svc), Unreached(before + [svc], node, g));
    } else {
      FilterSame(vec, Unreached(before, node, g), Unreached(before + [svc], node, g));
    }
  }

  lemma ReachedStep(before: seq<Service>, svc: Service, node: Text, g: Text)
    ensures forall s :: Reached(before + [svc], node, g, s) <==>
      Reached(before, node, g, s) || (s.node == node && Hits(svc, node, g, s))
  {
    forall s
      ensures Reached(before + [svc], node, g, s) <==>
        Reached(before, node, g, s) || (s.node == node && Hits(svc, node, g, s))
    {
      assert (before + [svc])[|before|] == svc;
      if Reached(before, node, g, s) {
        var i :| 0 <= i < |before| && Hits(before[i], node, g, s);
        assert (before + [svc])[i] == before[i];
      }
    }
  }

  lemma NodeDroppedGroup(m: Services, node: Text, g: Text)
    ensures NoEmptyGroup(NodeDropped(m, node))
    ensures Group(NodeDropped(m, node), g) == Filter(Group(m, g), OtherNode(node))
  {
    hide Filter;
    assert Filter([], OtherNode(node)) == [] by { FilterNone([], OtherNode(node)); }
  }

  lemma GroupsDetermine(a: Services, b: Services)
    requires NoEmptyGroup(a) && NoEmptyGroup(b) && forall g :: Group(a, g) == Group(b, g)
    ensures a == b
  {
    assert forall g :: g in a <==> Group(a, g) != [];
    assert forall g :: g in b <==> Group(b, g) != [];
    assert a.Keys == b.Keys;
    forall g | g in a ensures a[g] == b[g] { assert Group(a, g) == Group(b, g); }
  }

  /** Every service of `node` shares its topic with a service of `node` that names the group it sits in. */
  ghost predicate Covered(m: Services, node: Text) {
    forall g, s :: g in m && s in m[g] && s.node == node ==> CoveredAt(m, node, g, s)
  }

  ghost predicate CoveredAt(m: Services, node: Text, g: Text, s: Service) {
    exists h, x :: h in m && x in m[h] && Hits(x, node, g, s)
  }

  /** The one-by-one loop leaves the same map as the single pass of unregisterNode exactly when Covered holds. */
  lemma LeaveIsDrop(m: Services, order: seq<Text>, node: Text)
    requires NoEmptyGroup(m) && Enumerates(order, m.Keys)
    ensures LeaveLoop(m, Flatten(m, order), node) == NodeDropped(m, node) <==> Covered(m, node)
  {
    hide LeaveLoop, NodeDropped, Flatten, Reached, Covered, Enumerates;
    var all := Flatten(m, order);
    var left, right := LeaveLoop(m, all, node), NodeDropped(m, node);
    forall g
      ensures NoEmptyGroup(left) && NoEmptyGroup(right)
      ensures Group(left, g) == Group(right, g) <==> GroupCovered(m, node, g)
    {
      LeaveLoopGroup(m, all, node, g);
      NodeDroppedGroup(m, node, g);
      GroupLeave(m, order, node, g);
    }
    CoveredByGroup(m, node);
    LeaveLoopGroup(m, all, node, []);
    NodeDroppedGroup(m, node, []);
    if Covered(m, node) {
      GroupsDetermine(left, right);
    }
  }

  ghost predicate GroupCovered(m: Services, node: Text, g: Text) {
    forall s :: s in Group(m, g) && s.node == node ==> CoveredAt(m, node, g, s)
  }

  lemma CoveredByGroup(m: Services, node: Text)
    ensures Covered(m, node) <==> forall g :: GroupCovered(m, node, g)
  {
    hide CoveredAt;
    if forall g :: GroupCovered(m, node, g) {
      forall g, s | g in m && s in m[g] && s.node == node
        ensures CoveredAt(m, node, g, s)
      {
        assert GroupCovered(m, node, g);
      }
    }
  }

  lemma GroupLeave(m: Services, order: seq<Text>, node: Text, g: Text)
    requires Enumerates(order, m.Keys)
    ensures Filter(Group(m, g), Unreached(Flatten(m, order), node, g)) == Filter(Group(m, g), OtherNode(node))
            <==> GroupCovered(m, node, g)
  {
    hide Filter, Reached, CoveredAt, Flatten, Enumerates;
    var all := Flatten(m, order);
    FilterAgree(Group(m, g), Unreached(all, node, g), OtherNode(node));
    forall s
      ensures Reached(all, node, g, s) <==> s.node == node && CoveredAt(m, node, g, s)
    {
      ReachedIsCovered(m, order, node, g, s);
    }
  }

  lemma ReachedIsCovered(m: Services, order: seq<Text>, node: Text, g: Text, s: Service)
    requires Enumerates(order, m.Keys)
    ensures Reached(Flatten(m, order), node, g, s) <==> s.node == node && CoveredAt(m, node, g, s)
  {
    hide Flatten;
    var all := Flatten(m, order);
    if Reached(all, node, g, s) {
      var i :| 0 <= i < |all| && Hits(all[i], node, g, s);
      FlattenIn(m, order, all[i]);
      var h :| h in order && all[i] in Group(m, h);
      assert h in m && all[i] in m[h];
    }
    if s.node == node && CoveredAt(m, node, g, s) {
      var h, x :| h in m && x in m[h] && Hits(x, node, g, s);
      FlattenIn(m, order, x);
      assert h in order && x in Group(m, h);
      var i :| 0 <= i < |all| && all[i] == x;
      assert Hits(all[i], node, g, s);
    }
  }

  /** In particular whenever every service sits under its own group. */
  lemma OwnGroupsCovered(m: Services, node: Text)
    requires OwnGroups(m)
    ensures Covered(m, node)
  {
    forall g, s | g in m && s in m[g] && s.node == node
      ensures CoveredAt(m, node, g, s)
    {
      assert Hits(s, node, g, s);
    }
  }

  /** A service registered under a group it does not name is left behind. */
  lemma LeftBehind(g: Text, svc: Service)
    requires g != svc.group
    ensures var m := Run([Register(g, svc)]);
      LeaveLoop(m, Flatten(m, [g]), svc.node) != NodeDropped(m, svc.node)
  {
    hide LeaveLoop, Flatten, NodeDropped, Filter, SameKey;
    var schedule := [Register(g, svc)];
    assert Front(schedule) == [] && Last(schedule) == Register(g, svc);
    var m, none: Services := Run(schedule), map[];
    assert Run(Front(schedule)) == none;
    assert m == Step(none, Register(g, svc)) == Registered(none, g, svc);
    assert m[g] == [] + [svc] == [svc];
    assert !CoveredAt(m, svc.node, g, svc);
    LeaveIsDrop(m, [g], svc.node);
  }

  // ------------------------------------------------------------------ in place

  class GlobalRegistry {
    /** The ids of the nodes of this process. */
    var nodes: set<Text>
    var services: Services

    ghost predicate Valid()
      reads this
    {
      NoEmptyGroup(services) && UniqueGroups(services)
    }

    constructor ()
      ensures Valid() && services == map[] && nodes == {}
    {
      nodes, services := {}, map[];
    }

    method RegisterNode(node: Text)
      modifies this`nodes
      ensures nodes == old(nodes) + {node}
    {
      nodes := nodes + {node};
    }

    method RegisterService(g: Text, svc: Service)
      requires Valid()
      modifies this`services
      ensures Valid() && services == Registered(old(services), g, svc) == Step(old(services), Register(g, svc))
    {
      hide SameKey, FirstMatch, NoEmptyGroup, UniqueGroups;
      StepKeepsInv(services, Register(g, svc));
      ghost var target := Registered(services, g, svc);
      var vec := if g in services then services[g] else [];
      services := services[g := vec];
      for i := 0 to |vec|
        invariant services == old(services)[g := vec]
        invariant forall j :: 0 <= j < i ==> !SameKey(vec[j], svc)
      {
        if SameKey(vec[i], svc) {
          assert FirstMatch(vec, svc) == i && target == old(services)[g := Enrolled(vec, svc)];
          if vec[i].transport == svc.transport {
            return;
          }
          if vec[i].transport == SHARED_MEMORY {
            return;
          }
          if svc.transport == SHARED_MEMORY {
            services := services[g := vec[i := svc]];
            assert services == target;
            return;
          }
          return;
        }
      }
      services := services[g := vec + [svc]];
      assert FirstMatch(vec, svc) == |vec| && services == target;
    }

    /** std::remove_if with erase. */
    static method RemoveIf(vec: seq<Service>, keep: Service -> bool) returns (rest: seq<Service>)
      ensures rest == Filter(vec, keep)
    {
      rest := [];
      for i := 0 to |vec|
        invariant rest == Filter(vec[..i], keep)
      {
        assert Front(vec[..i + 1]) == vec[..i];
        if keep(vec[i]) {
          rest := rest + [vec[i]];
        }
      }
      assert vec[..|vec|] == vec;
    }

    method UnregisterService(g: Text, svc: Service)
      requires Valid()
      modifies this`services
      ensures Valid() && services == Unregistered(old(services), g, svc) == Step(old(services), Unregister(g, svc))
      ensures forall h :: h != g ==> Group(services, h) == Group(old(services), h)
      ensures forall s :: s in Group(services, g) <==> s in Group(old(services), g) && !(s.node == svc.node && s.topic == svc.topic)
    {
      hide Unique, Filter;
      StepKeepsInv(services, Unregister(g, svc));
      forall s: Service
        ensures s in Filter(Group(services, g), OtherTopic(svc)) <==> s in Group(services, g) && !(s.node == svc.node && s.topic == svc.topic)
      {
        FilterIn(Group(services, g), OtherTopic(svc), s);
      }
      if g in services {
        var vec := RemoveIf(services[g], OtherTopic(svc));
        services := if vec == [] then services - {g} else services[g := vec];
      }
    }

    /** Forgets the node and all its services. */
    method UnregisterNode(node: Text)
      requires Valid()
      modifies this
      ensures Valid() && services == NodeDropped(old(services), node) == Step(old(services), Drop(node))
      ensures nodes == old(nodes) - {node}
      ensures forall g, s :: s in Group(services, g) <==> s in Group(old(services), g) && s.node != node
    {
      nodes := nodes - {node};
      forall g, s: Service ensures s in Group(NodeDropped(services, node), g) <==> s in Group(services, g) && s.node != node {
        NodeDroppedGroup(services, node, g);
        FilterIn(Group(services, g), OtherNode(node), s);
      }
      DropServices(node);
    }

    method DropServices(node: Text)
      requires Valid()
      modifies this`services
      ensures Valid() && services == NodeDropped(old(services), node)
    {
      hide Filter, Unique;
      StepKeepsInv(services, Drop(node));
      var todo := services.Keys;
      ghost var was := services;
      while todo != {}
        invariant todo <= was.Keys && services.Keys <= was.Keys
        invariant forall g :: g in todo ==> g in services && services[g] == was[g]
        invariant forall g :: g in was && g !in todo ==> Done(was, services, node, g)
        decreases todo
      {
        var g :| g in todo;
        var vec := RemoveIf(services[g], OtherNode(node));
        ghost var before := services;
        services := if vec == [] then services - {g} else services[g := vec];
        todo := todo - {g};
        assert forall h :: h in was && h !in todo && h != g ==> Done(was, before, node, h);
      }
      assert services == NodeDropped(was, node);
    }

    ghost static predicate Done(was: Services, now: Services, node: Text, g: Text) {
      g in was &&
      var rest := Filter(was[g], OtherNode(node));
      if rest == [] then g !in now else g in now && now[g] == rest
    }

    /** With no group given, every group in some order. */
    method FindServices(g: Text) returns (result: seq<Service>, ghost order: seq<Text>)
      ensures g != [] ==> result == Group(services, g)
      ensures g == [] ==> Enumerates(order, services.Keys) && result == Flatten(services, order)
    {
      result, order := [], [];
      if g == [] {
        var todo := services.Keys;
        while todo != {}
          invariant todo <= services.Keys && (forall h :: h in order ==> h in services && h !in todo)
          invariant Enumerates(order, services.Keys - todo)
          invariant result == Flatten(services, order)
          decreases todo
        {
          var h :| h in todo;
          result := result + services[h];
          assert Front(order + [h]) == order;
          order := order + [h];
          todo := todo - {h};
        }
        assert services.Keys - todo == services.Keys;
      } else if g in services {
        result := services[g];
      }
    }

    /** The clean-up of handleNodeEvent when another node has left. */
    method HandleNodeLeft(self: Text, from: Text)
      requires Valid()
      modifies this`services
      ensures Valid()
      ensures from == self ==> services == old(services)
      ensures from != self ==> (services == NodeDropped(old(services), from) <==> Covered(old(services), from))
    {
      hide Unique, Filter, Unregistered, NodeDropped, Covered, Flatten, Step;
      if from == self {
        return;
      }
      ghost var was := services;
      var all, order := FindServices([]);
      for i := 0 to |all|
        invariant Valid() && services == LeaveLoop(was, all[..i], from)
      {
        assert Front(all[..i + 1]) == all[..i];
        if all[i].node == from {
          UnregisterService(all[i].group, all[i]);
        }
      }
      assert all[..|all|] == all;
      LeaveIsDrop(was, order, from);
    }
  }
}
