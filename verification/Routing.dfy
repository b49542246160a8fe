/** Which remote nodes a publish goes to: NodeImpl::deliverInterProcess of src/core/NodeImpl.cpp. */
module Routing {
  import opened Options
  import opened Bytes
  import opened Subsequence
  import opened ServiceRegistry

  const COLON: byte := 58
  const ANY_ADDRESS: Text := [48, 46, 48, 46, 48, 46, 48]
  const LOOPBACK: Text := [49, 50, 55, 46, 48, 46, 48, 46, 49]

  datatype Endpoint = Endpoint(ip: Text, port: nat)

  /** std::stoi; None where it throws. */
  type Stoi = Text -> Option<int>

  /** The index of the first colon, or the length. */
  function ColonAt(a: Text): (i: nat)
    ensures i <= |a| && (i < |a| ==> a[i] == COLON) && COLON !in a[..i]
  {
    if a == [] || a[0] == COLON then 0
    else
      var i := 1 + ColonAt(a[1..]);
      assert a[..i] == [a[0]] + a[1..][..i - 1];
      i
  }

  function ParseEndpoint(a: Text, stoi: Stoi): Option<Endpoint> {
    var c := ColonAt(a);
    if 0 < c < |a| - 1 then
      var ip := if a[..c] == ANY_ADDRESS then LOOPBACK else a[..c];
      match stoi(a[c + 1..])
      case Some(port) => Some(Endpoint(ip, port % 65536))
      case None => None
    else None
  }

  /** An address is usable exactly when it is a host, a colon and a number, the first colon counting; 0.0.0.0 stands for this host. */
  lemma EndpointIff(a: Text, stoi: Stoi)
    ensures ParseEndpoint(a, stoi).Some? <==>
      exists ip, port :: a == ip + [COLON] + port && COLON !in ip && ip != [] && port != [] && stoi(port).Some?
    ensures ParseEndpoint(a, stoi).Some? ==>
      var e := ParseEndpoint(a, stoi).value;
      exists ip, port ::
        && a == ip + [COLON] + port && COLON !in ip && stoi(port).Some?
        && e.ip == (if ip == ANY_ADDRESS then LOOPBACK else ip)
        && 0 <= e.port < 65536 && (stoi(port).value - e.port) % 65536 == 0
  {
    var c := ColonAt(a);
    if c < |a| {
      var ip, port := a[..c], a[c + 1..];
      assert a == ip + [COLON] + port;
    }
    forall ip: Text, port: Text | a == ip + [COLON] + port && COLON !in ip
      ensures c == |ip| && a[..c] == ip && a[c + 1..] == port
    {
      FirstColon(a, ip, port);
    }
  }

  lemma FirstColon(a: Text, ip: Text, port: Text)
    requires a == ip + [COLON] + port && COLON !in ip
    ensures ColonAt(a) == |ip| && a[..|ip|] == ip && a[|ip| + 1..] == port
  {
    var c := ColonAt(a);
    assert a[|ip|] == COLON;
    assert forall j :: 0 <= j < |ip| ==> a[j] == ip[j] && a[j] != COLON;
    assert forall j :: 0 <= j < c ==> a[..c][j] != COLON;
  }

  /** What the publishing node knows: itself, the nodes of its process, the nodes in shared memory. */
  datatype Context = Context(self: Text, topic: Text, inProcess: set<Text>, inShm: set<Text>, stoi: Stoi)

  // ------------------------------------------------------------------ specification

  /** A normal service of another process on this topic. */
  predicate Remote(c: Context, s: Service) {
    s.topic == c.topic && s.kind == NORMAL_MESSAGE && s.node != c.self && s.node !in c.inProcess
  }

  predicate Usable(c: Context, s: Service) {
    || (s.transport == SHARED_MEMORY && s.node in c.inShm)
    || (s.transport == UDP && ParseEndpoint(s.address, c.stoi).Some?)
  }

  function Wanted(c: Context): Service -> bool { (s: Service) => Remote(c, s) && Usable(c, s) }

  function NodesOf(picks: seq<Service>): set<Text> { set s | s in picks :: s.node }

  /** The first of `candidates` for each node. */
  function FirstPerNode(candidates: seq<Service>): seq<Service> {
    if candidates == [] then []
    else
      var f := FirstPerNode(Front(candidates));
      if Last(candidates).node in NodesOf(f) then f else f + [Last(candidates)]
  }

  function Picks(c: Context, services: seq<Service>): seq<Service> { FirstPerNode(Filter(services, Wanted(c))) }

  function ShmTargets(picks: seq<Service>): seq<Text> {
    if picks == [] then []
    else ShmTargets(Front(picks)) + if Last(picks).transport == SHARED_MEMORY then [Last(picks).node] else []
  }

  function UdpTargets(picks: seq<Service>, stoi: Stoi): seq<Endpoint> {
    if picks == [] then []
    else
      var s := Last(picks);
      UdpTargets(Front(picks), stoi) +
      if s.transport == UDP && ParseEndpoint(s.address, stoi).Some? then [ParseEndpoint(s.address, stoi).value] else []
  }

  ghost predicate DistinctNodes(picks: seq<Service>) {
    forall i, j :: 0 <= i < j < |picks| ==> picks[i].node != picks[j].node
  }

  // ------------------------------------------------------------------ the loop

  /** deliverInterProcess up to the sends; `services` is what findServices returned for the group. */
  method SelectTargets(c: Context, services: seq<Service>) returns (shm: seq<Text>, udp: seq<Endpoint>)
    ensures shm == ShmTargets(Picks(c, services)) && udp == UdpTargets(Picks(c, services), c.stoi)
  {
    hide ParseEndpoint, Filter, FirstPerNode, ShmTargets, UdpTargets;
    shm, udp := [], [];
    EmptyPicks(c);
    var delivered: set<Text> := {};
    for i := 0 to |services|
      invariant delivered == NodesOf(Picks(c, services[..i]))
      invariant shm == ShmTargets(Picks(c, services[..i])) && udp == UdpTargets(Picks(c, services[..i]), c.stoi)
    {
      var svc := services[i];
      PicksStep(c, services[..i], svc);
      assert services[..i + 1] == services[..i] + [svc];
      if svc.topic != c.topic { continue; }
      if svc.kind != NORMAL_MESSAGE { continue; }
      if svc.node == c.self { continue; }
      if svc.node in c.inProcess { continue; }
      if svc.node in delivered { continue; }
      if svc.transport == SHARED_MEMORY {
        if svc.node in c.inShm {
          shm := shm + [svc.node];
          delivered := delivered + {svc.node};
        }
      } else if svc.transport == UDP {
        var endpoint := ParseEndpoint(svc.address, c.stoi);
        if endpoint.Some? {
          udp := udp + [endpoint.value];
          delivered := delivered + {svc.node};
        }
      }
    }
    assert services[..|services|] == services;
  }

  lemma EmptyPicks(c: Context)
    ensures Picks(c, []) == [] && ShmTargets([]) == [] && UdpTargets([], c.stoi) == [] && NodesOf([]) == {}
  {
  }

  lemma PicksStep(c: Context, before: seq<Service>, svc: Service)
    ensures var picks, picks' := Picks(c, before), Picks(c, before + [svc]);
      var taken := Remote(c, svc) && Usable(c, svc) && svc.node !in NodesOf(picks);
      && (!taken ==> picks' == picks)
      && (taken ==> NodesOf(picks') == NodesOf(picks) + {svc.node})
      && (taken ==> ShmTargets(picks') == ShmTargets(picks) + if svc.transport == SHARED_MEMORY then [svc.node] else [])
      && (taken && svc.transport == SHARED_MEMORY ==> UdpTargets(picks', c.stoi) == UdpTargets(picks, c.stoi))
      && (taken && svc.transport == UDP ==>
            UdpTargets(picks', c.stoi) == UdpTargets(picks, c.stoi) + [ParseEndpoint(svc.address, c.stoi).value])
  {
    hide ParseEndpoint, Filter;
    var p := Wanted(c);
    assert Front(before + [svc]) == before;
    FilterLast(before + [svc], p);
    var wanted := Filter(before, p);
    assert Front(wanted + [svc]) == wanted;
    var picks := FirstPerNode(wanted);
    assert Front(picks + [svc]) == picks;
  }

  // ------------------------------------------------------------------ what is selected

  lemma EmptyDistinct()
    ensures DistinctNodes([])
  {
  }

  lemma NodesOfLast(picks: seq<Service>)
    requires picks != []
    ensures NodesOf(picks) == NodesOf(Front(picks)) + {Last(picks).node}
    ensures DistinctNodes(picks) <==> DistinctNodes(Front(picks)) && Last(picks).node !in NodesOf(Front(picks))
  {
    assert picks == Front(picks) + [Last(picks)];
    if DistinctNodes(Front(picks)) && Last(picks).node !in NodesOf(Front(picks)) {
      forall i, j | 0 <= i < j < |picks| ensures picks[i].node != picks[j].node {
        assert picks[i] == Front(picks)[i] && picks[i] in Front(picks);
      }
    }
  }

  lemma {:induction false} FirstPerNodeDistinct(candidates: seq<Service>)
    ensures DistinctNodes(FirstPerNode(candidates)) && NodesOf(FirstPerNode(candidates)) == NodesOf(candidates)
    ensures forall s :: s in FirstPerNode(candidates) ==> s in candidates
  {
    hide NodesOf, DistinctNodes;
    EmptyDistinct();
    if candidates != [] {
      FirstPerNodeDistinct(Front(candidates));
      NodesOfLast(candidates);
      var f := FirstPerNode(Front(candidates));
      NodesOfLast(f + [Last(candidates)]);
      assert Front(f + [Last(candidates)]) == f && candidates == Front(candidates) + [Last(candidates)];
    }
  }

  /** Each remote node at most once, never the sender or a node of its process, and exactly the reachable subscribers. */
  lemma SelectionIsExact(c: Context, services: seq<Service>)
    ensures var picks := Picks(c, services);
      && DistinctNodes(picks)
      && c.self !in NodesOf(picks) && NodesOf(picks) !! c.inProcess
      && (forall n :: n in NodesOf(picks) <==>
            exists s :: s in services && s.node == n
                        && s.topic == c.topic && s.kind == NORMAL_MESSAGE && n != c.self && n !in c.inProcess
                        && ((s.transport == SHARED_MEMORY && n in c.inShm)
                            || (s.transport == UDP && ParseEndpoint(s.address, c.stoi).Some?)))
      && (forall s :: s in picks ==> s in services && s.topic == c.topic && Usable(c, s))
  {
    hide Filter, FirstPerNode, ParseEndpoint;
    var candidates := Filter(services, Wanted(c));
    FirstPerNodeDistinct(candidates);
    forall s ensures s in candidates <==> s in services && Remote(c, s) && Usable(c, s) {
      FilterIn(services, Wanted(c), s);
    }
  }

  /** The transports that are initialised when the packet is sent. */
  datatype Transports = Transports(shm: bool, udp: bool)

  /** The nodes in shared memory are not even looked up while that transport is down. */
  function Seen(c: Context, up: Transports): Context { c.(inShm := if up.shm then c.inShm else {}) }

  function Sendable(up: Transports): Service -> bool {
    (s: Service) => (s.transport == SHARED_MEMORY && up.shm) || (s.transport == UDP && up.udp)
  }

  /** deliverInterProcess, down to the sends. */
  method DeliverInterProcess(c: Context, services: seq<Service>, up: Transports) returns (shm: seq<Text>, udp: seq<Endpoint>)
    ensures var picks := Picks(Seen(c, up), services);
      shm == ShmTargets(picks) && udp == (if up.udp then UdpTargets(picks, c.stoi) else [])
  {
    hide Filter, FirstPerNode, UdpTargets;
    EmptyPicks(Seen(c, up));
    if services == [] {
      return [], [];
    }
    shm, udp := SelectTargets(Seen(c, up), services);
    if !up.shm {
      NothingInShm(Seen(c, up), services);
      shm := [];
    }
    if !up.udp {
      udp := [];
    }
  }

  lemma NothingInShm(c: Context, services: seq<Service>)
    requires c.inShm == {}
    ensures ShmTargets(Picks(c, services)) == []
  {
    hide Filter, FirstPerNode, ParseEndpoint;
    SelectionIsExact(c, services);
    NoneByShm(Picks(c, services));
  }

  lemma {:induction false} NoneByShm(picks: seq<Service>)
    requires forall s :: s in picks ==> s.transport != SHARED_MEMORY
    ensures ShmTargets(picks) == []
  {
    if picks != [] { NoneByShm(Front(picks)); }
  }

  /** Every picked service is listed for exactly one send: by node id for shared memory or by endpoint for UDP. */
  lemma TargetsSplit(picks: seq<Service>, stoi: Stoi)
    requires forall s :: s in picks ==> s.transport == SHARED_MEMORY || (s.transport == UDP && ParseEndpoint(s.address, stoi).Some?)
    ensures |ShmTargets(picks)| + |UdpTargets(picks, stoi)| == |picks|
    ensures forall n :: n in ShmTargets(picks) <==> exists s :: s in picks && s.transport == SHARED_MEMORY && s.node == n
    ensures forall e :: e in UdpTargets(picks, stoi) <==> exists s :: s in picks && s.transport == UDP && ParseEndpoint(s.address, stoi) == Some(e)
  {
    hide ParseEndpoint, ShmTargets, UdpTargets;
    TargetsCount(picks, stoi);
    forall n ensures n in ShmTargets(picks) <==> exists s :: s in picks && s.transport == SHARED_MEMORY && s.node == n {
      ShmTargetIn(picks, n);
    }
    forall e ensures e in UdpTargets(picks, stoi) <==> exists s :: s in picks && s.transport == UDP && ParseEndpoint(s.address, stoi) == Some(e) {
      UdpTargetIn(picks, stoi, e);
    }
  }

  lemma {:induction false} TargetsCount(picks: seq<Service>, stoi: Stoi)
    requires forall s :: s in picks ==> s.transport == SHARED_MEMORY || (s.transport == UDP && ParseEndpoint(s.address, stoi).Some?)
    ensures |ShmTargets(picks)| + |UdpTargets(picks, stoi)| == |picks|
  {
    hide ParseEndpoint;
    if picks != [] { TargetsCount(Front(picks), stoi); }
  }

  lemma {:induction false} ShmTargetIn(picks: seq<Service>, n: Text)
    ensures n in ShmTargets(picks) <==> exists s :: s in picks && s.transport == SHARED_MEMORY && s.node == n
  {
    if picks != [] {
      ShmTargetIn(Front(picks), n);
      assert picks == Front(picks) + [Last(picks)];
    }
  }

  lemma {:induction false} UdpTargetIn(picks: seq<Service>, stoi: Stoi, e: Endpoint)
    ensures e in UdpTargets(picks, stoi) <==> exists s :: s in picks && s.transport == UDP && ParseEndpoint(s.address, stoi) == Some(e)
  {
    if picks != [] {
      hide ParseEndpoint;
      UdpTargetIn(Front(picks), stoi, e);
      assert picks == Front(picks) + [Last(picks)];
    }
  }

  /** The number of sends is the number of picked services whose transport is up. */
  lemma SendsMatchTransports(c: Context, services: seq<Service>, up: Transports)
    ensures var picks := Picks(Seen(c, up), services);
      |ShmTargets(picks)| + (if up.udp then |UdpTargets(picks, c.stoi)| else 0) == |Filter(picks, Sendable(up))|
  {
    hide Filter, FirstPerNode, ParseEndpoint, ShmTargets, UdpTargets;
    var picks := Picks(Seen(c, up), services);
    SelectionIsExact(Seen(c, up), services);
    if !up.shm { NothingInShm(Seen(c, up), services); }
    SendCount(picks, c.stoi, up);
  }

  lemma {:induction false} SendCount(picks: seq<Service>, stoi: Stoi, up: Transports)
    requires forall s :: s in picks ==>
      (s.transport == SHARED_MEMORY && up.shm) || (s.transport == UDP && ParseEndpoint(s.address, stoi).Some?)
    ensures |ShmTargets(picks)| + (if up.udp then |UdpTargets(picks, stoi)| else 0) == |Filter(picks, Sendable(up))|
  {
    if picks != [] {
      hide ParseEndpoint;
      assert picks == Front(picks) + [Last(picks)];
      SendCount(Front(picks), stoi, up);
    }
  }

  // ------------------------------------------------------------------ with the service registry

  lemma FirstPerNodeLast(candidates: seq<Service>)
    ensures candidates == [] ==> FirstPerNode(candidates) == []
    ensures candidates != [] && Last(candidates).node !in NodesOf(FirstPerNode(Front(candidates))) ==>
      FirstPerNode(candidates) == FirstPerNode(Front(candidates)) + [Last(candidates)]
  {
  }

  lemma {:induction false} DistinctKeepAll(candidates: seq<Service>)
    requires DistinctNodes(candidates)
    ensures FirstPerNode(candidates) == candidates
  {
    hide NodesOf, DistinctNodes, FirstPerNode;
    FirstPerNodeLast(candidates);
    if candidates != [] {
      NodesOfLast(candidates);
      DistinctKeepAll(Front(candidates));
      assert candidates == Front(candidates) + [Last(candidates)];
    }
  }

  /**
   * With the registry's one entry per node and capability, and every service under its own group,
   * the test on `delivered` never holds for a wanted service: each of them is picked.
   */
  lemma DeliveredNeverFires(c: Context, g: Text, vec: seq<Service>)
    requires Unique(vec) && forall s :: s in vec ==> s.group == g
    ensures Picks(c, vec) == Filter(vec, Wanted(c))
  {
    hide Filter, FirstPerNode, Usable;
    var candidates := Filter(vec, Wanted(c));
    FilterUnique(vec, Wanted(c));
    forall s | s in candidates ensures s in vec && Remote(c, s) { FilterIn(vec, Wanted(c), s); }
    forall i, j | 0 <= i < j < |candidates|
      ensures candidates[i].node != candidates[j].node
    {
      assert candidates[i] in candidates && candidates[j] in candidates;
      assert Capability(candidates[i]) == Capability(candidates[j]);
      assert !SameKey(candidates[i], candidates[j]);
    }
    DistinctKeepAll(candidates);
  }

  /** A publish to a named group after any history of registrations and removals. */
  lemma PublishAfterAnyHistory(schedule: seq<Action>, c: Context, g: Text)
    requires forall a :: a in schedule ==> RegistersOwn(a)
    ensures Picks(c, Group(Run(schedule), g)) == Filter(Group(Run(schedule), g), Wanted(c))
    ensures DistinctNodes(Filter(Group(Run(schedule), g), Wanted(c)))
  {
    hide Run, Filter, Picks, Unique, DistinctNodes, Wanted;
    EveryRunIsUnique(schedule);
    EveryRunKeepsOwn(schedule);
    EmptyUnique();
    DeliveredNeverFires(c, g, Group(Run(schedule), g));
    SelectionIsExact(c, Group(Run(schedule), g));
  }
}
