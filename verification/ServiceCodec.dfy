/** Service announcements of src/core/NodeImpl.cpp: encoded, sent as packets, decoded and applied. */
module ServiceCodec {
  import opened Options
  import opened Bytes
  import opened Modular
  import opened ServiceRegistry
  import opened ServiceKeys
  import Subsequence
  import P = Packet

  // ------------------------------------------------------------------ payload

  /** The bytes of `s` that follow a length field holding `kept`. */
  function Tail(s: Text, kept: nat): Text { if kept > 0 then s else [] }

  function Encoded(s: Service): (p: Text)
    ensures |p| >= 5
  {
    var cl, al := |s.channel| % 256, |s.address| % 65536;
    [s.kind, s.transport, cl] + Le(al, 2) + Tail(s.channel, cl) + Tail(s.address, al)
  }

  function Decode(from: Text, group: Text, topic: Text, p: Text): Option<Service> {
    if |p| < 5 then None
    else
      var cl, al := p[2], FromLe(p[3..5]);
      if |p| < 5 + cl + al then None
      else Some(Service(from, group, topic, p[0], p[5..5 + cl], p[1], p[5 + cl..5 + cl + al]))
  }

  predicate NamesFit(s: Service) { |s.channel| < 256 && |s.address| < 65536 }

  lemma EncodedParts(s: Service)
    requires NamesFit(s)
    ensures var p, c, a := Encoded(s), |s.channel|, |s.address|;
      && |p| == 5 + c + a && p[0] == s.kind && p[1] == s.transport && p[2] == c && FromLe(p[3..5]) == a
      && p[5..5 + c] == s.channel && p[5 + c..5 + c + a] == s.address
  {
    hide Le, FromLe, Radix;
    var c, a := |s.channel|, |s.address|;
    assert c % 256 == c && a % 65536 == a;
    var h, l := [s.kind, s.transport, c], Le(a, 2);
    P.SliceAt(h, l, s.channel + s.address);
    P.SliceAt(h + l, s.channel, s.address);
    assert Encoded(s) == h + l + (s.channel + s.address) == h + l + s.channel + s.address;
    RadixValues();
    LeRoundTrip(a, 2);
  }

  /** Decoding gives back the descriptor exactly when both names fit their length fields. */
  lemma ServiceRoundTrip(s: Service)
    ensures Decode(s.node, s.group, s.topic, Encoded(s)) == Some(s) <==> NamesFit(s)
  {
    hide Encoded;
    DecodedNamesFit(s.node, s.group, s.topic, Encoded(s));
    if NamesFit(s) { EncodedParts(s); }
  }

  lemma DecodedNamesFit(from: Text, group: Text, topic: Text, p: Text)
    ensures var r := Decode(from, group, topic, p);
      r.Some? ==> NamesFit(r.value) && r.value.node == from && r.value.group == group && r.value.topic == topic
  {
    hide FromLe, Radix;
    RadixValues();
    if |p| >= 5 { FromLeBound(p[3..5]); }
  }

  // ------------------------------------------------------------------ a packet at its receiver

  /** What the receiving node does with a packet, as far as services are concerned. */
  datatype Reaction = Nothing | AnswerQuery(to: Text) | Change(svc: Service, add: bool) | DropAll(node: Text)

  /** handleServiceMessage. */
  function Handle(self: Text, from: Text, group: Text, topic: Text, payload: Text, register: bool): Reaction {
    if from == self then Nothing
    else if register && payload == [] then AnswerQuery(from)
    else match Decode(from, group, topic, payload)
    case None => Nothing
    case Some(svc) => Change(svc, register)
  }

  /** The system thread's switch; a node that joins changes no service. */
  function React(self: Text, m: P.Message): Reaction {
    if m.node == self then Nothing
    else if m.kind == P.SERVICE_REGISTER then Handle(self, m.node, m.group, m.topic, m.payload, true)
    else if m.kind == P.SERVICE_UNREGISTER then Handle(self, m.node, m.group, m.topic, m.payload, false)
    else if m.kind == P.NODE_LEAVE then DropAll(m.node)
    else Nothing
  }

  /** processPacket and then the system thread, for a packet that is not dropped between them. */
  function Arrive(self: Text, mem: seq<byte>): Reaction {
    match P.Parse(mem)
    case Ignored => Nothing
    case OverRead => Nothing
    case Parsed(m) => React(self, m)
  }

  /** `order` is the order in which the map lists its groups. */
  function Apply(m: Services, r: Reaction, order: seq<Text>): Services {
    match r
    case Change(svc, true) => Registered(m, svc.group, svc)
    case Change(svc, false) => Unregistered(m, svc.group, svc)
    case DropAll(node) => LeaveLoop(m, Flatten(m, order), node)
    case _ => m
  }

  /** broadcastServiceUpdate; the sender announces its own services. */
  function Announcement(svc: Service, add: bool): P.Message {
    P.Message(if add then P.SERVICE_REGISTER else P.SERVICE_UNREGISTER, svc.node, svc.group, svc.topic, Encoded(svc))
  }

  predicate Announceable(s: Service) {
    && 0 !in s.node && |s.node| < 64 && |s.group| <= 128 && |s.topic| <= 128
    && |s.channel| < 256 && 5 + |s.channel| + |s.address| <= 65000
  }

  /**
   * An announcement makes its receiver register (or unregister) exactly the announced descriptor
   * if and only if the receiver is another node and every part fits its field.
   */
  lemma AnnouncementArrives(self: Text, svc: Service, add: bool, udp: P.port)
    ensures Arrive(self, P.Built(Announcement(svc, add), udp)) == Change(svc, add) <==> Announceable(svc) && svc.node != self
  {
    hide P.Parse, P.Built, Encoded, Decode;
    var m := Announcement(svc, add);
    P.PacketRoundTrip(m, udp);
    if Announceable(svc) {
      ServiceRoundTrip(svc);
      EncodedParts(svc);
    }
    if Arrive(self, P.Built(m, udp)) == Change(svc, add) {
      P.AcceptedParts(m, udp);
      var r := P.Parse(P.Built(m, udp)).message;
      DecodedNamesFit(r.node, r.group, r.topic, r.payload);
      EncodedParts(svc);
    }
  }

  /**
   * An announcement is taken for the empty-payload query only when its encoded length is a positive
   * multiple of 2^32, which its length field then holds as 0; never below that.
   */
  lemma AnnouncementIsNoQuery(self: Text, svc: Service, add: bool, udp: P.port)
    ensures Arrive(self, P.Built(Announcement(svc, add), udp)).AnswerQuery? <==>
      && add && P.Wrap(|Encoded(svc)|) == 0 && Kept(svc.node, P.NODE_WIDTH) != self
      && P.Low16(|svc.group|) <= P.MAX_NAME && P.Low16(|svc.topic|) <= P.MAX_NAME
    ensures |Encoded(svc)| < TWO32 ==> !Arrive(self, P.Built(Announcement(svc, add), udp)).AnswerQuery?
  {
    hide P.Parse, P.Built, Encoded, Decode, P.Wrap, P.Low16, Kept;
    var m := Announcement(svc, add);
    P.BuiltIsAccepted(m, udp);
    if P.Parse(P.Built(m, udp)).Parsed? {
      P.AcceptedParts(m, udp);
    }
  }

  /** The query packet of queryRemoteServices is always answered by another node. */
  lemma QueryIsAnswered(self: Text, node: Text, udp: P.port)
    ensures var query := P.Message(P.SERVICE_REGISTER, node, [], [], []);
      var from := Kept(node, 64);
      Arrive(self, P.Built(query, udp)) == if from == self then Nothing else AnswerQuery(from)
  {
    hide P.Parse, P.Built, Decode, Kept;
    var query := P.Message(P.SERVICE_REGISTER, node, [], [], []);
    P.BuiltIsAccepted(query, udp);
    P.AcceptedParts(query, udp);
  }

  /** The packet of a node that leaves makes every other node drop all its services, as unregisterNode would. */
  lemma DepartureArrives(self: Text, node: Text, udp: P.port, m: Services, order: seq<Text>)
    requires OwnGroups(m) && NoEmptyGroup(m) && Enumerates(order, m.Keys)
    ensures var from := Kept(node, P.NODE_WIDTH);
      Apply(m, Arrive(self, P.Built(P.Message(P.NODE_LEAVE, node, [], [], []), udp)), order)
      == if from == self then m else NodeDropped(m, from)
  {
    hide P.Parse, P.Built, Decode, Kept, OwnGroups, NoEmptyGroup, Enumerates, LeaveLoop, NodeDropped, Flatten, Covered;
    var leave := P.Message(P.NODE_LEAVE, node, [], [], []);
    P.BuiltIsAccepted(leave, udp);
    P.AcceptedParts(leave, udp);
    OwnGroupsCovered(m, Kept(node, P.NODE_WIDTH));
    LeaveIsDrop(m, order, Kept(node, P.NODE_WIDTH));
  }

  /**
   * An announcement that a service is gone makes another node forget exactly what it has of that
   * node and topic in the group, and nothing in any other.
   */
  lemma UnregistrationArrives(self: Text, svc: Service, udp: P.port, m: Services, order: seq<Text>, g: Text, e: Service)
    requires Announceable(svc) && svc.node != self && NoEmptyGroup(m)
    ensures var m' := Apply(m, Arrive(self, P.Built(Announcement(svc, false), udp)), order);
      && NoEmptyGroup(m')
      && (e in Group(m', g) <==> e in Group(m, g) && !(g == svc.group && e.node == svc.node && e.topic == svc.topic))
  {
    hide P.Parse, P.Built, Arrive, Announceable, Announcement, Subsequence.Filter;
    AnnouncementArrives(self, svc, false, udp);
    UnregisteredGroup(m, svc, g);
    Subsequence.FilterIn(Group(m, g), OtherTopic(svc), e);
  }

  /** An announcement that is registered makes the service known to another node. */
  lemma RegistrationArrives(self: Text, svc: Service, udp: P.port, m: Services, order: seq<Text>)
    requires Announceable(svc) && svc.node != self
    ensures Known(Apply(m, Arrive(self, P.Built(Announcement(svc, true), udp)), order), svc)
  {
    hide P.Parse, P.Built, Arrive, Announceable, Announcement, Registered, Known;
    AnnouncementArrives(self, svc, true, udp);
    RegisteredIsKnown(m, svc);
  }

  /** Whatever bytes arrive, a service enters the registry only under the group it names, and uniqueness is kept. */
  lemma ArrivalsKeepGroups(self: Text, mem: seq<byte>, m: Services, order: seq<Text>)
    requires OwnGroups(m) && NoEmptyGroup(m) && UniqueGroups(m)
    ensures var m' := Apply(m, Arrive(self, mem), order); OwnGroups(m') && NoEmptyGroup(m') && UniqueGroups(m')
  {
    hide OwnGroups, NoEmptyGroup, UniqueGroups, Registered, Unregistered, Arrive, LeaveLoop;
    match Arrive(self, mem)
    case Change(svc, true) =>
      StepKeepsOwn(m, Register(svc.group, svc));
      StepKeepsInv(m, Register(svc.group, svc));
    case Change(svc, false) =>
      StepKeepsOwn(m, Unregister(svc.group, svc));
      StepKeepsInv(m, Unregister(svc.group, svc));
    case DropAll(node) => LeaveLoopKeepsInv(m, Flatten(m, order), node);
    case _ =>
  }
}
