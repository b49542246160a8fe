/** The answer to a query for services, and what the asking node then knows. */
module ServiceExchange {
  import opened Bytes
  import opened Subsequence
  import opened ServiceRegistry
  import opened ServiceKeys
  import opened ServiceCodec
  import P = Packet

  function OwnServices(self: Text): Service -> bool { (s: Service) => s.node == self }

  function Packets(services: seq<Service>, udp: P.port): (r: seq<seq<byte>>)
    ensures |r| == |services|
  {
    seq(|services|, i requires 0 <= i < |services| => P.Built(Announcement(services[i], true), udp))
  }

  /** The packets that answer a query: one registration for each service of the answering node. */
  function Replies(self: Text, all: seq<Service>, udp: P.port): seq<seq<byte>> {
    Packets(Filter(all, OwnServices(self)), udp)
  }

  /** The query branch of handleServiceMessage; `all` is what findServices returned. */
  method AnswerQuery(self: Text, all: seq<Service>, udp: P.port) returns (packets: seq<seq<byte>>)
    ensures packets == Replies(self, all, udp)
  {
    hide P.Built;
    packets := [];
    assert packets == Packets([], udp);
    for i := 0 to |all|
      invariant packets == Replies(self, all[..i], udp)
    {
      assert Front(all[..i + 1]) == all[..i];
      if all[i].node == self {
        ghost var before := Filter(all[..i], OwnServices(self));
        assert Packets(before + [all[i]], udp) == Packets(before, udp) + [P.Built(Announcement(all[i], true), udp)];
        packets := packets + [P.Built(Announcement(all[i], true), udp)];
      }
    }
    assert all[..|all|] == all;
  }

  /** The asking node's service map after packets that arrived one by one. */
  function Received(self: Text, m: Services, packets: seq<seq<byte>>, order: seq<Text>): Services {
    if packets == [] then m
    else Apply(Received(self, m, Front(packets), order), Arrive(self, Last(packets)), order)
  }

  /** Whatever a reply turns into on its way, it makes no service unknown. */
  lemma ReplyKeepsKnown(self: Text, m: Services, x: Service, udp: P.port, order: seq<Text>, svc: Service)
    requires Known(m, svc)
    ensures Known(Apply(m, Arrive(self, P.Built(Announcement(x, true), udp)), order), svc)
  {
    hide P.Parse, P.Built, Known, Registered, Decode, Encoded;
    var mem := P.Built(Announcement(x, true), udp);
    if P.Parse(mem).Parsed? { P.AcceptedParts(Announcement(x, true), udp); }
    var r := Arrive(self, mem);
    if r.Change? { RegisteredKeepsKnown(m, r.svc, svc); }
  }

  /**
   * After the answers to a query have arrived, the asking node knows every service of the
   * answering node that can be announced at all.
   */
  lemma QueryTeachesServices(asker: Text, self: Text, all: seq<Service>, udp: P.port, m: Services, order: seq<Text>, svc: Service)
    requires svc in all && svc.node == self != asker && Announceable(svc)
    ensures Known(Received(asker, m, Replies(self, all, udp), order), svc)
  {
    hide Received, Packets, Announceable;
    FilterIn(all, OwnServices(self), svc);
    Teaches(asker, Filter(all, OwnServices(self)), udp, m, order, svc);
  }

  lemma {:induction false} Teaches(asker: Text, own: seq<Service>, udp: P.port, m: Services, order: seq<Text>, svc: Service)
    requires svc in own && svc.node != asker && Announceable(svc)
    ensures Known(Received(asker, m, Packets(own, udp), order), svc)
  {
    hide P.Parse, P.Built, Known, Registered, Decode, Encoded, Arrive, Announceable;
    var front, x := Front(own), Last(own);
    assert own == front + [x];
    assert Front(Packets(own, udp)) == Packets(front, udp) && Last(Packets(own, udp)) == P.Built(Announcement(x, true), udp);
    var m1 := Received(asker, m, Packets(front, udp), order);
    if x == svc {
      AnnouncementArrives(asker, svc, true, udp);
      RegisteredIsKnown(m1, svc);
    } else {
      Teaches(asker, front, udp, m, order, svc);
      ReplyKeepsKnown(asker, m1, x, udp, order, svc);
    }
  }

  /** What the answers add to the asking node's map are services of the answering node, and nothing is taken away. */
  lemma RepliesNameOnlySelf(asker: Text, self: Text, all: seq<Service>, udp: P.port, m: Services, order: seq<Text>, g: Text, e: Service)
    requires e in Group(Received(asker, m, Replies(self, all, udp), order), g)
    ensures e in Group(m, g) || e.node == Kept(self, P.NODE_WIDTH)
  {
    hide Received, Packets;
    var own := Filter(all, OwnServices(self));
    forall s | s in own ensures s.node == self { FilterIn(all, OwnServices(self), s); }
    OnlySelf(asker, self, own, udp, m, order, g, e);
  }

  lemma {:induction false} OnlySelf(asker: Text, self: Text, own: seq<Service>, udp: P.port, m: Services, order: seq<Text>, g: Text, e: Service)
    requires (forall s :: s in own ==> s.node == self) && e in Group(Received(asker, m, Packets(own, udp), order), g)
    ensures e in Group(m, g) || e.node == Kept(self, P.NODE_WIDTH)
  {
    hide P.Parse, P.Built, Registered, Decode, Encoded, Group, Kept;
    if own != [] {
      var front, x := Front(own), Last(own);
      assert Front(Packets(own, udp)) == Packets(front, udp) && Last(Packets(own, udp)) == P.Built(Announcement(x, true), udp);
      var m1 := Received(asker, m, Packets(front, udp), order);
      OneReply(asker, x, udp, m1, order, g, e);
      if e in Group(m1, g) { OnlySelf(asker, self, front, udp, m, order, g, e); }
    }
  }

  lemma OneReply(asker: Text, x: Service, udp: P.port, m: Services, order: seq<Text>, g: Text, e: Service)
    requires e in Group(Apply(m, Arrive(asker, P.Built(Announcement(x, true), udp)), order), g)
    ensures e in Group(m, g) || e.node == Kept(x.node, P.NODE_WIDTH)
  {
    hide P.Parse, P.Built, Registered, Decode, Encoded, Group, Kept;
    var mem := P.Built(Announcement(x, true), udp);
    if P.Parse(mem).Parsed? {
      P.AcceptedParts(Announcement(x, true), udp);
      var r := P.Parse(mem).message;
      DecodedNamesFit(r.node, r.group, r.topic, r.payload);
    }
    var r := Arrive(asker, mem);
    if r.Change? { RegisteredAdds(m, r.svc.group, r.svc, g, e); }
  }
}
