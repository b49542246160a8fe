/** What counts as the same service in the service map, and that every registered one is found there. */
module ServiceKeys {
  import opened Bytes
  import opened Subsequence
  import opened ServiceRegistry

  // ------------------------------------------------------------------ the key

  /** What a capability says after the group. */
  function Suffix(s: Service): Text { if s.kind == LARGE_DATA then s.channel + [SLASH] + s.topic else s.topic }

  /** Within one group, two services of a node have the same key exactly when their suffixes agree as texts. */
  lemma SameKeyIff(a: Service, b: Service)
    requires a.group == b.group
    ensures SameKey(a, b) <==> a.node == b.node && Suffix(a) == Suffix(b)
  {
    var g := a.group + [SLASH];
    assert Capability(a) == g + Suffix(a) && Capability(b) == g + Suffix(b);
    assert Capability(a)[|g|..] == Suffix(a) && Capability(b)[|g|..] == Suffix(b);
  }

  predicate Plain(s: Service) { SLASH !in s.channel && SLASH !in s.topic }

  /** Without slashes in the names the key is just what it should be: node, topic and, for large data, channel. */
  lemma PlainKeyIff(a: Service, b: Service)
    requires a.group == b.group && Plain(a) && Plain(b)
    ensures SameKey(a, b) <==>
      && a.node == b.node && a.topic == b.topic
      && (a.kind == LARGE_DATA <==> b.kind == LARGE_DATA) && (a.kind == LARGE_DATA ==> a.channel == b.channel)
  {
    hide SameKey;
    SameKeyIff(a, b);
    SlashIff(a);
    SlashIff(b);
    if Suffix(a) == Suffix(b) && a.kind == LARGE_DATA && b.kind == LARGE_DATA {
      SlashSplits(a.channel, a.topic, b.channel, b.topic);
    }
  }

  lemma SlashIff(s: Service)
    requires Plain(s)
    ensures SLASH in Suffix(s) <==> s.kind == LARGE_DATA
  {
    if s.kind == LARGE_DATA { assert Suffix(s)[|s.channel|] == SLASH; }
  }

  lemma SlashSplits(c: Text, t: Text, c': Text, t': Text)
    requires SLASH !in c && SLASH !in c' && c + [SLASH] + t == c' + [SLASH] + t'
    ensures c == c' && t == t'
  {
    var s := c + [SLASH] + t;
    assert s[|c|] == SLASH && s[|c'|] == SLASH;
    assert forall j :: 0 <= j < |c| ==> s[j] == c[j] && s[j] != SLASH;
    assert forall j :: 0 <= j < |c'| ==> s[j] == c'[j] && s[j] != SLASH;
    assert |c| == |c'|;
    assert s[..|c|] == c && s[..|c'|] == c';
    assert s[|c| + 1..] == t && s[|c'| + 1..] == t';
  }

  /** With a slash in a topic two different services can have one key: a normal one on "c/t" and a large-data one on channel c and topic t. */
  lemma KeysCollide(normal: Service, large: Service)
    requires normal.node == large.node && normal.group == large.group
    requires normal.kind == NORMAL_MESSAGE && large.kind == LARGE_DATA
    requires normal.topic == large.channel + [SLASH] + large.topic
    ensures SameKey(normal, large) && normal.topic != large.topic
  {
    SameKeyIff(normal, large);
    assert |normal.topic| > |large.topic|;
  }

  // ------------------------------------------------------------------ what is found

  /** An entry for the service's node and capability, through shared memory if the service is. */
  ghost predicate Known(m: Services, svc: Service) {
    exists e :: e in Group(m, svc.group) && SameKey(e, svc) && (svc.transport == SHARED_MEMORY ==> e.transport == SHARED_MEMORY)
  }

  lemma RegisteredIsKnown(m: Services, svc: Service)
    ensures Known(Registered(m, svc.group, svc), svc)
  {
    hide Capability;
    var vec := Group(m, svc.group);
    var i, vec' := FirstMatch(vec, svc), Enrolled(vec, svc);
    assert vec'[i] in vec' && SameKey(vec'[i], svc);
    assert Group(Registered(m, svc.group, svc), svc.group) == vec';
  }

  /** No registration makes a service unknown, or takes it off shared memory. */
  lemma RegisteredKeepsKnown(m: Services, x: Service, svc: Service)
    requires Known(m, svc)
    ensures Known(Registered(m, x.group, x), svc)
  {
    hide Capability;
    if x.group == svc.group {
      var vec := Group(m, svc.group);
      var e :| e in vec && SameKey(e, svc) && (svc.transport == SHARED_MEMORY ==> e.transport == SHARED_MEMORY);
      var k :| 0 <= k < |vec| && vec[k] == e;
      var vec' := Enrolled(vec, x);
      assert vec'[k] in vec' && SameKey(vec'[k], svc);
      assert Group(Registered(m, x.group, x), svc.group) == vec';
    } else {
      assert Group(Registered(m, x.group, x), svc.group) == Group(m, svc.group);
    }
  }

  /** A registration adds at most the service it is about. */
  lemma RegisteredAdds(m: Services, at: Text, svc: Service, g: Text, e: Service)
    requires e in Group(Registered(m, at, svc), g)
    ensures e in Group(m, g) || (e == svc && g == at)
  {
    hide SameKey;
  }

  lemma {:induction false} EntriesWereRegistered(regs: seq<(Text, Service)>, g: Text, e: Service)
    requires e in Group(RegisterAll(regs), g)
    ensures (g, e) in regs
  {
    if regs != [] {
      hide Registered;
      assert regs == Front(regs) + [Last(regs)];
      RegisteredAdds(RegisterAll(Front(regs)), Last(regs).0, Last(regs).1, g, e);
      if e in Group(RegisterAll(Front(regs)), g) { EntriesWereRegistered(Front(regs), g, e); }
    }
  }

  predicate OwnGroup(reg: (Text, Service)) { reg.0 == reg.1.group }

  lemma {:induction false} RegisteredStaysKnown(regs: seq<(Text, Service)>, svc: Service)
    requires (svc.group, svc) in regs && forall reg :: reg in regs ==> OwnGroup(reg)
    ensures Known(RegisterAll(regs), svc)
  {
    hide Known, Registered;
    var front, reg := Front(regs), Last(regs);
    assert regs == front + [reg] && OwnGroup(reg);
    if reg == (svc.group, svc) {
      RegisteredIsKnown(RegisterAll(front), svc);
    } else {
      RegisteredStaysKnown(front, svc);
      RegisteredKeepsKnown(RegisterAll(front), reg.1, svc);
    }
  }

  /** An entry for the same node, topic and, for large data, channel, through shared memory if that was ever registered. */
  predicate Stands(e: Service, svc: Service) {
    && e.node == svc.node && e.topic == svc.topic
    && (e.kind == LARGE_DATA <==> svc.kind == LARGE_DATA) && (svc.kind == LARGE_DATA ==> e.channel == svc.channel)
    && (svc.transport == SHARED_MEMORY ==> e.transport == SHARED_MEMORY)
  }

  /**
   * After any sequence of registrations, each under its own group and with plain names, every
   * registered service is found in its group: one entry stands for it, and only one.
   */
  lemma RegisteredIsFound(regs: seq<(Text, Service)>, svc: Service)
    requires (svc.group, svc) in regs && forall reg :: reg in regs ==> OwnGroup(reg) && Plain(reg.1)
    ensures exists e :: e in Group(RegisterAll(regs), svc.group) && Stands(e, svc)
    ensures forall e :: e in Group(RegisterAll(regs), svc.group) ==>
      (SameKey(e, svc) <==>
         && e.node == svc.node && e.topic == svc.topic && (e.kind == LARGE_DATA <==> svc.kind == LARGE_DATA)
         && (svc.kind == LARGE_DATA ==> e.channel == svc.channel))
  {
    hide RegisterAll, SameKey, Plain;
    var vec := Group(RegisterAll(regs), svc.group);
    assert Plain((svc.group, svc).1);
    forall e | e in vec
      ensures SameKey(e, svc) <==>
         && e.node == svc.node && e.topic == svc.topic && (e.kind == LARGE_DATA <==> svc.kind == LARGE_DATA)
         && (svc.kind == LARGE_DATA ==> e.channel == svc.channel)
    {
      EntriesWereRegistered(regs, svc.group, e);
      assert OwnGroup((svc.group, e)) && Plain((svc.group, e).1);
      PlainKeyIff(e, svc);
    }
    RegisteredStaysKnown(regs, svc);
    var e :| e in vec && SameKey(e, svc) && (svc.transport == SHARED_MEMORY ==> e.transport == SHARED_MEMORY);
    assert Stands(e, svc);
  }
}
