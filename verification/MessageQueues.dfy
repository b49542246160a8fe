/** The per-thread message queues of src/core/NodeImpl.cpp, with their overflow policies. */
module MessageQueues {
  import opened Subsequence

  const THREADS: nat := 4
  const MAX_BATCH: nat := 16

  datatype Message = Message(source: string, group: string, topic: string, payload: seq<int>)

  datatype Policy = DropOldest | DropNewest | Block

  /** What std::hash makes of the routing key is not fixed here. */
  type Hash = string -> nat

  function Route(hash: Hash, group: string, topic: string): (t: nat)
    ensures t < THREADS && (hash(group + ":" + topic) - t) % THREADS == 0
  {
    hash(group + ":" + topic) % THREADS
  }

  /** One queue after an enqueue; `limit` is at least 1. */
  function Pushed(q: seq<Message>, limit: nat, policy: Policy, m: Message): seq<Message>
    requires limit >= 1
  {
    if |q| < limit then q + [m]
    else if policy.DropNewest? then q
    else q[1..] + [m]
  }

  predicate Loses(q: seq<Message>, limit: nat) { |q| >= limit }

  type Subscriptions = map<string, set<string>>

  predicate Subscribed(subs: Subscriptions, group: string, topic: string) { group in subs && topic in subs[group] }

  // ------------------------------------------------------------------ whole runs

  /** `calls` and `taken` record, in order, the enqueues that passed the subscription test and the messages handed out; `lost` counts the rest. */
  datatype State = State(
    hash: Hash, limit: nat, policy: Policy, subs: Subscriptions, queues: seq<seq<Message>>, dropped: nat,
    calls: seq<Message>, taken: seq<Message>, lost: nat)

  datatype Action = Enqueue(msg: Message) | Batch(thread: nat) | Resubscribe(subs: Subscriptions)

  function Init(hash: Hash, limit: nat, policy: Policy): State {
    State(hash, limit, policy, map[], Empties(THREADS), 0, [], [], 0)
  }

  predicate Shape(s: State) { s.limit >= 1 && |s.queues| == THREADS }

  function BatchSize(q: seq<Message>): (k: nat)
    ensures k <= |q| && k <= MAX_BATCH && (k < MAX_BATCH ==> k == |q|)
  {
    if |q| < MAX_BATCH then |q| else MAX_BATCH
  }

  function StepEnqueue(s: State, m: Message): State
    requires Shape(s)
  {
    if !Subscribed(s.subs, m.group, m.topic) then s
    else
      var t := Route(s.hash, m.group, m.topic);
      s.(queues := s.queues[t := Pushed(s.queues[t], s.limit, s.policy, m)],
         dropped := s.dropped + (if Loses(s.queues[t], s.limit) && !s.policy.Block? then 1 else 0),
         calls := s.calls + [m],
         lost := s.lost + (if Loses(s.queues[t], s.limit) then 1 else 0))
  }

  function StepBatch(s: State, t: nat): State
    requires Shape(s) && t < THREADS
  {
    var q := s.queues[t];
    var k := BatchSize(q);
    s.(queues := s.queues[t := q[k..]], taken := s.taken + q[..k])
  }

  function Step(s: State, a: Action): State {
    if !Shape(s) then s
    else match a
    case Enqueue(m) => StepEnqueue(s, m)
    case Batch(t) => if t < THREADS then StepBatch(s, t) else s
    case Resubscribe(subs) => s.(subs := subs)
  }

  function Run(s: State, schedule: seq<Action>): State {
    if schedule == [] then s
    else Step(Run(s, schedule[..|schedule| - 1]), schedule[|schedule| - 1])
  }

  // ------------------------------------------------------------------ invariant

  function OnThread(hash: Hash, t: nat): Message -> bool { (m: Message) => Route(hash, m.group, m.topic) == t }

  /** What thread `t` has handed out and still holds is an in-order selection of what was routed to it. */
  ghost predicate ThreadOk(hash: Hash, limit: nat, q: seq<Message>, calls: seq<Message>, taken: seq<Message>, t: nat) {
    && |q| <= limit
    && (forall m :: m in q ==> OnThread(hash, t)(m))
    && Subseq(Filter(taken, OnThread(hash, t)) + q, Filter(calls, OnThread(hash, t)))
  }

  function Total(qs: seq<seq<Message>>): nat { if qs == [] then 0 else Total(Front(qs)) + |Last(qs)| }

  /** Every accepted call is handed out, queued or dropped; only BLOCK drops without counting. */
  ghost predicate Account(s: State) {
    && |s.calls| == |s.taken| + Total(s.queues) + s.lost
    && s.dropped == (if s.policy.Block? then 0 else s.lost)
  }

  ghost predicate Inv(s: State) {
    && Shape(s)
    && (forall t :: 0 <= t < THREADS ==> ThreadOk(s.hash, s.limit, s.queues[t], s.calls, s.taken, t))
    && Account(s)
  }

  lemma {:induction false} TotalSet(qs: seq<seq<Message>>, i: nat, q: seq<Message>)
    requires i < |qs|
    ensures Total(qs[i := q]) == Total(qs) - |qs[i]| + |q|
  {
    if i == |qs| - 1 {
      assert Front(qs[i := q]) == Front(qs);
    } else {
      TotalSet(Front(qs), i, q);
      assert Front(qs[i := q]) == Front(qs)[i := q];
    }
  }

  function Empties(n: nat): (qs: seq<seq<Message>>)
    ensures |qs| == n && forall i :: 0 <= i < n ==> qs[i] == []
  {
    seq(n, _ => [])
  }

  lemma {:induction false} TotalEmpty(n: nat)
    ensures Total(Empties(n)) == 0
  {
    if n > 0 {
      TotalEmpty(n - 1);
      assert Front(Empties(n)) == Empties(n - 1);
    }
  }

  /** An enqueue on its own thread. */
  lemma PushOk(hash: Hash, limit: nat, policy: Policy, q: seq<Message>, calls: seq<Message>, taken: seq<Message>, t: nat, m: Message)
    requires limit >= 1 && ThreadOk(hash, limit, q, calls, taken, t) && OnThread(hash, t)(m)
    ensures ThreadOk(hash, limit, Pushed(q, limit, policy, m), calls + [m], taken, t)
  {
    hide Subseq, Filter;
    var p := OnThread(hash, t);
    var out, log := Filter(taken, p), Filter(calls, p);
    assert Filter(calls + [m], p) == log + [m] by { FilterConcat(calls, [m], p); FilterAll([m], p); }
    if |q| < limit {
      SubseqExtend(out + q, log, m);
      assert out + (q + [m]) == (out + q) + [m];
    } else if policy.DropNewest? {
      SubseqExtend(out + q, log, m);
    } else {
      SubseqDrop(out + q, log, |out|);
      assert (out + q)[..|out|] + (out + q)[|out| + 1..] == out + q[1..];
      SubseqExtend(out + q[1..], log, m);
      assert out + (q[1..] + [m]) == (out + q[1..]) + [m];
    }
  }

  /** An enqueue on another thread. */
  lemma OtherOk(hash: Hash, limit: nat, q: seq<Message>, calls: seq<Message>, taken: seq<Message>, t: nat, m: Message)
    requires ThreadOk(hash, limit, q, calls, taken, t) && !OnThread(hash, t)(m)
    ensures ThreadOk(hash, limit, q, calls + [m], taken, t)
  {
    hide Subseq, Filter;
    var p := OnThread(hash, t);
    FilterConcat(calls, [m], p);
    FilterNone([m], p);
    assert Filter(calls, p) + [] == Filter(calls, p);
  }

  lemma EnqueueKeepsInv(s: State, m: Message)
    requires Inv(s)
    ensures Inv(StepEnqueue(s, m))
  {
    hide ThreadOk, Route, Total;
    if Subscribed(s.subs, m.group, m.topic) {
      var s' := StepEnqueue(s, m);
      var r := Route(s.hash, m.group, m.topic);
      assert |s.queues[r]| <= s.limit by { QueueBound(s, r); }
      TotalSet(s.queues, r, Pushed(s.queues[r], s.limit, s.policy, m));
      forall t | 0 <= t < THREADS
        ensures ThreadOk(s.hash, s.limit, s'.queues[t], s'.calls, s'.taken, t)
      {
        if t == r { PushOk(s.hash, s.limit, s.policy, s.queues[t], s.calls, s.taken, t, m); }
        else { OtherOk(s.hash, s.limit, s.queues[t], s.calls, s.taken, t, m); }
      }
    }
  }

  lemma QueueBound(s: State, t: nat)
    requires Inv(s) && t < THREADS
    ensures |s.queues[t]| <= s.limit
  {
    assert ThreadOk(s.hash, s.limit, s.queues[t], s.calls, s.taken, t);
  }

  lemma TakeOk(hash: Hash, limit: nat, q: seq<Message>, calls: seq<Message>, taken: seq<Message>, t: nat, k: nat)
    requires ThreadOk(hash, limit, q, calls, taken, t) && k <= |q|
    ensures ThreadOk(hash, limit, q[k..], calls, taken + q[..k], t)
  {
    hide Subseq, Filter;
    var p := OnThread(hash, t);
    FilterConcat(taken, q[..k], p);
    FilterAll(q[..k], p);
    assert Filter(taken, p) + q == (Filter(taken, p) + q[..k]) + q[k..];
  }

  lemma UntouchedOk(hash: Hash, limit: nat, q: seq<Message>, calls: seq<Message>, taken: seq<Message>, t: nat, more: seq<Message>)
    requires ThreadOk(hash, limit, q, calls, taken, t) && forall m :: m in more ==> !OnThread(hash, t)(m)
    ensures ThreadOk(hash, limit, q, calls, taken + more, t)
  {
    hide Subseq, Filter;
    var p := OnThread(hash, t);
    FilterConcat(taken, more, p);
    FilterNone(more, p);
    assert Filter(taken, p) + [] == Filter(taken, p);
  }

  lemma OneThread(hash: Hash, q: seq<Message>, r: nat, t: nat)
    requires (forall m :: m in q ==> OnThread(hash, r)(m)) && t != r
    ensures forall m :: m in q ==> !OnThread(hash, t)(m)
  {
  }

  lemma BatchKeepsInv(s: State, r: nat)
    requires Inv(s) && r < THREADS
    ensures Inv(StepBatch(s, r))
  {
    hide Subseq, Filter, Total, Route;
    var s', q := StepBatch(s, r), s.queues[r];
    var k := BatchSize(q);
    assert ThreadOk(s.hash, s.limit, q, s.calls, s.taken, r);
    TotalSet(s.queues, r, q[k..]);
    forall t | 0 <= t < THREADS
      ensures ThreadOk(s.hash, s.limit, s'.queues[t], s'.calls, s'.taken, t)
    {
      if t == r { TakeOk(s.hash, s.limit, q, s.calls, s.taken, t, k); }
      else {
        OneThread(s.hash, q, r, t);
        UntouchedOk(s.hash, s.limit, s.queues[t], s.calls, s.taken, t, q[..k]);
      }
    }
  }

  lemma {:induction false} RunKeepsInv(hash: Hash, limit: nat, policy: Policy, schedule: seq<Action>)
    requires limit >= 1
    ensures var s := Run(Init(hash, limit, policy), schedule);
      Inv(s) && s.hash == hash && s.limit == limit && s.policy == policy
  {
    if schedule == [] {
      TotalEmpty(THREADS);
    } else {
      hide Inv, StepEnqueue, StepBatch;
      RunKeepsInv(hash, limit, policy, schedule[..|schedule| - 1]);
      StepKeepsInv(Run(Init(hash, limit, policy), schedule[..|schedule| - 1]), schedule[|schedule| - 1]);
    }
  }

  lemma StepKeepsInv(s: State, a: Action)
    requires Inv(s)
    ensures var s' := Step(s, a); Inv(s') && s'.hash == s.hash && s'.limit == s.limit && s'.policy == s.policy
  {
    hide ThreadOk, Total;
    match a
    case Enqueue(m) => EnqueueKeepsInv(s, m);
    case Batch(t) => if t < THREADS { BatchKeepsInv(s, t); }
    case Resubscribe(_) =>
  }

  // ------------------------------------------------------------------ what a subscriber sees

  function OnTopic(group: string, topic: string): Message -> bool {
    (m: Message) => m.group == group && m.topic == topic
  }

  /**
   * For a fixed policy and a limit of at least 1, every run keeps each queue within the limit and
   * hands out the messages of each (group, topic) in the order in which they were enqueued, with
   * some possibly left out. Accepted calls are handed out, queued or dropped; DROP_OLDEST and
   * DROP_NEWEST count every drop, BLOCK counts none.
   */
  lemma EveryRunIsOrdered(hash: Hash, limit: nat, policy: Policy, schedule: seq<Action>, group: string, topic: string)
    requires limit >= 1
    ensures var s := Run(Init(hash, limit, policy), schedule);
      && |s.queues| == THREADS && (forall t :: 0 <= t < THREADS ==> |s.queues[t]| <= limit)
      && Subseq(Filter(s.taken, OnTopic(group, topic)), Filter(s.calls, OnTopic(group, topic)))
      && |s.calls| == |s.taken| + Total(s.queues) + s.lost
      && s.dropped == (if policy.Block? then 0 else s.lost)
  {
    hide Subseq, Filter, Total, Route, Run;
    RunKeepsInv(hash, limit, policy, schedule);
    var s := Run(Init(hash, limit, policy), schedule);
    forall t | 0 <= t < THREADS
      ensures |s.queues[t]| <= limit
    {
      QueueBound(s, t);
    }
    var t := Route(hash, group, topic);
    var p, q := OnTopic(group, topic), OnThread(hash, t);
    assert ThreadOk(hash, limit, s.queues[t], s.calls, s.taken, t);
    var out := Filter(s.taken, q);
    SubseqPrefix(out + s.queues[t], Filter(s.calls, q), |out|);
    assert (out + s.queues[t])[..|out|] == out;
    SubseqFilter(out, Filter(s.calls, q), p);
    FilterTwice(s.taken, p, q);
    FilterTwice(s.calls, p, q);
  }

  // ------------------------------------------------------------------ what is enqueued, and when something is lost

  /**
   * An enqueue is taken up exactly when the node is then subscribed to the message's group and
   * topic, and counts as a loss exactly when it then meets a queue of `limit` messages.
   */
  lemma EnqueueIff(s: State, m: Message)
    requires Shape(s)
    ensures var s' := Step(s, Enqueue(m));
      && (s'.calls == s.calls + [m] <==> m.group in s.subs && m.topic in s.subs[m.group])
      && (!(m.group in s.subs && m.topic in s.subs[m.group]) ==> s' == s)
      && (s'.lost == s.lost + 1 <==> Overflows(s, Enqueue(m))) && (s'.lost == s.lost <==> !Overflows(s, Enqueue(m)))
  {
    hide Route;
    assert s.calls + [m] != s.calls by { assert |s.calls + [m]| != |s.calls|; }
  }

  /** The enqueue of a subscribed message that meets a full queue. */
  predicate Overflows(s: State, a: Action) {
    && a.Enqueue? && Shape(s) && a.msg.group in s.subs && a.msg.topic in s.subs[a.msg.group]
    && |s.queues[Route(s.hash, a.msg.group, a.msg.topic)]| >= s.limit
  }

  ghost predicate NeverFull(s: State, schedule: seq<Action>) {
    forall k :: 0 <= k < |schedule| ==> !Overflows(Run(s, schedule[..k]), schedule[k])
  }

  lemma LostStep(s: State, a: Action)
    requires Shape(s)
    ensures Shape(Step(s, a)) && Step(s, a).lost == s.lost + (if Overflows(s, a) then 1 else 0)
  {
    hide Route;
  }

  /** Over every run nothing is lost exactly when no message meets a full queue. */
  lemma {:induction false} LostIffFull(s: State, schedule: seq<Action>)
    requires Shape(s)
    ensures Shape(Run(s, schedule)) && Run(s, schedule).lost >= s.lost
    ensures Run(s, schedule).lost == s.lost <==> NeverFull(s, schedule)
  {
    if schedule != [] {
      hide Step, Overflows, Shape, NeverFull;
      var n := |schedule| - 1;
      LostIffFull(s, schedule[..n]);
      LostStep(Run(s, schedule[..n]), schedule[n]);
      NeverFullLast(s, schedule);
    }
  }

  lemma NeverFullLast(s: State, schedule: seq<Action>)
    requires schedule != []
    ensures var n := |schedule| - 1;
      NeverFull(s, schedule) <==> NeverFull(s, schedule[..n]) && !Overflows(Run(s, schedule[..n]), schedule[n])
  {
    hide Overflows, Run;
    var n := |schedule| - 1;
    var front := schedule[..n];
    assert forall k :: 0 <= k < n ==> schedule[..k] == front[..k] && schedule[k] == front[k];
    if NeverFull(s, schedule) {
      assert !Overflows(Run(s, schedule[..n]), schedule[n]);
      forall k | 0 <= k < n ensures !Overflows(Run(s, front[..k]), front[k]) {
        assert !Overflows(Run(s, schedule[..k]), schedule[k]);
      }
    }
    if NeverFull(s, front) && !Overflows(Run(s, front), schedule[n]) {
      forall k | 0 <= k < |schedule| ensures !Overflows(Run(s, schedule[..k]), schedule[k]) {
        if k < n { assert !Overflows(Run(s, front[..k]), front[k]); }
      }
    }
  }

  /** A batch hands out the oldest messages of its thread, at most 16, and fewer only when it empties the queue. */
  lemma BatchHandsOut(s: State, t: nat)
    requires Shape(s) && t < THREADS
    ensures var s' := Step(s, Batch(t));
      && Shape(s') && |s'.taken| >= |s.taken| && s'.taken[..|s.taken|] == s.taken
      && s'.taken[|s.taken|..] + s'.queues[t] == s.queues[t]
      && |s'.taken| - |s.taken| <= 16 && (|s'.taken| - |s.taken| < 16 ==> s'.queues[t] == [])
      && (forall u :: 0 <= u < THREADS && u != t ==> s'.queues[u] == s.queues[u])
  {
  }

  /** A change of subscriptions takes effect at once, and on nothing else. */
  lemma ResubscribeSets(s: State, subs: Subscriptions)
    requires Shape(s)
    ensures Step(s, Resubscribe(subs)) == s.(subs := subs)
  {
  }

  // ------------------------------------------------------------------ which messages an overflow loses

  /** The queue holds the newest messages routed to it. */
  ghost predicate HoldsNewest(hash: Hash, q: seq<Message>, calls: seq<Message>, t: nat) {
    var log := Filter(calls, OnThread(hash, t));
    |q| <= |log| && log[|log| - |q|..] == q
  }

  lemma NewestAfterCall(hash: Hash, limit: nat, policy: Policy, q: seq<Message>, calls: seq<Message>, t: nat, m: Message)
    requires limit >= 1 && !policy.DropNewest? && HoldsNewest(hash, q, calls, t)
    ensures OnThread(hash, t)(m) ==> HoldsNewest(hash, Pushed(q, limit, policy, m), calls + [m], t)
    ensures !OnThread(hash, t)(m) ==> HoldsNewest(hash, q, calls + [m], t)
  {
    hide Filter, Route;
    var p := OnThread(hash, t);
    var log := Filter(calls, p);
    FilterConcat(calls, [m], p);
    if p(m) {
      FilterAll([m], p);
      var q', log' := Pushed(q, limit, policy, m), log + [m];
      assert log'[|log'| - |q'|..] == log[|log| - (|q'| - 1)..] + [m];
    } else {
      FilterNone([m], p);
      assert log + [] == log;
    }
  }

  lemma NewestAfterStep(s: State, a: Action, t: nat)
    requires Shape(s) && !s.policy.DropNewest? && t < THREADS && HoldsNewest(s.hash, s.queues[t], s.calls, t)
    ensures var s' := Step(s, a); HoldsNewest(s'.hash, s'.queues[t], s'.calls, t)
  {
    hide Filter, Route;
    match a
    case Enqueue(m) =>
      hide HoldsNewest;
      NewestAfterCall(s.hash, s.limit, s.policy, s.queues[t], s.calls, t, m);
    case Batch(r) =>
    case Resubscribe(_) =>
  }

  /** DROP_OLDEST and BLOCK: every queue always holds exactly the newest messages routed to its thread. */
  lemma {:induction false} OldestAreLost(hash: Hash, limit: nat, policy: Policy, schedule: seq<Action>, t: nat)
    requires limit >= 1 && !policy.DropNewest? && t < THREADS
    ensures var s := Run(Init(hash, limit, policy), schedule);
      |s.queues| == THREADS && HoldsNewest(hash, s.queues[t], s.calls, t)
  {
    if schedule != [] {
      hide HoldsNewest, Step, Inv;
      var before := schedule[..|schedule| - 1];
      OldestAreLost(hash, limit, policy, before, t);
      NewestAfterStep(ShapedRun(hash, limit, policy, before), schedule[|schedule| - 1], t);
      assert Run(Init(hash, limit, policy), schedule) == ShapedRun(hash, limit, policy, schedule);
    }
  }

  /** The state a run ends in. */
  ghost function ShapedRun(hash: Hash, limit: nat, policy: Policy, schedule: seq<Action>): (s: State)
    requires limit >= 1
    ensures Shape(s) && s.hash == hash && s.limit == limit && s.policy == policy && Inv(s)
  {
    RunKeepsInv(hash, limit, policy, schedule);
    Run(Init(hash, limit, policy), schedule)
  }

  /** What thread `t` has handed out, followed by what it holds. */
  function Kept(s: State, t: nat): seq<Message>
    requires Shape(s) && t < THREADS
  {
    Filter(s.taken, OnThread(s.hash, t)) + s.queues[t]
  }

  lemma KeptAfterStep(s: State, a: Action, t: nat)
    requires Inv(s) && s.policy.DropNewest? && t < THREADS
    ensures Shape(Step(s, a)) && Kept(s, t) <= Kept(Step(s, a), t)
  {
    hide Filter, Subseq, Route, Total;
    match a
    case Enqueue(_) =>
    case Resubscribe(_) =>
    case Batch(r) =>
      if r < THREADS {
        var q, p := s.queues[r], OnThread(s.hash, t);
        var k := BatchSize(q);
        assert ThreadOk(s.hash, s.limit, q, s.calls, s.taken, r);
        FilterConcat(s.taken, q[..k], p);
        if t == r {
          FilterAll(q[..k], p);
          assert Kept(Step(s, a), t) == Filter(s.taken, p) + q[..k] + q[k..] == Kept(s, t);
        } else {
          OneThread(s.hash, q, r, t);
          FilterNone(q[..k], p);
          assert Kept(Step(s, a), t) == Kept(s, t);
        }
      }
  }

  /** DROP_NEWEST: a message once queued is handed out in its place; nothing already kept is ever displaced. */
  lemma {:induction false} NewestAreLost(hash: Hash, limit: nat, schedule: seq<Action>, more: seq<Action>, t: nat)
    requires limit >= 1 && t < THREADS
    ensures Kept(ShapedRun(hash, limit, DropNewest, schedule), t)
            <= Kept(ShapedRun(hash, limit, DropNewest, schedule + more), t)
    decreases |more|
  {
    if more == [] {
      assert schedule + more == schedule;
    } else {
      hide Step, Inv;
      var most := more[..|more| - 1];
      NewestAreLost(hash, limit, schedule, most, t);
      KeptAfterStep(ShapedRun(hash, limit, DropNewest, schedule + most), more[|more| - 1], t);
      assert (schedule + more)[..|schedule + more| - 1] == schedule + most;
    }
  }

  // ------------------------------------------------------------------ in place

  /** The topics of a list that are not empty. */
  ghost function Named(topics: seq<string>): set<string> { set t | t in topics && t != "" }

  lemma NamedMore(topics: seq<string>, i: nat)
    requires i < |topics|
    ensures Named(topics[..i + 1]) == Named(topics[..i]) + if topics[i] != "" then {topics[i]} else {}
  {
    assert topics[..i + 1] == topics[..i] + [topics[i]];
  }

  class Node {
    const hash: Hash
    const queues: array<seq<Message>>
    var limit: nat
    var policy: Policy
    var subs: Subscriptions
    var dropped: nat

    ghost predicate Valid()
      reads this
    {
      queues.Length == THREADS && limit >= 1
    }

    ghost function View(calls: seq<Message>, taken: seq<Message>, lost: nat): State
      reads this, queues
    {
      State(hash, limit, policy, subs, queues[..], dropped, calls, taken, lost)
    }

    constructor (hash: Hash, limit: nat, policy: Policy)
      requires limit >= 1
      ensures Valid() && fresh(queues) && View([], [], 0) == Init(hash, limit, policy)
    {
      this.hash, this.limit, this.policy := hash, limit, policy;
      queues := new seq<Message>[THREADS](_ => []);
      subs, dropped := map[], 0;
      new;
      assert queues[..] == Empties(THREADS);
    }

    method EnqueueMessage(m: Message, ghost calls: seq<Message>, ghost taken: seq<Message>, ghost lost: nat)
      requires Valid()
      modifies this`dropped, queues
      ensures Valid()
      ensures var s := StepEnqueue(old(View(calls, taken, lost)), m); View(s.calls, s.taken, s.lost) == s
    {
      hide Route;
      if m.group !in subs || m.topic !in subs[m.group] {
        return;
      }
      var t := Route(hash, m.group, m.topic);
      ghost var was := queues[..];
      if |queues[t]| >= limit {
        match policy
        case DropOldest =>
          queues[t] := queues[t][1..] + [m];
          dropped := dropped + 1;
        case DropNewest =>
          dropped := dropped + 1;
        case Block =>
          queues[t] := queues[t][1..] + [m];
      } else {
        queues[t] := queues[t] + [m];
      }
      assert queues[..] == was[t := Pushed(was[t], limit, policy, m)];
    }

    /** subscribe, as far as the subscription map goes: the named topics join those of the group; empty ones are skipped. */
    method Subscribe(group: string, topics: seq<string>) returns (ok: bool)
      requires Valid()
      modifies this`subs
      ensures Valid() && (ok <==> group != "" && topics != []) && (!ok ==> subs == old(subs))
      ensures forall g, t :: Subscribed(subs, g, t) <==>
        Subscribed(old(subs), g, t) || (ok && g == group && t in topics && t != "")
    {
      if group == "" || topics == [] {
        return false;
      }
      var before := if group in subs then subs[group] else {};
      subs := subs[group := before];
      assert before + Named(topics[..0]) == before;
      for i := 0 to |topics|
        invariant group in subs && subs[group] == before + Named(topics[..i])
        invariant subs == old(subs)[group := subs[group]]
      {
        NamedMore(topics, i);
        if topics[i] != "" {
          subs := subs[group := subs[group] + {topics[i]}];
        }
      }
      assert topics[..|topics|] == topics && subs[group] == before + Named(topics);
      ok := true;
    }

    /** One batch of messageProcessingThread. */
    method TakeBatch(t: nat, ghost calls: seq<Message>, ghost taken: seq<Message>, ghost lost: nat) returns (batch: seq<Message>)
      requires Valid() && t < THREADS
      modifies queues
      ensures Valid() && batch == old(queues[t])[..BatchSize(old(queues[t]))]
      ensures View(calls, taken + batch, lost) == StepBatch(old(View(calls, taken, lost)), t)
    {
      ghost var was := queues[..];
      batch := [];
      while queues[t] != [] && |batch| < MAX_BATCH
        invariant |batch| <= |was[t]| && |batch| <= MAX_BATCH
        invariant batch == was[t][..|batch|] && queues[..] == was[t := was[t][|batch|..]]
        decreases |queues[t]|
      {
        batch := batch + [queues[t][0]];
        queues[t] := queues[t][1..];
      }
    }
  }
}
