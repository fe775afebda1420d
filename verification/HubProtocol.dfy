/**
 The fan-out protocol as a machine whose steps interleave freely: clients subscribe, unsubscribe and consume
 while one broadcaster takes a snapshot of a channel and then sends to the clients in it, one at a time.
 */
module HubProtocol {
  import opened Subscriptions

  const CAPACITY := 64

  datatype Event = Event(channel: string, payload: string)

  /** Where the broadcaster is: between broadcasts, choosing the next client, or about to unsubscribe one. */
  datatype Pc =
    | Idle
    | Sending(event: Event, pending: set<nat>)
    | Dropping(event: Event, pending: set<nat>, client: nat)

  /** `home` and `since` are where and when a client subscribed; `sent` is every broadcast of a channel so far. */
  datatype Hub = Hub(
    subs: Subs<nat>,
    buffers: map<nat, seq<string>>,
    taken: map<nat, seq<string>>,
    quit: set<nat>,
    home: map<nat, string>,
    since: map<nat, nat>,
    sent: map<string, seq<string>>,
    pc: Pc)

  const EMPTY := Hub(map[], map[], map[], {}, map[], map[], map[], Idle)

  function Sent(h: Hub, channel: string): seq<string> {
    if channel in h.sent then h.sent[channel] else []
  }

  datatype Step =
    | Subscribe(client: nat, channel: string)
    | Unsubscribe(channel: string, client: nat)
    | Consume(client: nat)
    | Snapshot(event: Event)
    | Send(client: nat)
    | SeeQuit(client: nat)
    | SeeFull(client: nat)
    | Drop
    | Finish

  predicate Enabled(h: Hub, step: Step) {
    match step
    case Subscribe(c, _) => c !in h.buffers
    case Unsubscribe(_, c) => c in h.buffers
    case Consume(c) => c in h.buffers && c in h.taken && h.buffers[c] != []
    case Snapshot(_) => h.pc.Idle?
    case Send(c) => h.pc.Sending? && c in h.pc.pending && c in h.buffers && |h.buffers[c]| < CAPACITY
    case SeeQuit(c) => h.pc.Sending? && c in h.pc.pending && c in h.quit
    case SeeFull(c) =>
      h.pc.Sending? && c in h.pc.pending && c in h.buffers && c !in h.quit && |h.buffers[c]| >= CAPACITY
    case Drop => h.pc.Dropping?
    case Finish => h.pc.Sending? && h.pc.pending == {}
  }

  /** When both the buffer has room and the client has quit, `Send` and `SeeQuit` are both possible. */
  function Take(h: Hub, step: Step): Hub
    requires Enabled(h, step)
  {
    match step
    case Subscribe(c, ch) =>
      h.(subs := Join(h.subs, ch, c), buffers := h.buffers[c := []], taken := h.taken[c := []],
         home := h.home[c := ch], since := h.since[c := |Sent(h, ch)|])
    case Unsubscribe(ch, c) => h.(subs := Leave(h.subs, ch, c), quit := h.quit + {c})
    case Consume(c) =>
      h.(buffers := h.buffers[c := h.buffers[c][1..]], taken := h.taken[c := h.taken[c] + [h.buffers[c][0]]])
    case Snapshot(e) =>
      h.(sent := h.sent[e.channel := Sent(h, e.channel) + [e.payload]], pc := Sending(e, Members(h.subs, e.channel)))
    case Send(c) =>
      h.(buffers := h.buffers[c := h.buffers[c] + [h.pc.event.payload]], pc := Sending(h.pc.event, h.pc.pending - {c}))
    case SeeQuit(c) => h.(pc := Dropping(h.pc.event, h.pc.pending - {c}, c))
    case SeeFull(c) => h.(pc := Dropping(h.pc.event, h.pc.pending - {c}, c))
    case Drop =>
      h.(subs := Leave(h.subs, h.pc.event.channel, h.pc.client), quit := h.quit + {h.pc.client},
         pc := Sending(h.pc.event, h.pc.pending))
    case Finish => h.(pc := Idle)
  }

  ghost predicate Run(h: Hub, steps: seq<Step>, end: Hub)
    decreases |steps|
  {
    if steps == [] then end == h
    else Enabled(h, steps[0]) && Run(Take(h, steps[0]), steps[1..], end)
  }

  // ----- what every interleaving keeps

  /** The broadcast in progress has this client still to serve. */
  predicate Owed(h: Hub, c: nat) {
    (h.pc.Sending? && c in h.pc.pending) || (h.pc.Dropping? && (c in h.pc.pending || c == h.pc.client))
  }

  /** Everything a client has been given: what it consumed, then what is waiting in its buffer. */
  function Given(h: Hub, c: nat): seq<string>
    requires c in h.buffers && c in h.taken
  {
    h.taken[c] + h.buffers[c]
  }

  predicate Known(h: Hub, c: nat) {
    c in h.buffers && c in h.taken && c in h.home && c in h.since
  }

  /** How many broadcasts of its channel the client has been through. */
  function Reached(h: Hub, c: nat): nat
    requires Known(h, c)
  {
    h.since[c] + |Given(h, c)|
  }

  ghost predicate ClientOk(h: Hub, c: nat)
    requires Known(h, c)
  {
    var all := Sent(h, h.home[c]);
    && |h.buffers[c]| <= CAPACITY
    && Reached(h, c) <= |all|
    && Given(h, c) == all[h.since[c]..Reached(h, c)]
    && (Owed(h, c) ==> Reached(h, c) == |all| - 1)
    && (c in Members(h.subs, h.home[c]) && !Owed(h, c) ==> Reached(h, c) == |all|)
  }

  ghost predicate Inv(h: Hub) {
    && NoEmptyChannel(h.subs)
    && (forall c :: c in h.buffers ==> Known(h, c) && ClientOk(h, c))
    && (forall ch, c {:trigger c in Members(h.subs, ch)} :: c in Members(h.subs, ch) ==> Known(h, c) && h.home[c] == ch)
    && (forall c :: Owed(h, c) ==> Known(h, c) && h.home[c] == h.pc.event.channel)
    && (!h.pc.Idle? ==>
          var all := Sent(h, h.pc.event.channel);
          all != [] && all[|all| - 1] == h.pc.event.payload)
    && (h.pc.Dropping? ==> h.pc.client !in h.pc.pending)
  }

  lemma MemberIsHome(h: Hub, ch: string, c: nat)
    requires Inv(h) && c in Members(h.subs, ch)
    ensures Known(h, c) && ClientOk(h, c) && h.home[c] == ch
  {
  }

  lemma OwedIsHome(h: Hub, c: nat)
    requires Inv(h) && Owed(h, c)
    ensures Known(h, c) && ClientOk(h, c) && h.home[c] == h.pc.event.channel
  {
  }

  /** A step that does not concern a client leaves it in order. */
  lemma Unmoved(h: Hub, g: Hub, c: nat)
    requires Known(h, c) && ClientOk(h, c) && Known(g, c)
    requires Given(g, c) == Given(h, c) && |g.buffers[c]| <= |h.buffers[c]|
    requires g.home[c] == h.home[c] && g.since[c] == h.since[c] && Sent(g, g.home[c]) == Sent(h, h.home[c])
    requires Owed(g, c) ==> Owed(h, c)
    requires c in Members(g.subs, g.home[c]) && !Owed(g, c) ==> c in Members(h.subs, h.home[c]) && !Owed(h, c)
    ensures ClientOk(g, c)
  {
  }

  lemma SubscribeKeeps(h: Hub, step: Step)
    requires Inv(h) && step.Subscribe? && Enabled(h, step)
    ensures Inv(Take(h, step))
  {
    hide ClientOk;
    hide Members;
    var g := Take(h, step);
    JoinIs(h.subs, step.channel, step.client);
    forall c | c in g.buffers ensures Known(g, c) && ClientOk(g, c) {
      Subscribed(h, step, c);
    }
    forall c | Owed(g, c) ensures Known(g, c) && g.home[c] == g.pc.event.channel {
      assert Owed(h, c);
      OwedIsHome(h, c);
    }
    forall ch, c | c in Members(g.subs, ch) ensures Known(g, c) && g.home[c] == ch {
      if c in Members(h.subs, ch) {
        MemberIsHome(h, ch, c);
      }
    }
  }

  lemma NewcomerInOrder(h: Hub, step: Step)
    requires Inv(h) && step.Subscribe? && Enabled(h, step)
    ensures Known(Take(h, step), step.client) && ClientOk(Take(h, step), step.client)
  {
    var g, c := Take(h, step), step.client;
    assert Given(g, c) == [];
    assert c !in h.buffers;
    assert !Owed(h, c);
  }

  lemma OthersAfterSubscribe(h: Hub, step: Step, c: nat)
    requires Inv(h) && step.Subscribe? && Enabled(h, step) && c in h.buffers
    ensures Known(Take(h, step), c) && ClientOk(Take(h, step), c)
  {
    hide ClientOk;
    hide Leave;
    var g := Take(h, step);
    assert Known(h, c) && ClientOk(h, c);
    assert c != step.client && Given(g, c) == Given(h, c);
    Unmoved(h, g, c);
  }

  lemma Subscribed(h: Hub, step: Step, c: nat)
    requires Inv(h) && step.Subscribe? && Enabled(h, step) && c in Take(h, step).buffers
    ensures Known(Take(h, step), c) && ClientOk(Take(h, step), c)
  {
    hide Inv;
    hide Known;
    hide ClientOk;
    if c == step.client {
      NewcomerInOrder(h, step);
    } else {
      OthersAfterSubscribe(h, step, c);
    }
  }

  /** Taking a client out of a channel, with or without the broadcaster being done with it. */
  lemma LeavingKeeps(h: Hub, channel: string, client: nat, pc: Pc)
    requires Inv(h)
    requires pc == h.pc || (h.pc.Dropping? && channel == h.pc.event.channel && client == h.pc.client
                            && pc == Sending(h.pc.event, h.pc.pending))
    ensures Inv(h.(subs := Leave(h.subs, channel, client), quit := h.quit + {client}, pc := pc))
  {
    var g := h.(subs := Leave(h.subs, channel, client), quit := h.quit + {client}, pc := pc);
    LeaveIs(h.subs, channel, client);
    assert forall c :: c != client || pc == h.pc ==> (Owed(g, c) <==> Owed(h, c));
    assert h.pc.Dropping? ==> Owed(h, h.pc.client);
    forall c | c in g.buffers ensures Known(g, c) && ClientOk(g, c) {
      if c == client && pc != h.pc {
        OwedIsHome(h, c);
      }
      Unmoved(h, g, c);
    }
    forall c | Owed(g, c) ensures Known(g, c) && g.home[c] == g.pc.event.channel {
      OwedIsHome(h, c);
    }
    forall ch, c | c in Members(g.subs, ch) ensures Known(g, c) && g.home[c] == ch {
      MemberIsHome(h, ch, c);
    }
  }

  lemma ConsumeKeeps(h: Hub, step: Step)
    requires Inv(h) && step.Consume? && Enabled(h, step)
    ensures Inv(Take(h, step))
  {
    var g := Take(h, step);
    assert forall c :: Owed(g, c) <==> Owed(h, c);
    forall c | c in g.buffers ensures Known(g, c) && ClientOk(g, c) {
      assert Given(g, c) == Given(h, c);
      Unmoved(h, g, c);
    }
    forall c | Owed(g, c) ensures Known(g, c) && g.home[c] == g.pc.event.channel {
      OwedIsHome(h, c);
    }
    forall ch, c | c in Members(g.subs, ch) ensures Known(g, c) && g.home[c] == ch {
      MemberIsHome(h, ch, c);
    }
  }

  lemma SnapshotKeeps(h: Hub, step: Step)
    requires Inv(h) && step.Snapshot? && Enabled(h, step)
    ensures Inv(Take(h, step))
  {
    var g := Take(h, step);
    forall c | c in g.buffers ensures Known(g, c) && ClientOk(g, c) {
      assert ClientOk(h, c);
      var all, more := Sent(h, h.home[c]), Sent(g, h.home[c]);
      assert more == all || more == all + [step.event.payload];
      assert more[..|all|] == all;
      if Owed(g, c) {
        MemberIsHome(h, step.event.channel, c);
      }
    }
    forall c | Owed(g, c) ensures Known(g, c) && g.home[c] == step.event.channel {
      MemberIsHome(h, step.event.channel, c);
    }
    forall ch, c | c in Members(g.subs, ch) ensures Known(g, c) && g.home[c] == ch {
      MemberIsHome(h, ch, c);
    }
  }

  lemma SentToReceiver(h: Hub, step: Step)
    requires Inv(h) && step.Send? && Enabled(h, step) && step.client in h.buffers
    ensures Known(Take(h, step), step.client) && ClientOk(Take(h, step), step.client)
  {
    var g, c := Take(h, step), step.client;
    assert Known(h, c) && ClientOk(h, c);
    OwedIsHome(h, c);
    assert Given(g, c) == Given(h, c) + [h.pc.event.payload];
    var all := Sent(h, h.home[c]);
    assert all[h.since[c]..] == all[h.since[c]..|all| - 1] + [all[|all| - 1]];
  }

  lemma SentToOthers(h: Hub, step: Step, c: nat)
    requires Inv(h) && step.Send? && Enabled(h, step) && c in h.buffers && c != step.client
    ensures Known(Take(h, step), c) && ClientOk(Take(h, step), c)
  {
    var g := Take(h, step);
    assert Known(h, c) && ClientOk(h, c);
    assert Given(g, c) == Given(h, c);
    Unmoved(h, g, c);
  }

  lemma SentTo(h: Hub, step: Step, c: nat)
    requires Inv(h) && step.Send? && Enabled(h, step) && c in h.buffers
    ensures Known(Take(h, step), c) && ClientOk(Take(h, step), c)
  {
    hide *;
    if c == step.client {
      SentToReceiver(h, step);
    } else {
      SentToOthers(h, step, c);
    }
  }

  lemma SendKeeps(h: Hub, step: Step)
    requires Inv(h) && step.Send? && Enabled(h, step)
    ensures Inv(Take(h, step))
  {
    var g := Take(h, step);
    assert Owed(h, step.client);
    forall c | c in g.buffers ensures Known(g, c) && ClientOk(g, c) {
      SentTo(h, step, c);
    }
    forall c | Owed(g, c) ensures Known(g, c) && g.home[c] == g.pc.event.channel {
      OwedIsHome(h, c);
    }
    forall ch, c | c in Members(g.subs, ch) ensures Known(g, c) && g.home[c] == ch {
      MemberIsHome(h, ch, c);
    }
  }

  /** The broadcaster moves on without touching a client. */
  lemma MovingOnKeeps(h: Hub, pc: Pc)
    requires Inv(h) && !h.pc.Idle?
    requires pc.Idle? || pc.event == h.pc.event
    requires forall c :: Owed(h.(pc := pc), c) <==> Owed(h, c)
    requires pc.Dropping? ==> pc.client !in pc.pending
    ensures Inv(h.(pc := pc))
  {
    var g := h.(pc := pc);
    forall c | c in g.buffers ensures Known(g, c) && ClientOk(g, c) {
      Unmoved(h, g, c);
    }
    forall c | Owed(g, c) ensures Known(g, c) && g.home[c] == g.pc.event.channel {
      OwedIsHome(h, c);
    }
    forall ch, c | c in Members(g.subs, ch) ensures Known(g, c) && g.home[c] == ch {
      MemberIsHome(h, ch, c);
    }
  }

  lemma StepKeeps(h: Hub, step: Step)
    requires Inv(h) && Enabled(h, step)
    ensures Inv(Take(h, step))
  {
    match step
    case Subscribe(_, _) => SubscribeKeeps(h, step);
    case Unsubscribe(ch, c) => LeavingKeeps(h, ch, c, h.pc);
    case Consume(_) => ConsumeKeeps(h, step);
    case Snapshot(_) => SnapshotKeeps(h, step);
    case Send(_) => SendKeeps(h, step);
    case SeeQuit(c) => MovingOnKeeps(h, Dropping(h.pc.event, h.pc.pending - {c}, c));
    case SeeFull(c) => MovingOnKeeps(h, Dropping(h.pc.event, h.pc.pending - {c}, c));
    case Drop => LeavingKeeps(h, h.pc.event.channel, h.pc.client, Sending(h.pc.event, h.pc.pending));
    case Finish => MovingOnKeeps(h, Idle);
  }

  lemma {:induction false} RunKeeps(h: Hub, steps: seq<Step>, end: Hub)
    requires Inv(h) && Run(h, steps, end)
    ensures Inv(end)
    decreases |steps|
  {
    if steps != [] {
      StepKeeps(h, steps[0]);
      RunKeeps(Take(h, steps[0]), steps[1..], end);
    }
  }

  /**
   Over every interleaving from an empty hub: what a client has consumed plus what is buffered for it is a run
   without gaps of its channel's broadcasts, starting with the first one whose snapshot follows its
   subscription; the buffer holds at most 64; and between broadcasts a subscribed client has them all.
   */
  lemma GapFreeDelivery(steps: seq<Step>, end: Hub, c: nat)
    requires Run(EMPTY, steps, end) && c in end.buffers
    ensures Known(end, c)
    ensures Reached(end, c) <= |Sent(end, end.home[c])|
    ensures Given(end, c) == Sent(end, end.home[c])[end.since[c]..Reached(end, c)]
    ensures |end.buffers[c]| <= 64
    ensures end.pc.Idle? && c in Members(end.subs, end.home[c]) ==>
              Given(end, c) == Sent(end, end.home[c])[end.since[c]..]
  {
    RunKeeps(EMPTY, steps, end);
    assert ClientOk(end, c);
  }

  /** Throughout these steps the client does not unsubscribe, and its buffer never holds 64 events. */
  ghost predicate KeepsUp(h: Hub, steps: seq<Step>, c: nat)
    decreases |steps|
  {
    && (c in h.buffers ==> |h.buffers[c]| < 64)
    && (steps != [] ==>
          && !(steps[0].Unsubscribe? && steps[0].client == c)
          && (Enabled(h, steps[0]) ==> KeepsUp(Take(h, steps[0]), steps[1..], c)))
  }

  /** Subscribed from the start, and nothing is about to end that. */
  ghost predicate Stays(h: Hub, c: nat) {
    && NoEmptyChannel(h.subs)
    && c !in h.quit && !(h.pc.Dropping? && h.pc.client == c)
    && (c in h.buffers ==> c in h.home && c in Members(h.subs, h.home[c]))
  }

  lemma StepStays(h: Hub, step: Step, c: nat)
    requires Stays(h, c) && Enabled(h, step)
    requires (c in h.buffers ==> |h.buffers[c]| < 64) && !(step.Unsubscribe? && step.client == c)
    ensures Stays(Take(h, step), c)
  {
    hide NoEmptyChannel;
    match step
    case Subscribe(other, ch) =>
      JoinIs(h.subs, ch, other);
    case Unsubscribe(ch, other) =>
      LeaveIs(h.subs, ch, other);
    case Drop =>
      LeaveIs(h.subs, h.pc.event.channel, h.pc.client);
    case _ =>
  }

  lemma {:induction false} RunStays(h: Hub, steps: seq<Step>, end: Hub, c: nat)
    requires Stays(h, c) && Run(h, steps, end) && KeepsUp(h, steps, c)
    ensures Stays(end, c)
    decreases |steps|
  {
    hide Stays;
    if steps != [] {
      StepStays(h, steps[0], c);
      RunStays(Take(h, steps[0]), steps[1..], end, c);
    }
  }

  /**
   Nobody is dropped without cause: a client that does not unsubscribe and whose buffer never holds 64 events stays
   subscribed over every interleaving, and between broadcasts it has every event since its subscription.
   */
  lemma KeepingUpMissesNothing(steps: seq<Step>, end: Hub, c: nat)
    requires Run(EMPTY, steps, end) && c in end.buffers && KeepsUp(EMPTY, steps, c)
    ensures Known(end, c) && c in Members(end.subs, end.home[c]) && c !in end.quit
    ensures end.since[c] <= |Sent(end, end.home[c])|
    ensures end.pc.Idle? ==> Given(end, c) == Sent(end, end.home[c])[end.since[c]..]
  {
    RunStays(EMPTY, steps, end, c);
    GapFreeDelivery(steps, end, c);
  }

  /** A broadcast has passed the client by. */
  predicate Missed(h: Hub, c: nat) {
    Known(h, c) && !Owed(h, c) && Reached(h, c) < |Sent(h, h.home[c])|
  }

  lemma AtHomeOnly(h: Hub, c: nat)
    requires Inv(h) && Known(h, c) && c !in Members(h.subs, h.home[c])
    ensures forall ch :: c !in Members(h.subs, ch)
  {
    forall ch ensures c !in Members(h.subs, ch) {
      if c in Members(h.subs, ch) {
        MemberIsHome(h, ch, c);
      }
    }
  }

  lemma MissedStays(h: Hub, step: Step, c: nat)
    requires Inv(h) && Enabled(h, step) && Missed(h, c)
    ensures var g := Take(h, step);
            Missed(g, c) && Given(g, c) == Given(h, c) && g.home[c] == h.home[c]
  {
    assert ClientOk(h, c);
    assert c !in Members(h.subs, h.home[c]);
    AtHomeOnly(h, c);
  }

  /** A client that misses one broadcast is never given another: it is in no later snapshot. */
  lemma {:induction false} MissedOnceMissedForever(h: Hub, steps: seq<Step>, end: Hub, c: nat)
    requires Inv(h) && Run(h, steps, end) && Missed(h, c)
    ensures Missed(end, c) && Given(end, c) == Given(h, c)
    ensures c !in Members(end.subs, end.home[c]) && !Owed(end, c)
    decreases |steps|
  {
    if steps == [] {
      assert ClientOk(h, c);
    } else {
      MissedStays(h, steps[0], c);
      StepKeeps(h, steps[0]);
      MissedOnceMissedForever(Take(h, steps[0]), steps[1..], end, c);
    }
  }
}
