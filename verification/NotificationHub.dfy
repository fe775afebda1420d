/** The hub as an object: the client map and the clients' buffers and quit flags change in place. */
module NotificationHub {
  import opened Subscriptions
  import P = HubProtocol

  class Client {
    var buffer: seq<P.Event>
    var quit: bool

    constructor ()
      ensures buffer == [] && !quit
    {
      buffer, quit := [], false;
    }

    /** The built-in close of a channel, which panics when the channel is closed already. */
    method CloseQuit()
      requires !quit
      modifies this`quit
      ensures quit
    {
      quit := true;
    }

    /** Closing twice is harmless: the second time nothing is closed. */
    method Close()
      modifies this`quit
      ensures quit
    {
      if !quit {
        CloseQuit();
      }
    }
  }

  class Hub {
    var clients: Subs<Client>

    constructor ()
      ensures clients == map[]
    {
      clients := map[];
    }

    method Subscribe(channel: string) returns (c: Client)
      modifies this
      ensures fresh(c) && c.buffer == [] && !c.quit
      ensures clients == Join(old(clients), channel, c)
    {
      c := new Client();
      if channel !in clients {
        clients := clients[channel := {}];
      }
      clients := clients[channel := clients[channel] + {c}];
    }

    method Unsubscribe(channel: string, c: Client)
      modifies this, c`quit
      ensures clients == Leave(old(clients), channel, c) && c.quit
    {
      if channel in clients {
        clients := clients[channel := clients[channel] - {c}];
        if clients[channel] == {} {
          clients := clients - {channel};
        }
      }
      c.Close();
    }

    /** One client of a broadcast got the event, or was unsubscribed because it quit or its buffer was full. */
    ghost predicate Served(c: Client, event: P.Event, buffer: seq<P.Event>, quit: bool)
      reads this, c
    {
      if c in Members(clients, event.channel)
      then c.buffer == buffer + [event] && |buffer| < P.CAPACITY && c.quit == quit
      else c.quit && c.buffer == buffer && (quit || |buffer| >= P.CAPACITY)
    }

    /**
     An uninterrupted broadcast: every client of the channel is served, in whatever order; the other channels
     are untouched. With room in the buffer and the quit flag raised, either may happen.
     */
    method Broadcast(event: P.Event)
      requires NoEmptyChannel(clients)
      modifies this, Members(clients, event.channel)
      ensures NoEmptyChannel(clients)
      ensures forall c :: c in old(Members(clients, event.channel)) ==> Served(c, event, old(c.buffer), old(c.quit))
      ensures Members(clients, event.channel) <= old(Members(clients, event.channel))
      ensures forall ch :: ch != event.channel ==> Members(clients, ch) == old(Members(clients, ch))
    {
      hide NoEmptyChannel;
      hide Leave;
      var snapshot := Members(clients, event.channel);
      var left := snapshot;
      while left != {}
        invariant left <= snapshot && NoEmptyChannel(clients)
        invariant left <= Members(clients, event.channel) <= snapshot
        invariant forall c :: c in left ==> c.buffer == old(c.buffer) && c.quit == old(c.quit)
        invariant forall c :: c in snapshot - left ==> Served(c, event, old(c.buffer), old(c.quit))
        invariant forall ch :: ch != event.channel ==> Members(clients, ch) == old(Members(clients, ch))
        decreases left
      {
        var c :| c in left;
        left := left - {c};
        LeaveIs(clients, event.channel, c);
        assert forall d :: d in snapshot - left && d != c ==> Served(d, event, old(d.buffer), old(d.quit));
        if {
          case |c.buffer| < P.CAPACITY =>
            c.buffer := c.buffer + [event];
            assert Served(c, event, old(c.buffer), old(c.quit));
          case c.quit =>
            Unsubscribe(event.channel, c);
            assert Served(c, event, old(c.buffer), old(c.quit));
          case |c.buffer| >= P.CAPACITY && !c.quit =>
            Unsubscribe(event.channel, c);
            assert Served(c, event, old(c.buffer), old(c.quit));
        }
      }
    }

    method ClientCount() returns (count: nat)
      ensures count == CountOf(clients)
    {
      count := 0;
      var left := clients;
      while left != map[]
        invariant count + CountOf(left) == CountOf(clients)
        decreases |left|
      {
        var ch :| ch in left;
        CountOfAny(left, ch);
        count := count + |left[ch]|;
        left := left - {ch};
      }
    }
  }

  // ----- the object as the protocol sees it

  /** The hub and its clients as values. */
  datatype View = View(subs: Subs<Client>, buffers: map<Client, seq<P.Event>>, quit: set<Client>)

  ghost function ViewOf(hub: Hub, cs: set<Client>): View
    reads hub, cs
  {
    View(hub.clients, map c | c in cs :: c.buffer, set c | c in cs && c.quit)
  }

  function Payloads(events: seq<P.Event>): seq<string> {
    seq(|events|, i requires 0 <= i < |events| => events[i].payload)
  }

  ghost function Numbers(cs: set<Client>, ids: map<Client, nat>): set<nat> {
    set c | c in cs && c in ids :: ids[c]
  }

  ghost predicate ClientsMirror(v: View, ids: map<Client, nat>, h: P.Hub) {
    && v.buffers.Keys == ids.Keys && v.quit <= ids.Keys
    && forall c :: c in ids ==>
         ids[c] in h.buffers && h.buffers[ids[c]] == Payloads(v.buffers[c]) && (c in v.quit <==> ids[c] in h.quit)
  }

  ghost predicate ChannelsMirror(subs: Subs<Client>, ids: map<Client, nat>, numbers: Subs<nat>) {
    && NoEmptyChannel(subs) && NoEmptyChannel(numbers)
    && (forall c, d :: c in ids && d in ids && c != d ==> ids[c] != ids[d])
    && (forall ch :: Members(subs, ch) <= ids.Keys)
    && (forall ch :: Members(numbers, ch) == Numbers(Members(subs, ch), ids))
  }

  /** The protocol state `h` shows the view, with its clients numbered by `ids`. */
  ghost predicate Mirrors(v: View, ids: map<Client, nat>, h: P.Hub) {
    ClientsMirror(v, ids, h) && ChannelsMirror(v.subs, ids, h.subs)
  }

  lemma NumbersJoin(cs: set<Client>, ids: map<Client, nat>, c: Client, n: nat)
    requires cs <= ids.Keys && c !in ids
    ensures Numbers(cs, ids[c := n]) == Numbers(cs, ids)
    ensures Numbers(cs + {c}, ids[c := n]) == Numbers(cs, ids) + {n}
  {
  }

  lemma NumbersLeave(cs: set<Client>, ids: map<Client, nat>, c: Client)
    requires c in ids && forall a, b :: a in ids && b in ids && a != b ==> ids[a] != ids[b]
    ensures Numbers(cs - {c}, ids) == Numbers(cs, ids) - {ids[c]}
  {
  }

  lemma JoinMirrors(subs: Subs<Client>, channel: string, c: Client, ids: map<Client, nat>, numbers: Subs<nat>, n: nat)
    requires ChannelsMirror(subs, ids, numbers) && c !in ids && n !in ids.Values
    ensures ChannelsMirror(Join(subs, channel, c), ids[c := n], Join(numbers, channel, n))
  {
    JoinIs(subs, channel, c);
    JoinIs(numbers, channel, n);
    hide Join;
    hide Members;
    hide NoEmptyChannel;
    hide Numbers;
    forall ch
      ensures Members(Join(numbers, channel, n), ch) == Numbers(Members(Join(subs, channel, c), ch), ids[c := n]) {
      NumbersJoin(Members(subs, ch), ids, c, n);
    }
  }

  lemma LeaveMirrors(subs: Subs<Client>, channel: string, c: Client, ids: map<Client, nat>, numbers: Subs<nat>)
    requires ChannelsMirror(subs, ids, numbers) && c in ids
    ensures ChannelsMirror(Leave(subs, channel, c), ids, Leave(numbers, channel, ids[c]))
  {
    LeaveIs(subs, channel, c);
    LeaveIs(numbers, channel, ids[c]);
    hide Leave;
    hide Members;
    hide NoEmptyChannel;
    hide Numbers;
    forall ch
      ensures Members(Leave(numbers, channel, ids[c]), ch) == Numbers(Members(Leave(subs, channel, c), ch), ids) {
      NumbersLeave(Members(subs, ch), ids, c);
    }
  }

  /** A subscription is one step of the protocol, under any number not used before. */
  lemma SubscribeIsAStep(v: View, channel: string, c: Client, ids: map<Client, nat>, h: P.Hub, n: nat)
    requires Mirrors(v, ids, h) && c !in ids && n !in h.buffers && n !in h.quit
    ensures P.Enabled(h, P.Step.Subscribe(n, channel))
    ensures Mirrors(View(Join(v.subs, channel, c), v.buffers[c := []], v.quit), ids[c := n],
                    P.Take(h, P.Step.Subscribe(n, channel)))
  {
    hide ChannelsMirror;
    hide Join;
    JoinMirrors(v.subs, channel, c, ids, h.subs, n);
  }

  /** So is an unsubscription. */
  lemma UnsubscribeIsAStep(v: View, channel: string, c: Client, ids: map<Client, nat>, h: P.Hub)
    requires Mirrors(v, ids, h) && c in ids
    ensures P.Enabled(h, P.Step.Unsubscribe(channel, ids[c]))
    ensures Mirrors(View(Leave(v.subs, channel, c), v.buffers, v.quit + {c}), ids,
                    P.Take(h, P.Step.Unsubscribe(channel, ids[c])))
  {
    LeaveMirrors(v.subs, channel, c, ids, h.subs);
    assert forall d :: d in ids && d != c ==> ids[d] != ids[c];
    hide ChannelsMirror;
    hide Leave;
  }

  /** The steps a broadcaster takes. */
  predicate Broadcasts(step: P.Step) {
    step.Snapshot? || step.Send? || step.SeeQuit? || step.SeeFull? || step.Drop? || step.Finish?
  }

  /** `g` is `h` after its pending clients were served: those in `keep` were sent the event, the others dropped. */
  ghost predicate ServedAll(h: P.Hub, g: P.Hub, event: P.Event, pending: set<nat>, keep: set<nat>) {
    && NoEmptyChannel(g.subs)
    && (forall ch :: Members(g.subs, ch)
                     == if ch == event.channel then Members(h.subs, ch) - (pending - keep) else Members(h.subs, ch))
    && g.buffers.Keys == h.buffers.Keys
    && (forall c :: c in h.buffers ==>
          g.buffers[c] == if c in keep then h.buffers[c] + [event.payload] else h.buffers[c])
    && g.quit == h.quit + (pending - keep)
  }

  lemma ServedThen(h: P.Hub, g: P.Hub, end: P.Hub, event: P.Event, pending: set<nat>, keep: set<nat>, c: nat)
    requires c in pending && ServedAll(h, g, event, {c}, keep * {c})
    requires ServedAll(g, end, event, pending - {c}, keep - {c})
    ensures ServedAll(h, end, event, pending, keep)
  {
    hide Members;
    hide NoEmptyChannel;
    assert ({c} - keep * {c}) + ((pending - {c}) - (keep - {c})) == pending - keep;
    forall ch ensures Members(end.subs, ch)
                      == if ch == event.channel then Members(h.subs, ch) - (pending - keep) else Members(h.subs, ch) {
    }
  }

  /** Serving one client takes one step if it gets the event, and two if it is dropped. */
  lemma ServeOne(h: P.Hub, event: P.Event, pending: set<nat>, keep: set<nat>, c: nat)
    returns (steps: seq<P.Step>, g: P.Hub)
    requires h.pc == P.Sending(event, pending) && c in pending && c in h.buffers && NoEmptyChannel(h.subs)
    requires c in keep ==> |h.buffers[c]| < P.CAPACITY
    requires c !in keep ==> c in h.quit || |h.buffers[c]| >= P.CAPACITY
    ensures P.Run(h, steps, g) && forall i :: 0 <= i < |steps| ==> Broadcasts(steps[i])
    ensures g.pc == P.Sending(event, pending - {c}) && ServedAll(h, g, event, {c}, keep * {c})
  {
    if c in keep {
      steps, g := [P.Send(c)], P.Take(h, P.Send(c));
      assert {c} - keep * {c} == {};
    } else {
      var see := if c in h.quit then P.SeeQuit(c) else P.SeeFull(c);
      steps, g := [see, P.Drop], P.Take(P.Take(h, see), P.Drop);
      assert steps[1..] == [P.Drop] && steps[1..][1..] == [];
      assert {c} - keep * {c} == {c};
      LeaveIs(h.subs, event.channel, c);
    }
  }

  /** A broadcaster that nobody interrupts can serve its pending clients in this way. */
  lemma {:induction false} ServePending(h: P.Hub, event: P.Event, pending: set<nat>, keep: set<nat>)
    returns (steps: seq<P.Step>, end: P.Hub)
    requires h.pc == P.Sending(event, pending) && keep <= pending <= h.buffers.Keys && NoEmptyChannel(h.subs)
    requires forall c :: c in keep ==> |h.buffers[c]| < P.CAPACITY
    requires forall c :: c in pending - keep ==> c in h.quit || |h.buffers[c]| >= P.CAPACITY
    ensures P.Run(h, steps, end) && end.pc == P.Idle && ServedAll(h, end, event, pending, keep)
    ensures forall i :: 0 <= i < |steps| ==> Broadcasts(steps[i])
    decreases pending
  {
    if pending == {} {
      steps, end := [P.Finish], P.Take(h, P.Finish);
    } else {
      var c :| c in pending;
      var first, g := ServeOne(h, event, pending, keep, c);
      hide P.Take;
      hide P.Enabled;
      hide Members;
      hide NoEmptyChannel;
      var more;
      more, end := ServePending(g, event, pending - {c}, keep - {c});
      steps := first + more;
      RunAfter(h, first, more, g, end);
      ServedThen(h, g, end, event, pending, keep, c);
    }
  }

  lemma {:induction false} RunAfter(h: P.Hub, first: seq<P.Step>, more: seq<P.Step>, mid: P.Hub, end: P.Hub)
    requires P.Run(h, first, mid) && P.Run(mid, more, end)
    ensures P.Run(h, first + more, end)
    decreases |first|
  {
    if first == [] {
      assert first + more == more;
    } else {
      assert (first + more)[1..] == first[1..] + more;
      RunAfter(P.Take(h, first[0]), first[1..], more, mid, end);
    }
  }

  /** What `Broadcast` promises of the view. */
  ghost predicate Broadcasted(v: View, w: View, event: P.Event) {
    && NoEmptyChannel(w.subs) && w.buffers.Keys == v.buffers.Keys && w.quit <= w.buffers.Keys
    && (forall c :: c in v.buffers ==>
          if c !in Members(v.subs, event.channel) then w.buffers[c] == v.buffers[c] && (c in w.quit <==> c in v.quit)
          else if c in Members(w.subs, event.channel) then
            w.buffers[c] == v.buffers[c] + [event] && |v.buffers[c]| < P.CAPACITY && (c in w.quit <==> c in v.quit)
          else c in w.quit && w.buffers[c] == v.buffers[c] && (c in v.quit || |v.buffers[c]| >= P.CAPACITY))
    && Members(w.subs, event.channel) <= Members(v.subs, event.channel)
    && (forall ch :: ch != event.channel ==> Members(w.subs, ch) == Members(v.subs, ch))
  }

  /** The clients that got the event had room for it; the others had quit or had none. */
  lemma ServiceIsSound(v: View, w: View, event: P.Event, ids: map<Client, nat>, h: P.Hub)
    requires Mirrors(v, ids, h) && Broadcasted(v, w, event)
    ensures var keep := Numbers(Members(w.subs, event.channel), ids);
            && keep <= Members(h.subs, event.channel) <= h.buffers.Keys
            && (forall n :: n in keep ==> |h.buffers[n]| < P.CAPACITY)
            && (forall n :: n in Members(h.subs, event.channel) - keep ==> n in h.quit || |h.buffers[n]| >= P.CAPACITY)
  {
    var was, now := Members(v.subs, event.channel), Members(w.subs, event.channel);
    assert Members(h.subs, event.channel) == Numbers(was, ids);
    hide Members;
    hide NoEmptyChannel;
    forall n | n in Numbers(was, ids)
      ensures n in h.buffers
      ensures n in Numbers(now, ids) ==> |h.buffers[n]| < P.CAPACITY
      ensures n !in Numbers(now, ids) ==> n in h.quit || |h.buffers[n]| >= P.CAPACITY {
      var c :| c in was && c in ids && ids[c] == n;
      assert c in now <==> n in Numbers(now, ids);
      assert |h.buffers[n]| == |v.buffers[c]|;
    }
  }

  lemma ServedChannels(v: View, w: View, event: P.Event, ids: map<Client, nat>, h: P.Hub, end: P.Hub)
    requires Mirrors(v, ids, h) && Broadcasted(v, w, event)
    requires ServedAll(h, end, event, Members(h.subs, event.channel), Numbers(Members(w.subs, event.channel), ids))
    ensures ChannelsMirror(w.subs, ids, end.subs)
  {
    hide Members;
    hide NoEmptyChannel;
    hide ClientsMirror;
    var was, now := Numbers(Members(v.subs, event.channel), ids), Numbers(Members(w.subs, event.channel), ids);
    assert Members(h.subs, event.channel) == was && was - (was - now) == now;
    hide Numbers;
    forall ch ensures Members(end.subs, ch) == Numbers(Members(w.subs, ch), ids) {
      assert Members(h.subs, ch) == Numbers(Members(v.subs, ch), ids);
    }
    forall ch ensures Members(w.subs, ch) <= ids.Keys {
      assert Members(v.subs, ch) <= ids.Keys;
    }
  }

  lemma ServedMirrors(v: View, w: View, event: P.Event, ids: map<Client, nat>, h: P.Hub, end: P.Hub)
    requires Mirrors(v, ids, h) && Broadcasted(v, w, event)
    requires ServedAll(h, end, event, Members(h.subs, event.channel), Numbers(Members(w.subs, event.channel), ids))
    ensures Mirrors(w, ids, end)
  {
    ServedChannels(v, w, event, ids, h, end);
    var was, now := Members(v.subs, event.channel), Members(w.subs, event.channel);
    assert Members(h.subs, event.channel) == Numbers(was, ids);
    assert forall c, d :: c in ids && d in ids && c != d ==> ids[c] != ids[d];
    hide ChannelsMirror;
    hide Members;
    hide NoEmptyChannel;
    forall c | c in ids
      ensures ids[c] in end.buffers && end.buffers[ids[c]] == Payloads(w.buffers[c])
              && (c in w.quit <==> ids[c] in end.quit) {
      assert ids[c] in Numbers(was, ids) <==> c in was;
      assert ids[c] in Numbers(now, ids) <==> c in now;
      assert Payloads(v.buffers[c] + [event]) == Payloads(v.buffers[c]) + [event.payload];
    }
  }

  /**
   An uninterrupted broadcast of the object is a run of the protocol: a snapshot, then one or two steps for each
   client in it. So whatever the protocol keeps over its runs holds of the object between its calls.
   */
  lemma BroadcastIsARun(v: View, w: View, event: P.Event, ids: map<Client, nat>, h: P.Hub)
    returns (steps: seq<P.Step>, end: P.Hub)
    requires Mirrors(v, ids, h) && h.pc.Idle? && Broadcasted(v, w, event)
    ensures P.Run(h, steps, end) && forall i :: 0 <= i < |steps| ==> Broadcasts(steps[i])
    ensures end.pc.Idle? && Mirrors(w, ids, end)
  {
    ServiceIsSound(v, w, event, ids, h);
    hide Members;
    hide Broadcasted;
    var keep := Numbers(Members(w.subs, event.channel), ids);
    steps, end := Serve(h, event, keep);
    ServedMirrors(v, w, event, ids, h, end);
  }

  /** A whole broadcast of the protocol. */
  lemma Serve(h: P.Hub, event: P.Event, keep: set<nat>) returns (steps: seq<P.Step>, end: P.Hub)
    requires h.pc.Idle? && NoEmptyChannel(h.subs) && keep <= Members(h.subs, event.channel) <= h.buffers.Keys
    requires forall c :: c in keep ==> |h.buffers[c]| < P.CAPACITY
    requires forall c :: c in Members(h.subs, event.channel) - keep ==> c in h.quit || |h.buffers[c]| >= P.CAPACITY
    ensures P.Run(h, steps, end) && end.pc == P.Idle
    ensures ServedAll(h, end, event, Members(h.subs, event.channel), keep)
    ensures forall i :: 0 <= i < |steps| ==> Broadcasts(steps[i])
  {
    hide Members;
    hide NoEmptyChannel;
    var started := P.Take(h, P.Snapshot(event));
    var served;
    served, end := ServePending(started, event, Members(h.subs, event.channel), keep);
    steps := [P.Snapshot(event)] + served;
    assert steps[1..] == served;
  }

  /**
   The listener hands one notification to the hub. Whatever clients `ids` numbers and whatever protocol state shows
   them, the call is a run of the protocol from that state.
   */
  method Deliver(hub: Hub, event: P.Event, ghost ids: map<Client, nat>, ghost h: P.Hub)
    returns (ghost steps: seq<P.Step>, ghost end: P.Hub)
    requires Mirrors(ViewOf(hub, ids.Keys), ids, h) && h.pc.Idle?
    modifies hub, Members(hub.clients, event.channel)
    ensures P.Run(h, steps, end) && forall i :: 0 <= i < |steps| ==> Broadcasts(steps[i])
    ensures end.pc.Idle? && Mirrors(ViewOf(hub, ids.Keys), ids, end)
  {
    ghost var v := ViewOf(hub, ids.Keys);
    assert Members(v.subs, event.channel) <= ids.Keys;
    hub.Broadcast(event);
    hide Mirrors;
    hide NoEmptyChannel;
    hide Members;
    assert Broadcasted(v, ViewOf(hub, ids.Keys), event) by {
      forall c | c in ids && c in Members(v.subs, event.channel)
        ensures hub.Served(c, event, old(c.buffer), old(c.quit)) {
      }
    }
    steps, end := BroadcastIsARun(v, ViewOf(hub, ids.Keys), event, ids, h);
  }
}
