/** The hub's map from channels to their sets of clients; a channel without clients is not in it. */
module Subscriptions {

  type Subs<C> = map<string, set<C>>

  function Members<C>(subs: Subs<C>, channel: string): set<C> {
    if channel in subs then subs[channel] else {}
  }

  function Join<C>(subs: Subs<C>, channel: string, c: C): Subs<C> {
    subs[channel := Members(subs, channel) + {c}]
  }

  function Leave<C>(subs: Subs<C>, channel: string, c: C): Subs<C> {
    if channel !in subs then subs
    else if subs[channel] - {c} == {} then subs - {channel}
    else subs[channel := subs[channel] - {c}]
  }

  ghost predicate NoEmptyChannel<C>(subs: Subs<C>) {
    forall channel :: channel in subs ==> subs[channel] != {}
  }

  lemma JoinIs<C>(subs: Subs<C>, channel: string, c: C)
    requires NoEmptyChannel(subs)
    ensures NoEmptyChannel(Join(subs, channel, c))
    ensures forall ch :: Members(Join(subs, channel, c), ch)
                         == if ch == channel then Members(subs, ch) + {c} else Members(subs, ch)
  {
    assert c in Join(subs, channel, c)[channel];
  }

  /** Leaving takes one client out of one channel, and the channel out of the map with its last client. */
  lemma LeaveIs<C>(subs: Subs<C>, channel: string, c: C)
    requires NoEmptyChannel(subs)
    ensures NoEmptyChannel(Leave(subs, channel, c))
    ensures forall ch :: Members(Leave(subs, channel, c), ch)
                         == if ch == channel then Members(subs, ch) - {c} else Members(subs, ch)
  {
    if channel !in subs {
      assert Members(subs, channel) - {c} == Members(subs, channel);
    } else if subs[channel] - {c} == {} {
      assert Members(Leave(subs, channel, c), channel) == {};
    }
  }

  /** The sum the client count computes. */
  ghost function CountOf<C>(subs: Subs<C>): nat {
    if subs == map[] then 0
    else
      var ch :| ch in subs;
      |subs[ch]| + CountOf(subs - {ch})
  }

  lemma {:induction false} CountOfAny<C>(subs: Subs<C>, ch: string)
    requires ch in subs
    ensures CountOf(subs) == |subs[ch]| + CountOf(subs - {ch})
    decreases |subs|
  {
    var first :| first in subs && CountOf(subs) == |subs[first]| + CountOf(subs - {first});
    if first != ch {
      CountOfAny(subs - {first}, ch);
      CountOfAny(subs - {ch}, first);
      assert subs - {first} - {ch} == subs - {ch} - {first};
    }
  }
}
