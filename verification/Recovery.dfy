/**
 Commits that were stopped by a crash: what they leave behind, what a second commit and a rollback make of it, and
 when the status `rolled_back` means that the business data are as if the transaction had never been.
 */
module Recovery {
  import opened Wrappers
  import opened Rows
  import opened Saga
  import opened Undo
  import opened Store
  import opened CommitRecord
  import opened Calls
  import opened Lifecycle
  import opened Crash
  import opened Serial

  /** The commit got past its target transaction: the changes are there, whatever the status says. */
  ghost predicate PastTarget(schema: Schema, s: State, e: Event) {
    && e.call.Commit? && Has(s, e.call.tx, Pending)
    && Forward(schema, s.data, OpsOf(s.ops, e.call.tx), e.call.env).Ok?
    && e.stop > BeforeTarget(schema, s, e.call.tx, e.call.env)
  }

  /** The data a commit applies. */
  function Changed(schema: Schema, s: State, tx: string, env: Env): Data {
    var fwd := Forward(schema, s.data, OpsOf(s.ops, tx), env);
    if fwd.Ok? then fwd.value.data else s.data
  }

  /** Wherever a commit stops, it has changed the data completely or not at all; only at its end is it committed. */
  lemma CommitCut(schema: Schema, ttl: int, s: State, e: Event)
    requires Inv(s) && e.call.Commit? && Has(s, e.call.tx, Pending)
    ensures var s', tx := After(schema, ttl, s, e), e.call.tx;
            var t := CommitTrace(schema, s, tx, e.call.env, e.call.now);
            && s'.data == (if PastTarget(schema, s, e) then Changed(schema, s, tx, e.call.env) else s.data)
            && (if t.fault.None? && e.stop >= |t.states| then Has(s', tx, Committed) else Has(s', tx, Pending))
            && RecordedOn(s.ops, s'.ops, tx)
  {
    hide Forward;
    hide OpsOf;
    var tx, env := e.call.tx, e.call.env;
    var t := CommitTrace(schema, s, tx, env, e.call.now);
    TraceLength(schema, s, tx, env, e.call.now);
    var n := if e.stop < |t.states| then e.stop else |t.states|;
    if n > 0 {
      CommitIsCrashSafe(schema, s, tx, env, e.call.now, n - 1);
      CommitStates(schema, s, tx, env, e.call.now, n - 1);
    }
    hide CommitTrace;
    hide BeforeTarget;
    hide Inv;
    hide RecordedOn;
    CutState(schema, ttl, s, e);
    hide After;
  }

  lemma CutState(schema: Schema, ttl: int, s: State, e: Event)
    requires e.call.Commit?
    ensures var states := CommitTrace(schema, s, e.call.tx, e.call.env, e.call.now).states;
            var n := if e.stop < |states| then e.stop else |states|;
            After(schema, ttl, s, e) == if n == 0 then s else states[n - 1]
  {
    hide CommitTrace;
  }

  /** A commit that passes its target has two states more than row ids noted; one that fails has no more. */
  lemma TraceLength(schema: Schema, s: State, tx: string, env: Env, now: int)
    requires Inv(s) && Has(s, tx, Pending)
    ensures var t := CommitTrace(schema, s, tx, env, now);
            if Forward(schema, s.data, OpsOf(s.ops, tx), env).Ok?
            then t.fault.None? && |t.states| >= BeforeTarget(schema, s, tx, env) + 2
            else t.fault.Some? && |t.states| == BeforeTarget(schema, s, tx, env)
  {
    OpsOfMembers(s.ops, s.nextId, tx);
    IdsAreNoted(schema, s, s.data, OpsOf(s.ops, tx), env);
    hide RunOps;
    hide NoteOps;
    hide OpsOf;
  }

  // ----- a rollback after a commit that was stopped

  /**
   A commit stops before its last write, and the transaction, still pending, is rolled back. The rollback succeeds,
   drops the operations and says `rolled_back`. The data are as before the commit if it stopped before its target
   transaction committed; otherwise every change stays, and no later call can undo it.
   */
  lemma RollbackOfStoppedCommit(schema: Schema, ttl: int, s: State, tx: string, env: Env, now: int, stop: nat, at: int,
                                events: seq<Event>, clock: Clock, later: int)
    requires Inv(s) && Has(s, tx, Pending)
    requires stop < |CommitTrace(schema, s, tx, env, now).states|
    requires Forward(schema, s.data, OpsOf(s.ops, tx), env).Ok?
    ensures var s1 := After(schema, ttl, s, Event(Call.Commit(tx, env, now), stop));
            var t := RollbackTrace(s1, tx, at);
            var s2 := Final(s1, t.states);
            var s3 := Run(schema, ttl, s2, events);
            && t.fault.None? && Has(s2, tx, RolledBack) && OpsOf(s2.ops, tx) == []
            && s2.data == (if stop <= BeforeTarget(schema, s, tx, env) then s.data else Changed(schema, s, tx, env))
            && Has(s3, tx, RolledBack)
            && PostTrace(schema, s3, tx, clock, later) == Trace([], Some(WrongStatus))
            && RollbackTrace(s3, tx, later) == Trace([], Some(WrongStatus))
  {
    var e := Event(Call.Commit(tx, env, now), stop);
    CommitCut(schema, ttl, s, e);
    EventIsLawful(schema, ttl, s, e);
    TraceLength(schema, s, tx, env, now);
    var s1 := After(schema, ttl, s, e);
    var s2 := Final(s1, RollbackTrace(s1, tx, at).states);
    OthersOfOps(s1.ops, tx, tx);
    assert After(schema, ttl, s1, Event(Call.Rollback(tx, at), 2)) == s2;
    EventIsLawful(schema, ttl, s1, Event(Call.Rollback(tx, at), 2));
    RolledBackIsFinal(schema, ttl, s2, events, tx);
  }

  /** Nothing leads out of `rolled_back`, over any run. */
  lemma {:induction false} RolledBackIsFinal(schema: Schema, ttl: int, s: State, events: seq<Event>, tx: string)
    requires Inv(s) && Has(s, tx, RolledBack)
    ensures Has(Run(schema, ttl, s, events), tx, RolledBack)
  {
    hide Inv;
    hide After;
    if events != [] {
      var n := |events| - 1;
      RunKeepsInv(schema, ttl, s, events[..n]);
      RolledBackIsFinal(schema, ttl, s, events[..n], tx);
      EventIsLawful(schema, ttl, Run(schema, ttl, s, events[..n]), events[n]);
    }
  }

  // ----- a second commit

  /**
   A commit stops between its target transaction and its last write, and the transaction is committed again. The same
   statements run once more on data that have their changes already; the commit succeeds exactly when they can.
   */
  lemma SecondCommitAppliesAgain(schema: Schema, ttl: int, s: State, e: Event, env: Env, now: int)
    requires Inv(s) && PastTarget(schema, s, e) && Has(After(schema, ttl, s, e), e.call.tx, Pending)
    ensures var tx, s1 := e.call.tx, After(schema, ttl, s, e);
            var plan := Plan(OpsOf(s.ops, tx));
            var once := Apply(schema, s.data, plan, e.call.env);
            var t := CommitTrace(schema, s1, tx, env, now);
            && once.Ok? && s1.data == once.value
            && (t.fault.None? <==> Apply(schema, once.value, plan, env).Ok?)
            && Final(s1, t.states).data
               == if t.fault.None? then Apply(schema, once.value, plan, env).value else once.value
  {
    var tx, s1 := e.call.tx, After(schema, ttl, s, e);
    CommitCut(schema, ttl, s, e);
    EventIsLawful(schema, ttl, s, e);
    RecordedPlan(s.ops, s1.ops, tx, tx);
    ForwardApplies(schema, s.data, OpsOf(s.ops, tx), e.call.env);
    ForwardApplies(schema, s1.data, OpsOf(s1.ops, tx), env);
    TraceLength(schema, s1, tx, env, now);
    var again := Event(Call.Commit(tx, env, now), |CommitTrace(schema, s1, tx, env, now).states|);
    CommitCut(schema, ttl, s1, again);
    hide CommitTrace;
    hide Forward;
    hide Apply;
    hide Plan;
    hide OpsOf;
    hide BeforeTarget;
    hide Inv;
  }

  /** A transaction whose first statement inserts a row under a given id can never be committed a second time. */
  lemma GivenIdBlocksSecondCommit(schema: Schema, ttl: int, s: State, e: Event, env: Env, now: int)
    requires Inv(s) && PastTarget(schema, s, e) && Has(After(schema, ttl, s, e), e.call.tx, Pending)
    requires OpsOf(s.ops, e.call.tx) != []
    requires var stmt := OpsOf(s.ops, e.call.tx)[0].stmt;
             stmt.Insert? && ID in stmt.values && Key(stmt.table, stmt.values[ID]) in After(schema, ttl, s, e).data
    ensures CommitTrace(schema, After(schema, ttl, s, e), e.call.tx, env, now).fault.Some?
  {
    hide CommitTrace;
    hide OpsOf;
    hide Has;
    var tx, s1 := e.call.tx, After(schema, ttl, s, e);
    CommitCut(schema, ttl, s, e);
    EventIsLawful(schema, ttl, s, e);
    RecordedPlan(s.ops, s1.ops, tx, tx);
    var first, again := OpsOf(s.ops, tx)[0], OpsOf(s1.ops, tx)[0];
    assert Plan(OpsOf(s.ops, tx))[0] == Plan(OpsOf(s1.ops, tx))[0];
    assert again.stmt == first.stmt;
    assert Step(schema, s1.data, again, env).Err?;
    TraceLength(schema, s1, tx, env, now);
  }

  /**
   A commit whose snapshots are of `d0`, but which ran on data that an earlier attempt or others had changed since, is
   rolled back. What it brings back are the rows of `d0`; a row that an earlier attempt inserted under another id stays.
   */
  lemma RollbackOfSecondCommit(schema: Schema, d0: Data, s: State, tx: string, env: Env, now: int, found: Data,
                               clock: Clock, at: int)
    requires Inv(s) && Has(s, tx, Pending) && ValidData(schema, d0) && ValidData(schema, s.data)
    requires AllStaged(d0, OpsOf(s.ops, tx)) && CommitTrace(schema, s, tx, env, now).fault.None?
    requires ValidData(schema, found)
    requires var s2 := Final(s, CommitTrace(schema, s, tx, env, now).states).(data := found);
             PostTrace(schema, s2, tx, clock, at).fault.None?
    ensures var dn := Changed(schema, s, tx, env);
            var done := FinishAll(dn, OpsOf(s.ops, tx), env);
            var s2 := Final(s, CommitTrace(schema, s, tx, env, now).states).(data := found);
            var end := Final(s2, PostTrace(schema, s2, tx, clock, at).states);
            && Has(end, tx, RolledBack)
            && (forall k :: EndsAs(schema, d0, done, k, Lookup(found, k), Lookup(end.data, k)))
            && (forall k :: k in found && k !in d0 && !Inserts(done, k) ==> k in end.data && end.data[k] == found[k])
  {
    var mine := OpsOf(s.ops, tx);
    TraceLength(schema, s, tx, env, now);
    CommitSucceeds(schema, s, tx, env, now);
    ForwardKeepsValid(schema, s.data, mine, env);
    var dn := Changed(schema, s, tx, env);
    assert Midway(schema, d0, s.data, mine, env, dn);
    hide Midway;
    hide CommitTrace;
    hide Forward;
    hide EndsAs;
    UndoEnds(schema, d0, s.data, mine, env, dn, found, clock);
    var s2 := Final(s, CommitTrace(schema, s, tx, env, now).states).(data := found);
    var end := Final(s2, PostTrace(schema, s2, tx, clock, at).states).data;
    hide PostTrace;
    hide UndoAll;
    forall k | k in found && k !in d0 && !Inserts(FinishAll(dn, mine, env), k)
      ensures k in end && end[k] == found[k] {
      NewRowStays(schema, d0, FinishAll(dn, mine, env), k, Lookup(found, k), Lookup(end, k));
    }
  }

  lemma NewRowStays(schema: Schema, d0: Data, done: seq<Op>, k: Key, found: Option<Row>, r: Option<Row>)
    requires k !in d0 && !Inserts(done, k) && EndsAs(schema, d0, done, k, found, r)
    ensures r == found
  {
  }

  // ----- when rolled back means undone

  ghost predicate OnTx(call: Call, tx: string) {
    (call.Commit? || call.Rollback? || call.Stage? || call.RollbackPost?) && call.tx == tx
  }

  /** No call on `tx` changed the business data. */
  ghost predicate LeftDataAlone(schema: Schema, ttl: int, s: State, events: seq<Event>, tx: string) {
    forall i :: 0 <= i < |events| && OnTx(events[i].call, tx) ==>
      After(schema, ttl, Run(schema, ttl, s, events[..i]), events[i]).data == Run(schema, ttl, s, events[..i]).data
  }

  /** No commit of `tx` that changes the data got past its target transaction. */
  ghost predicate NeverApplied(schema: Schema, ttl: int, s: State, events: seq<Event>, tx: string) {
    forall i :: 0 <= i < |events| && OnTx(events[i].call, tx)
                && PastTarget(schema, Run(schema, ttl, s, events[..i]), events[i]) ==>
      Changed(schema, Run(schema, ttl, s, events[..i]), tx, events[i].call.env) == Run(schema, ttl, s, events[..i]).data
  }

  /** Over a run without a rollback after commit, a transaction that ends rolled back was pending until then. */
  lemma {:induction false} PendingUntilRolledBack(schema: Schema, ttl: int, s: State, events: seq<Event>, tx: string,
                                                  i: nat)
    requires Inv(s) && i <= |events|
    requires forall j :: 0 <= j < |events| ==> !(events[j].call.RollbackPost? && events[j].call.tx == tx)
    requires forall j :: 0 <= j < |events| ==> !(events[j].call.Start? && events[j].call.id == tx)
    requires Has(Run(schema, ttl, s, events), tx, RolledBack)
    ensures var mid := Run(schema, ttl, s, events[..i]);
            Inv(mid) && (Has(mid, tx, Pending) || Has(mid, tx, RolledBack))
    decreases |events| - i
  {
    hide Inv;
    hide After;
    RunKeepsInv(schema, ttl, s, events[..i]);
    if i == |events| {
      assert events[..i] == events;
    } else {
      PendingUntilRolledBack(schema, ttl, s, events, tx, i + 1);
      assert events[..i + 1][..i] == events[..i];
      var mid := Run(schema, ttl, s, events[..i]);
      EventIsLawful(schema, ttl, mid, events[i]);
      StatusIsNotCommitting(mid, tx);
    }
  }

  lemma StatusIsNotCommitting(s: State, tx: string)
    requires Inv(s) && tx in s.txs
    ensures s.txs[tx].status != Committing
  {
  }

  /**
   Over every run, crashes included, in which `tx` ends rolled back without having been committed: its calls have left
   the business data alone exactly when no commit of it that changes them got past its target transaction.
   */
  lemma RolledBackMeansUndoneIff(schema: Schema, ttl: int, s: State, events: seq<Event>, tx: string)
    requires Inv(s) && Has(Run(schema, ttl, s, events), tx, RolledBack)
    requires forall j :: 0 <= j < |events| ==> !(events[j].call.RollbackPost? && events[j].call.tx == tx)
    requires forall j :: 0 <= j < |events| ==> !(events[j].call.Start? && events[j].call.id == tx)
    ensures LeftDataAlone(schema, ttl, s, events, tx) <==> NeverApplied(schema, ttl, s, events, tx)
  {
    hide Inv;
    hide After;
    hide Forward;
    hide BeforeTarget;
    hide Changed;
    forall i | 0 <= i < |events| && OnTx(events[i].call, tx)
      ensures var mid := Run(schema, ttl, s, events[..i]);
              After(schema, ttl, mid, events[i]).data
              == if PastTarget(schema, mid, events[i]) then Changed(schema, mid, tx, events[i].call.env) else mid.data {
      PendingUntilRolledBack(schema, ttl, s, events, tx, i);
      CallChanges(schema, ttl, Run(schema, ttl, s, events[..i]), events[i], tx);
    }
  }

  lemma CallChanges(schema: Schema, ttl: int, s: State, e: Event, tx: string)
    requires Inv(s) && (Has(s, tx, Pending) || Has(s, tx, RolledBack))
    requires OnTx(e.call, tx) && !e.call.RollbackPost?
    ensures After(schema, ttl, s, e).data
            == if PastTarget(schema, s, e) then Changed(schema, s, tx, e.call.env) else s.data
  {
    if e.call.Commit? {
      if Has(s, tx, Pending) {
        CommitCut(schema, ttl, s, e);
      }
    }
  }

  // ----- the data of a run with crashes

  /** The initial data, with the plan of each commit applied that got past its target transaction. */
  ghost function AppliedData(schema: Schema, ttl: int, s: State, events: seq<Event>): Data {
    if events == [] then s.data
    else
      var n := |events| - 1;
      var before, earlier := Run(schema, ttl, s, events[..n]), AppliedData(schema, ttl, s, events[..n]);
      if !PastTarget(schema, before, events[n]) then earlier
      else
        var r := Apply(schema, earlier, Plan(OpsOf(before.ops, events[n].call.tx)), events[n].call.env);
        if r.Ok? then r.value else earlier
  }

  /**
   Over every run with crashes and without a rollback after commit, the data are exactly those: what counts is the
   target transaction, and neither the status nor a later rollback.
   */
  lemma {:induction false} CrashedRunIsSerial(schema: Schema, ttl: int, s: State, events: seq<Event>)
    requires Inv(s)
    requires forall i :: 0 <= i < |events| ==> !events[i].call.RollbackPost? && !events[i].call.OtherClient?
    ensures Run(schema, ttl, s, events).data == AppliedData(schema, ttl, s, events)
  {
    hide Inv;
    hide After;
    hide PastTarget;
    if events != [] {
      var n := |events| - 1;
      CrashedRunIsSerial(schema, ttl, s, events[..n]);
      RunKeepsInv(schema, ttl, s, events[..n]);
      OneCallApplies(schema, ttl, Run(schema, ttl, s, events[..n]), events[n]);
    }
  }

  lemma OneCallApplies(schema: Schema, ttl: int, s: State, e: Event)
    requires Inv(s) && !e.call.RollbackPost? && !e.call.OtherClient?
    ensures PastTarget(schema, s, e) ==>
              Apply(schema, s.data, Plan(OpsOf(s.ops, e.call.tx)), e.call.env) == Ok(After(schema, ttl, s, e).data)
    ensures !PastTarget(schema, s, e) ==> After(schema, ttl, s, e).data == s.data
  {
    if e.call.Commit? && Has(s, e.call.tx, Pending) {
      CommitCut(schema, ttl, s, e);
      ForwardApplies(schema, s.data, OpsOf(s.ops, e.call.tx), e.call.env);
    }
  }
}
