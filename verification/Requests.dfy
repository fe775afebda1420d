/** The saga from its first request: staging over a run, commit, anything in between, rollback. */
module Requests {
  import opened Wrappers
  import opened Rows
  import opened Saga
  import opened Undo
  import opened Store
  import opened Calls
  import opened Lifecycle
  import opened Crash
  import R = CommitRecord
  import W = Middleware

  /** Nobody changed a row that these operations update or delete. */
  ghost predicate RowsKept(d: Data, d': Data, ops: seq<Op>) {
    forall i :: 0 <= i < |ops| && NamesRow(ops[i].stmt) ==>
      Lookup(d', RowOf(ops[i].stmt)) == Lookup(d, RowOf(ops[i].stmt))
  }

  predicate NamesRow(stmt: Stmt) {
    !stmt.Insert? && stmt.id.Some?
  }

  function RowOf(stmt: Stmt): Key
    requires NamesRow(stmt)
  {
    Key(stmt.table, stmt.id.value)
  }

  /** The operation a staging call adds, its serial id aside. */
  function OpOf(call: Call): Op
    requires call.Stage?
  {
    Op(0, call.tx, call.stmt, call.before, None, call.rowIds)
  }

  /** The commit failed, or stopped before its target transaction committed; at most row ids were noted. */
  predicate FailedCommit(schema: Schema, s: State, e: Event)
    requires e.call.Commit?
  {
    || e.stop <= BeforeTarget(schema, s, e.call.tx, e.call.env)
    || CommitTrace(schema, s, e.call.tx, e.call.env, e.call.now).fault.Some?
  }

  /** What a step of the run may do while `tx` is being staged. */
  ghost predicate StagingStep(schema: Schema, ttl: int, s: State, e: Event, tx: string) {
    && (e.call.Stage? && e.call.tx == tx ==> Staged(s.data, OpOf(e.call)))
    && (e.call.Commit? && e.call.tx == tx ==> FailedCommit(schema, s, e))
    && RowsKept(s.data, After(schema, ttl, s, e).data, OpsOf(s.ops, tx))
  }

  lemma StagedStays(d: Data, d': Data, ops: seq<Op>)
    requires AllStaged(d, ops) && RowsKept(d, d', ops)
    ensures AllStaged(d', ops)
  {
    forall i | 0 <= i < |ops| ensures Staged(d', ops[i]) {
      if NamesRow(ops[i].stmt) {
        assert Lookup(d', RowOf(ops[i].stmt)) == Lookup(d, RowOf(ops[i].stmt));
      }
    }
  }

  /** A call other than its commit leaves the operations of `tx`, adds one, or drops them all. */
  lemma OpsAfterCall(schema: Schema, ttl: int, s: State, e: Event, tx: string)
    requires Inv(s) && !(e.call.Commit? && e.call.tx == tx)
    ensures var before, after := OpsOf(s.ops, tx), OpsOf(After(schema, ttl, s, e).ops, tx);
            || after == before
            || after == []
            || (e.call.Stage? && e.call.tx == tx && After(schema, ttl, s, e).data == s.data
                && after == before + [OpOf(e.call).(id := s.nextId)])
  {
    hide OpsOf;
    hide CommitTrace;
    hide UndoAll;
    var s' := After(schema, ttl, s, e);
    if s' != s {
      var t := CallTrace(schema, ttl, s, e.call);
      match e.call
      case Commit(other, env, now) =>
        var i :| 0 <= i < |t.states| && t.states[i] == s';
        CommitStates(schema, s, other, env, now, i);
        RecordedOthers(s.ops, s'.ops, other, tx);
      case Stage(other, stmt, before, rowIds) =>
        OpsOfAppend(s.ops, Op(s.nextId, other, stmt, before, None, rowIds), tx);
      case Rollback(other, _) =>
        OthersOfOps(s.ops, other, tx);
      case Cleanup(_) =>
        if tx in s'.txs {
          KeepOpsOps(s.ops, s'.txs, tx);
        } else {
          SweptHasNoOps(s.ops, s'.txs, tx);
        }
      case _ =>
    }
  }

  // ----- a failed commit on the way

  /** `b` is `a` with row ids noted on INSERTs of `tx`. */
  ghost predicate IdsRecordedOn(a: seq<Op>, b: seq<Op>, tx: string) {
    && |a| == |b|
    && forall i :: 0 <= i < |a| ==>
         || b[i] == a[i]
         || (a[i].tx == tx && a[i].stmt.Insert? && b[i].rowIds.Some? && |b[i].rowIds.value| == 1
             && b[i] == a[i].(rowIds := b[i].rowIds))
  }

  lemma IdsRecordedTwice(a: seq<Op>, b: seq<Op>, c: seq<Op>, tx: string)
    requires IdsRecordedOn(a, b, tx) && IdsRecordedOn(b, c, tx)
    ensures IdsRecordedOn(a, c, tx)
  {
  }

  lemma OneIdRecorded(a: seq<Op>, rem: seq<Op>, env: Env, tx: string) returns (b: seq<Op>)
    requires rem != [] && AllOf(rem, a, tx) && R.ListedIn(rem, a)
    ensures b == if rem[0].stmt.Insert? && rem[0].id !in env.lostIds
                 then SetRowIds(a, rem[0].id, [InsertedId(rem[0], env)]) else a
    ensures IdsRecordedOn(a, b, tx) && AllOf(rem[1..], b, tx) && R.ListedIn(rem[1..], b)
  {
    b := if rem[0].stmt.Insert? && rem[0].id !in env.lostIds
      then SetRowIds(a, rem[0].id, [InsertedId(rem[0], env)]) else a;
    assert RecordedOn(a, b, tx);
    RecordKeepsOwner(rem, a, b, tx);
    R.IdNoted(a, b, b, rem, env);
  }

  lemma {:induction false} RunOpsNotesIds(schema: Schema, s: State, target: Data, rem: seq<Op>, env: Env, tx: string,
                                          j: nat)
    requires AllOf(rem, s.ops, tx) && R.ListedIn(rem, s.ops) && j < |RunOps(schema, s, target, rem, env).states|
    ensures IdsRecordedOn(s.ops, RunOps(schema, s, target, rem, env).states[j].ops, tx)
    decreases |rem|
  {
    hide IdsRecordedOn;
    hide Step;
    hide R.ListedIn;
    hide AllOf;
    var next := Step(schema, target, rem[0], env);
    var b := OneIdRecorded(s.ops, rem, env, tx);
    var mid := s.(ops := b);
    hide SetRowIds;
    if mid == s && !(rem[0].stmt.Insert? && rem[0].id !in env.lostIds) {
      RunOpsNotesIds(schema, mid, next.value, rem[1..], env, tx, j);
    } else if j > 0 {
      RunOpsNotesIds(schema, mid, next.value, rem[1..], env, tx, j - 1);
      IdsRecordedTwice(s.ops, mid.ops, RunOps(schema, s, target, rem, env).states[j].ops, tx);
    }
  }

  lemma {:induction false} NotedStaysStaged(d: Data, a: seq<Op>, b: seq<Op>, tx: string)
    requires IdsRecordedOn(a, b, tx) && AllStaged(d, OpsOf(a, tx))
    ensures AllStaged(d, OpsOf(b, tx))
  {
    if a != [] {
      var ra, rb := OpsOf(a[1..], tx), OpsOf(b[1..], tx);
      if a[0].tx == tx {
        assert OpsOf(a, tx) == [a[0]] + ra && OpsOf(b, tx) == [b[0]] + rb;
        assert Staged(d, OpsOf(a, tx)[0]);
        forall i | 0 <= i < |ra| ensures Staged(d, ra[i]) {
          assert ra[i] == OpsOf(a, tx)[i + 1];
        }
      } else {
        assert OpsOf(a, tx) == ra && OpsOf(b, tx) == rb;
      }
      NotedStaysStaged(d, a[1..], b[1..], tx);
    }
  }

  lemma FailedCommitStages(schema: Schema, ttl: int, s: State, e: Event)
    requires Inv(s) && e.call.Commit? && FailedCommit(schema, s, e) && AllStaged(s.data, OpsOf(s.ops, e.call.tx))
    ensures var s', tx := After(schema, ttl, s, e), e.call.tx;
            s'.data == s.data && AllStaged(s'.data, OpsOf(s'.ops, tx))
  {
    hide RunOps;
    hide OpsOf;
    var tx, env := e.call.tx, e.call.env;
    var states := RunOps(schema, s, s.data, OpsOf(s.ops, tx), env).states;
    var s' := After(schema, ttl, s, e);
    assert s' == s || s' in states;
    if s' != s {
      var j :| 0 <= j < |states| && states[j] == s';
      MineAreMine(s.ops, s.nextId, tx);
      R.OpsOfMembers(s.ops, s.nextId, tx);
      RunOpsNotesIds(schema, s, s.data, OpsOf(s.ops, tx), env, tx, j);
      NotedStaysStaged(s.data, s.ops, s'.ops, tx);
    }
  }

  lemma StepStages(schema: Schema, ttl: int, s: State, e: Event, tx: string)
    requires Inv(s) && AllStaged(s.data, OpsOf(s.ops, tx)) && StagingStep(schema, ttl, s, e, tx)
    ensures var s' := After(schema, ttl, s, e);
            AllStaged(s'.data, OpsOf(s'.ops, tx))
  {
    hide After;
    hide OpsOf;
    if e.call.Commit? && e.call.tx == tx {
      FailedCommitStages(schema, ttl, s, e);
    } else {
      OpsAfterCall(schema, ttl, s, e, tx);
      StagedStays(s.data, After(schema, ttl, s, e).data, OpsOf(s.ops, tx));
    }
  }

  ghost predicate StagingRun(schema: Schema, ttl: int, s: State, events: seq<Event>, tx: string) {
    forall i :: 0 <= i < |events| ==> StagingStep(schema, ttl, Run(schema, ttl, s, events[..i]), events[i], tx)
  }

  /**
   Operations that were covered when they were staged are covered at the end of any run in which nobody changed
   the rows they name.
   */
  lemma {:induction false} StagedOverRun(schema: Schema, ttl: int, s: State, events: seq<Event>, tx: string)
    requires Inv(s) && AllStaged(s.data, OpsOf(s.ops, tx)) && StagingRun(schema, ttl, s, events, tx)
    ensures var end := Run(schema, ttl, s, events);
            Inv(end) && AllStaged(end.data, OpsOf(end.ops, tx))
  {
    hide StagingStep;
    hide After;
    hide OpsOf;
    RunKeepsInv(schema, ttl, s, events);
    if events != [] {
      var n := |events| - 1;
      assert forall i :: 0 <= i < n ==> events[..n][..i] == events[..i];
      RunKeepsInv(schema, ttl, s, events[..n]);
      StagedOverRun(schema, ttl, s, events[..n], tx);
      assert StagingStep(schema, ttl, Run(schema, ttl, s, events[..n]), events[n], tx);
      StepStages(schema, ttl, Run(schema, ttl, s, events[..n]), events[n], tx);
    }
  }

  /** The call stages what the request asks for. */
  ghost predicate Asks(d: Data, table: string, req: W.Request, cast: W.Cast, call: Call)
    requires call.Stage?
  {
    W.Stages(d, table, req, cast, call.stmt, call.before, call.rowIds)
  }

  /**
   Every staging call of `tx` comes from a request for one row, commits of it fail, and rows already staged are left
   alone.
   */
  ghost predicate RequestStep(schema: Schema, ttl: int, s: State, e: Event, tx: string, cast: W.Cast) {
    && ValidData(schema, s.data)
    && (e.call.Stage? && e.call.tx == tx ==>
          exists table, req :: W.OneRowRequest(req, cast) && Asks(s.data, table, req, cast, e.call))
    && (e.call.Commit? && e.call.tx == tx ==> FailedCommit(schema, s, e))
    && RowsKept(s.data, After(schema, ttl, s, e).data, OpsOf(s.ops, tx))
  }

  ghost predicate RequestRun(schema: Schema, ttl: int, s: State, events: seq<Event>, tx: string, cast: W.Cast) {
    forall i :: 0 <= i < |events| ==> RequestStep(schema, ttl, Run(schema, ttl, s, events[..i]), events[i], tx, cast)
  }

  lemma RequestStepStages(schema: Schema, ttl: int, s: State, e: Event, tx: string, cast: W.Cast)
    requires RequestStep(schema, ttl, s, e, tx, cast)
    ensures StagingStep(schema, ttl, s, e, tx)
  {
    hide After;
    hide W.OneRowRequest;
    hide W.Stages;
    if e.call.Stage? && e.call.tx == tx {
      var table, req :| W.OneRowRequest(req, cast) && Asks(s.data, table, req, cast, e.call);
      W.OneRowIsCovered(schema, s.data, table, req, cast, OpOf(e.call));
    }
  }

  /**
   The whole saga from its requests. A transaction without operations is staged by requests for one row each, over
   any run in which nobody changes a row already staged, failed commits of it included; it commits; then anything
   happens for at most the TTL, and it is rolled back. The outcome is the right one with respect to the data at the
   commit.
   */
  lemma SagaFromRequests(types: Types, schema: Schema, ttl: int, s0: State, staging: seq<Event>, tx: string,
                         cast: W.Cast, env: Env, now: int, events: seq<Event>, clock: Clock, later: int)
    requires Inv(s0) && OpsOf(s0.ops, tx) == [] && RequestRun(schema, ttl, s0, staging, tx, cast)
    requires var s := Run(schema, ttl, s0, staging);
             && Has(s, tx, Pending) && ValidData(schema, s.data)
             && CommitTrace(schema, s, tx, env, now).fault.None?
             && var s1 := Final(s, CommitTrace(schema, s, tx, env, now).states);
                && SweepsBy(events, now + ttl) && NeverMarkedUndone(schema, ttl, s1, events, tx)
                && ValidData(schema, Run(schema, ttl, s1, events).data)
    ensures var s := Run(schema, ttl, s0, staging);
            var s1 := Final(s, CommitTrace(schema, s, tx, env, now).states);
            var s2 := Run(schema, ttl, s1, events);
            && Has(s2, tx, Status.Committed)
            && RightOutcome(types, s.data, s1.data, OpsOf(s.ops, tx), env, s2, tx, clock,
                            PostTrace(schema, s2, tx, clock, later))
  {
    hide RightOutcome;
    hide StagingStep;
    hide RequestStep;
    hide CommitTrace;
    hide PostTrace;
    hide OpsOf;
    forall i | 0 <= i < |staging| ensures StagingStep(schema, ttl, Run(schema, ttl, s0, staging[..i]), staging[i], tx) {
      assert RequestStep(schema, ttl, Run(schema, ttl, s0, staging[..i]), staging[i], tx, cast);
      RequestStepStages(schema, ttl, Run(schema, ttl, s0, staging[..i]), staging[i], tx, cast);
    }
    StagedOverRun(schema, ttl, s0, staging, tx);
    SagaOverRuns(types, schema, ttl, Run(schema, ttl, s0, staging), tx, env, now, events, clock, later);
  }
}
