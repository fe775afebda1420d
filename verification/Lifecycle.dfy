/**
 The life of a transaction over every run of the manager, crashes included: which way its status moves, what
 freezes its operations, and how long it stays.
 */
module Lifecycle {
  import opened Wrappers
  import opened Rows
  import opened Saga
  import opened Store
  import opened CommitRecord
  import opened Calls

  predicate Moves(a: Status, b: Status) {
    a == b || (a == Pending && (b == Committed || b == RolledBack)) || (a == Committed && b == RolledBack)
  }

  /** Pending, or committed, for longer than the time to live. */
  predicate Overdue(t: Tx, ttl: int, now: int) {
    match t.status
    case Pending => now - t.createdAt > ttl
    case Committed => now - t.updatedAt > ttl
    case RolledBack => false
    case Committing => false
  }

  /** What one durable step may do to the transactions. */
  ghost predicate Lawful(ttl: int, s: State, call: Call, s': State) {
    && (forall tx :: tx in s.txs && tx in s'.txs ==>
          && Moves(s.txs[tx].status, s'.txs[tx].status)
          && s'.txs[tx].createdAt == s.txs[tx].createdAt
          && (s'.txs[tx].status == s.txs[tx].status ==> s'.txs[tx] == s.txs[tx])
          && (s'.txs[tx].status != s.txs[tx].status ==>
                (call.Commit? || call.Rollback? || call.RollbackPost?) && s'.txs[tx].updatedAt == call.now)
          && (s.txs[tx].status == Committed && s'.txs[tx].status == RolledBack ==>
                call.RollbackPost? && call.tx == tx)
          && (s.txs[tx].status == Pending && s'.txs[tx].status == RolledBack ==>
                call.Rollback? && call.tx == tx && OpsOf(s'.ops, tx) == []))
    && (forall tx :: tx in s'.txs && tx !in s.txs ==>
          call.Start? && call.id == tx && s'.txs[tx] == Tx(call.schemaName, Pending, call.now, call.now))
    && (forall tx :: tx in s.txs && tx !in s'.txs ==> call.Cleanup? && Overdue(s.txs[tx], ttl, call.now))
    && (forall tx :: tx in s'.txs && Has(s, tx, Committed) ==> OpsOf(s'.ops, tx) == OpsOf(s.ops, tx))
  }

  // ----- the operations table

  /** `b` is `a` with something recorded on operations of `tx`. */
  ghost predicate RecordedOn(a: seq<Op>, b: seq<Op>, tx: string) {
    && |a| == |b|
    && forall i :: 0 <= i < |a| ==>
         && b[i].id == a[i].id && b[i].tx == a[i].tx && b[i].stmt == a[i].stmt && b[i].before == a[i].before
         && (a[i].tx != tx ==> b[i] == a[i])
  }

  ghost predicate EachRecordedOn(a: seq<Op>, states: seq<State>, tx: string) {
    forall i :: 0 <= i < |states| ==> RecordedOn(a, states[i].ops, tx)
  }

  ghost predicate AllOf(rem: seq<Op>, ops: seq<Op>, tx: string) {
    forall i, j :: 0 <= i < |rem| && 0 <= j < |ops| && rem[i].id == ops[j].id ==> ops[j].tx == tx
  }

  lemma RecordedTwice(a: seq<Op>, b: seq<Op>, c: seq<Op>, tx: string)
    requires RecordedOn(a, b, tx) && RecordedOn(b, c, tx)
    ensures RecordedOn(a, c, tx)
  {
  }

  lemma RecordThenRecord(a: seq<Op>, b: seq<Op>, states: seq<State>, tx: string)
    requires RecordedOn(a, b, tx) && EachRecordedOn(b, states, tx)
    ensures EachRecordedOn(a, states, tx)
  {
    forall i | 0 <= i < |states| ensures RecordedOn(a, states[i].ops, tx) {
      RecordedTwice(a, b, states[i].ops, tx);
    }
  }

  lemma RecordKeepsOwner(rem: seq<Op>, a: seq<Op>, b: seq<Op>, tx: string)
    requires rem != [] && AllOf(rem, a, tx) && RecordedOn(a, b, tx)
    ensures AllOf(rem[1..], b, tx)
  {
    assert forall i :: 0 <= i < |rem| - 1 ==> rem[1..][i] == rem[i + 1];
  }

  lemma {:induction false} RunOpsRecords(schema: Schema, s: State, target: Data, rem: seq<Op>, env: Env, tx: string)
    requires AllOf(rem, s.ops, tx)
    ensures EachRecordedOn(s.ops, RunOps(schema, s, target, rem, env).states, tx)
    decreases |rem|
  {
    if rem != [] {
      var next := Step(schema, target, rem[0], env);
      if next.Ok? {
        var mid := if rem[0].stmt.Insert? && rem[0].id !in env.lostIds
          then s.(ops := SetRowIds(s.ops, rem[0].id, [InsertedId(rem[0], env)])) else s;
        assert RecordedOn(s.ops, mid.ops, tx);
        RecordKeepsOwner(rem, s.ops, mid.ops, tx);
        RunOpsRecords(schema, mid, next.value, rem[1..], env, tx);
        RecordThenRecord(s.ops, mid.ops, RunOps(schema, mid, next.value, rem[1..], env).states, tx);
      }
    }
  }

  lemma {:induction false} NoteOpsRecords(s: State, rem: seq<Op>, env: Env, tx: string)
    requires AllOf(rem, s.ops, tx)
    ensures EachRecordedOn(s.ops, NoteOps(s, rem, env), tx)
    decreases |rem|
  {
    if rem != [] {
      var rows := if rem[0].before.None? then [] else CurrentRows(s.data, rem[0].stmt.table, rem[0].before.value);
      var mid := if rows != [] && rem[0].id !in env.lostStates
        then s.(ops := SetCommitted(s.ops, rem[0].id, rows)) else s;
      assert RecordedOn(s.ops, mid.ops, tx);
      RecordKeepsOwner(rem, s.ops, mid.ops, tx);
      NoteOpsRecords(mid, rem[1..], env, tx);
      RecordThenRecord(s.ops, mid.ops, NoteOps(mid, rem[1..], env), tx);
    }
  }

  lemma {:induction false} RecordedOthers(a: seq<Op>, b: seq<Op>, tx: string, other: string)
    requires RecordedOn(a, b, tx) && other != tx
    ensures OpsOf(b, other) == OpsOf(a, other)
  {
    if a != [] {
      RecordedOthers(a[1..], b[1..], tx, other);
    }
  }

  /** Every durable state of a commit but the last has the old statuses; the last has one more committed. */
  lemma CommitStates(schema: Schema, s: State, tx: string, env: Env, now: int, i: nat)
    requires Inv(s) && i < |CommitTrace(schema, s, tx, env, now).states|
    ensures var t := CommitTrace(schema, s, tx, env, now);
            var st := t.states[i];
            && Has(s, tx, Pending)
            && RecordedOn(s.ops, st.ops, tx)
            && st.nextId == s.nextId
            && st.txs == if t.fault.None? && i == |t.states| - 1
                         then s.txs[tx := s.txs[tx].(status := Committed, updatedAt := now)] else s.txs
  {
    hide RunOps;
    var mine := OpsOf(s.ops, tx);
    MineAreMine(s.ops, s.nextId, tx);
    RunOpsRecords(schema, s, s.data, mine, env, tx);
    var p := RunOps(schema, s, s.data, mine, env);
    if p.target.Ok? {
      var applied := Final(s, p.states).(data := p.target.value);
      var notes := NoteOps(applied, mine, env);
      assert RecordedOn(s.ops, applied.ops, tx);
      assert AllOf(mine, applied.ops, tx);
      NoteOpsRecords(applied, mine, env, tx);
      RecordThenRecord(s.ops, applied.ops, notes, tx);
      var states := CommitTrace(schema, s, tx, env, now).states;
      assert states == p.states + [applied] + notes + [Publish(Final(applied, notes), Marked(Locked(s, tx), now))];
      assert i < |p.states| ==> states[i] == p.states[i];
      assert |p.states| < i < |states| - 1 ==> states[i] == notes[i - |p.states| - 1];
    }
  }

  lemma MineAreMine(ops: seq<Op>, nextId: nat, tx: string)
    requires IdsRise(ops, nextId)
    ensures AllOf(OpsOf(ops, tx), ops, tx)
  {
    OpsOfMembers(ops, nextId, tx);
    var mine := OpsOf(ops, tx);
    forall i, j | 0 <= i < |mine| && 0 <= j < |ops| && mine[i].id == ops[j].id ensures ops[j].tx == tx {
      assert HasId(mine, ops[j].id);
    }
  }

  lemma CommitIsLawful(schema: Schema, ttl: int, s: State, call: Call, s': State)
    requires Inv(s) && call.Commit? && s' in CallTrace(schema, ttl, s, call).states
    ensures Inv(s') && Lawful(ttl, s, call, s')
  {
    var t := CallTrace(schema, ttl, s, call);
    var i :| 0 <= i < |t.states| && t.states[i] == s';
    CommitStates(schema, s, call.tx, call.env, call.now, i);
    forall tx | tx in s'.txs && Has(s, tx, Committed) ensures OpsOf(s'.ops, tx) == OpsOf(s.ops, tx) {
      RecordedOthers(s.ops, s'.ops, call.tx, tx);
    }
  }

  lemma {:induction false} OthersOfKeeps(ops: seq<Op>, nextId: nat, tx: string)
    requires IdsRise(ops, nextId)
    ensures IdsRise(OthersOf(ops, tx), nextId)
    ensures forall op :: op in OthersOf(ops, tx) ==> op in ops && op.tx != tx
  {
    if ops != [] {
      OthersOfKeeps(ops[1..], nextId, tx);
      var rest := OthersOf(ops[1..], tx);
      forall i | 0 <= i < |rest| ensures ops[0].id < rest[i].id {
        assert rest[i] in ops[1..];
      }
    }
  }

  lemma {:induction false} OthersOfOps(ops: seq<Op>, tx: string, other: string)
    ensures OpsOf(OthersOf(ops, tx), other) == if other == tx then [] else OpsOf(ops, other)
  {
    if ops != [] {
      OthersOfOps(ops[1..], tx, other);
      var rest := OthersOf(ops[1..], tx);
      assert OthersOf(ops, tx) == if ops[0].tx != tx then [ops[0]] + rest else rest;
      assert ([ops[0]] + rest)[1..] == rest;
    }
  }

  lemma {:induction false} KeepOpsKeeps(ops: seq<Op>, nextId: nat, txs: map<string, Tx>)
    requires IdsRise(ops, nextId)
    ensures IdsRise(KeepOps(ops, txs), nextId)
    ensures forall op :: op in KeepOps(ops, txs) ==> op in ops && op.tx in txs
  {
    if ops != [] {
      KeepOpsKeeps(ops[1..], nextId, txs);
      var rest := KeepOps(ops[1..], txs);
      forall i | 0 <= i < |rest| ensures ops[0].id < rest[i].id {
        assert rest[i] in ops[1..];
      }
    }
  }

  lemma {:induction false} KeepOpsOps(ops: seq<Op>, txs: map<string, Tx>, tx: string)
    requires tx in txs
    ensures OpsOf(KeepOps(ops, txs), tx) == OpsOf(ops, tx)
  {
    if ops != [] {
      KeepOpsOps(ops[1..], txs, tx);
      var rest := KeepOps(ops[1..], txs);
      assert KeepOps(ops, txs) == if ops[0].tx in txs then [ops[0]] + rest else rest;
      assert ([ops[0]] + rest)[1..] == rest;
    }
  }

  lemma {:induction false} SweptHasNoOps(ops: seq<Op>, txs: map<string, Tx>, tx: string)
    requires tx !in txs
    ensures OpsOf(KeepOps(ops, txs), tx) == []
  {
    if ops != [] {
      SweptHasNoOps(ops[1..], txs, tx);
      var rest := KeepOps(ops[1..], txs);
      assert KeepOps(ops, txs) == if ops[0].tx in txs then [ops[0]] + rest else rest;
      assert ([ops[0]] + rest)[1..] == rest;
    }
  }

  /** A sweep removes exactly the overdue transactions, each with its operations, and changes nothing else. */
  lemma SweepIsExact(s: State, ttl: int, now: int)
    ensures var end := Final(s, CleanupTrace(s, ttl, now).states);
            && end.data == s.data && end.nextId == s.nextId
            && (forall tx :: tx in end.txs <==> tx in s.txs && !Overdue(s.txs[tx], ttl, now))
            && (forall tx :: tx in end.txs ==> end.txs[tx] == s.txs[tx] && OpsOf(end.ops, tx) == OpsOf(s.ops, tx))
            && (forall tx :: tx !in end.txs ==> OpsOf(end.ops, tx) == [])
  {
    var end := Final(s, CleanupTrace(s, ttl, now).states);
    forall tx ensures OpsOf(end.ops, tx) == if tx in end.txs then OpsOf(s.ops, tx) else [] {
      if tx in end.txs {
        KeepOpsOps(s.ops, end.txs, tx);
      } else {
        SweptHasNoOps(s.ops, end.txs, tx);
      }
    }
  }

  lemma {:induction false} OpsOfAppend(ops: seq<Op>, op: Op, tx: string)
    ensures OpsOf(ops + [op], tx) == OpsOf(ops, tx) + if op.tx == tx then [op] else []
  {
    var all := ops + [op];
    if ops == [] {
      assert all[0] == op && all[1..] == [];
      assert OpsOf(all[1..], tx) == [];
    } else {
      assert all[0] == ops[0] && all[1..] == ops[1..] + [op];
      var first := if ops[0].tx == tx then [ops[0]] else [];
      var rest := OpsOf(ops[1..], tx);
      OpsOfAppend(ops[1..], op, tx);
      assert first + (rest + if op.tx == tx then [op] else []) == (first + rest) + if op.tx == tx then [op] else [];
    }
  }

  lemma StageIsLawful(schema: Schema, ttl: int, s: State, call: Call, s': State)
    requires Inv(s) && call.Stage? && s' in CallTrace(schema, ttl, s, call).states
    ensures Inv(s') && Lawful(ttl, s, call, s')
  {
    forall tx | Has(s, tx, Committed) ensures OpsOf(s'.ops, tx) == OpsOf(s.ops, tx) {
      OpsOfAppend(s.ops, s'.ops[|s.ops|], tx);
    }
  }

  lemma RollbackKeepsInv(s: State, tx: string, now: int, s': State)
    requires Inv(s) && s' in RollbackTrace(s, tx, now).states
    ensures Inv(s')
  {
    OthersOfKeeps(s.ops, s.nextId, tx);
    hide OthersOf;
    assert forall i :: 0 <= i < |s'.ops| ==> s'.ops[i] in s'.ops;
  }

  lemma RollbackIsLawful(schema: Schema, ttl: int, s: State, call: Call, s': State)
    requires Inv(s) && call.Rollback? && s' in CallTrace(schema, ttl, s, call).states
    ensures Inv(s') && Lawful(ttl, s, call, s')
  {
    RollbackKeepsInv(s, call.tx, call.now, s');
    forall tx ensures OpsOf(OthersOf(s.ops, call.tx), tx) == if tx == call.tx then [] else OpsOf(s.ops, tx) {
      OthersOfOps(s.ops, call.tx, tx);
    }
    assert s' in RollbackTrace(s, call.tx, call.now).states;
    hide CallTrace;
    hide Inv;
    hide OthersOf;
    hide OpsOf;
    hide Overdue;
  }

  lemma SweepKeepsInv(s: State, ttl: int, now: int)
    requires Inv(s)
    ensures Inv(Final(s, CleanupTrace(s, ttl, now).states))
  {
    var end := Final(s, CleanupTrace(s, ttl, now).states);
    SweepIsExact(s, ttl, now);
    KeepOpsKeeps(s.ops, s.nextId, end.txs);
    hide KeepOps;
    hide Overdue;
    hide Expired;
    hide OpsOf;
    assert forall i :: 0 <= i < |end.ops| ==> end.ops[i] in end.ops;
  }

  lemma CleanupIsLawful(schema: Schema, ttl: int, s: State, call: Call, s': State)
    requires Inv(s) && call.Cleanup? && s' in CallTrace(schema, ttl, s, call).states
    ensures Inv(s') && Lawful(ttl, s, call, s')
  {
    SweepKeepsInv(s, ttl, call.now);
    SweepIsExact(s, ttl, call.now);
    assert s' == Final(s, CleanupTrace(s, ttl, call.now).states);
    hide CallTrace;
    hide CleanupTrace;
    hide Inv;
    hide OpsOf;
    hide Overdue;
  }

  /** Calls that touch no operation: a start, a rollback after commit, another client. */
  lemma OthersAreLawful(schema: Schema, ttl: int, s: State, call: Call, s': State)
    requires Inv(s) && (call.Start? || call.RollbackPost? || call.OtherClient?)
    requires s' in CallTrace(schema, ttl, s, call).states
    ensures Inv(s') && Lawful(ttl, s, call, s')
  {
  }

  lemma StayingIsLawful(ttl: int, s: State, call: Call)
    requires Inv(s)
    ensures Lawful(ttl, s, call, s)
  {
  }

  /** Every durable state that a call can leave behind is lawful. */
  lemma EventIsLawful(schema: Schema, ttl: int, s: State, e: Event)
    requires Inv(s)
    ensures Inv(After(schema, ttl, s, e)) && Lawful(ttl, s, e.call, After(schema, ttl, s, e))
  {
    hide Inv;
    hide Lawful;
    hide CallTrace;
    var s' := After(schema, ttl, s, e);
    StayingIsLawful(ttl, s, e.call);
    if s' != s {
      match e.call
      case Commit(_, _, _) => CommitIsLawful(schema, ttl, s, e.call, s');
      case Stage(_, _, _, _) => StageIsLawful(schema, ttl, s, e.call, s');
      case Rollback(_, _) => RollbackIsLawful(schema, ttl, s, e.call, s');
      case Cleanup(_) => CleanupIsLawful(schema, ttl, s, e.call, s');
      case _ => OthersAreLawful(schema, ttl, s, e.call, s');
    }
  }

  /** Over a whole run from any reachable state: no dangling operation, `committing` never seen. */
  lemma {:induction false} RunKeepsInv(schema: Schema, ttl: int, s: State, events: seq<Event>)
    requires Inv(s)
    ensures Inv(Run(schema, ttl, s, events))
  {
    if events != [] {
      var init := events[..|events| - 1];
      RunKeepsInv(schema, ttl, s, init);
      EventIsLawful(schema, ttl, Run(schema, ttl, s, init), events[|events| - 1]);
    }
  }

  /** Status moves one way over a whole run, as long as nobody starts a second transaction under the same id. */
  lemma {:induction false} StatusMovesOneWay(schema: Schema, ttl: int, s: State, events: seq<Event>, tx: string)
    requires Inv(s) && tx in s.txs
    requires forall i :: 0 <= i < |events| ==> !(events[i].call.Start? && events[i].call.id == tx)
    ensures var end := Run(schema, ttl, s, events);
            tx in end.txs ==>
              && Moves(s.txs[tx].status, end.txs[tx].status)
              && (s.txs[tx].status != Pending ==> OpsOf(end.ops, tx) == OpsOf(s.ops, tx))
  {
    hide Inv;
    hide OpsOf;
    hide IdsRise;
    if events != [] {
      var n := |events| - 1;
      var init := events[..n];
      RunKeepsInv(schema, ttl, s, init);
      StatusMovesOneWay(schema, ttl, s, init, tx);
      EventIsLawful(schema, ttl, Run(schema, ttl, s, init), events[n]);
      RolledBackOpsStay(schema, ttl, Run(schema, ttl, s, init), events[n], tx);
    }
  }

  /** The operations of a rolled-back transaction are not touched either. */
  lemma RolledBackOpsStay(schema: Schema, ttl: int, s: State, e: Event, tx: string)
    requires Inv(s)
    ensures var s' := After(schema, ttl, s, e);
            tx in s'.txs && Has(s, tx, RolledBack) ==> OpsOf(s'.ops, tx) == OpsOf(s.ops, tx)
  {
    hide OpsOf;
    hide Inv;
    hide CommitTrace;
    var s' := After(schema, ttl, s, e);
    if s' != s && tx in s'.txs && Has(s, tx, RolledBack) {
      var t := CallTrace(schema, ttl, s, e.call);
      match e.call
      case Commit(other, env, now) =>
        var i :| 0 <= i < |t.states| && t.states[i] == s';
        CommitStates(schema, s, other, env, now, i);
        RecordedOthers(s.ops, s'.ops, other, tx);
      case Stage(other, stmt, before, rowIds) =>
        OpsOfAppend(s.ops, s'.ops[|s.ops|], tx);
      case Rollback(other, _) =>
        OthersOfOps(s.ops, other, tx);
      case Cleanup(_) =>
        KeepOpsOps(s.ops, s'.txs, tx);
      case _ =>
    }
  }

  /** No sweep of the run comes later than `limit`. */
  ghost predicate SweepsBy(events: seq<Event>, limit: int) {
    forall i :: 0 <= i < |events| && events[i].call.Cleanup? ==> events[i].call.now <= limit
  }

  /** No rollback of `tx` in the run got as far as its status write: each was refused, or stopped by a crash. */
  ghost predicate NeverMarkedUndone(schema: Schema, ttl: int, s: State, events: seq<Event>, tx: string) {
    forall i :: 0 <= i < |events| && events[i].call.RollbackPost? && events[i].call.tx == tx ==>
      Unfinished(schema, Run(schema, ttl, s, events[..i]), events[i])
  }

  predicate Unfinished(schema: Schema, s: State, e: Event)
    requires e.call.RollbackPost?
  {
    e.stop <= 1 || PostTrace(schema, s, e.call.tx, e.call.clock, e.call.now).fault.Some?
  }

  lemma UnfinishedKeepsRecords(schema: Schema, ttl: int, s: State, e: Event)
    requires e.call.RollbackPost? && Unfinished(schema, s, e)
    ensures After(schema, ttl, s, e).txs == s.txs && After(schema, ttl, s, e).ops == s.ops
  {
    hide UndoAll;
  }

  lemma CommittedStaysOneStep(schema: Schema, ttl: int, s: State, e: Event, tx: string)
    requires Inv(s) && Has(s, tx, Committed)
    requires e.call.Cleanup? ==> e.call.now <= s.txs[tx].updatedAt + ttl
    requires e.call.RollbackPost? && e.call.tx == tx ==> Unfinished(schema, s, e)
    ensures var end := After(schema, ttl, s, e);
            && tx in end.txs && end.txs[tx] == s.txs[tx]
            && OpsOf(end.ops, tx) == OpsOf(s.ops, tx)
  {
    hide OpsOf;
    hide Inv;
    hide Unfinished;
    hide After;
    EventIsLawful(schema, ttl, s, e);
    if e.call.RollbackPost? && e.call.tx == tx {
      UnfinishedKeepsRecords(schema, ttl, s, e);
    }
  }

  /**
   A committed transaction stays committed, with the operations it committed, for at least the TTL: over every
   run whose sweeps come no later than the TTL after the commit, refused and crashed rollbacks of it included.
   */
  lemma {:induction false} CommittedStaysUndoable(schema: Schema, ttl: int, s: State, events: seq<Event>, tx: string)
    requires Inv(s) && Has(s, tx, Committed)
    requires SweepsBy(events, s.txs[tx].updatedAt + ttl) && NeverMarkedUndone(schema, ttl, s, events, tx)
    ensures var end := Run(schema, ttl, s, events);
            && tx in end.txs && end.txs[tx] == s.txs[tx]
            && OpsOf(end.ops, tx) == OpsOf(s.ops, tx)
  {
    hide OpsOf;
    hide Inv;
    hide Unfinished;
    hide After;
    if events != [] {
      var n := |events| - 1;
      var init := events[..n];
      assert forall i :: 0 <= i < n ==> init[..i] == events[..i];
      RunKeepsInv(schema, ttl, s, init);
      CommittedStaysUndoable(schema, ttl, s, init, tx);
      CommittedStaysOneStep(schema, ttl, Run(schema, ttl, s, init), events[n], tx);
    }
  }
}
