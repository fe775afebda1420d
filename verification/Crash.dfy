/** The saga over whole runs of the store, and at every point where a crash can stop a commit or a rollback. */
module Crash {
  import opened Wrappers
  import opened Rows
  import opened Saga
  import opened Undo
  import opened Refusal
  import opened Store
  import opened CommitRecord
  import opened Calls
  import opened Lifecycle

  /** The durable states of a commit before the target transaction commits: only row ids were noted. */
  function BeforeTarget(schema: Schema, s: State, tx: string, env: Env): nat {
    |RunOps(schema, s, s.data, OpsOf(s.ops, tx), env).states|
  }

  /**
   Every durable state of a commit has either none or all of the transaction's changes, and shows
   `committed` only with all of them. The reverse fails: between the target's commit and
   the last write the changes are there while the status still says pending.
   */
  lemma CommitIsCrashSafe(schema: Schema, s: State, tx: string, env: Env, now: int, i: nat)
    requires Inv(s) && i < |CommitTrace(schema, s, tx, env, now).states|
    ensures var states := CommitTrace(schema, s, tx, env, now).states;
            var fwd := Forward(schema, s.data, OpsOf(s.ops, tx), env);
            && tx in states[i].txs
            && (forall t :: t in states[i].txs ==> states[i].txs[t].status != Committing)
            && (i < BeforeTarget(schema, s, tx, env) ==> states[i].data == s.data && Has(states[i], tx, Pending))
            && (i >= BeforeTarget(schema, s, tx, env) ==> fwd.Ok? && states[i].data == fwd.value.data)
            && (Has(states[i], tx, Committed) <==> fwd.Ok? && i == |states| - 1)
            && (Has(states[i], tx, Pending) <==> !Has(states[i], tx, Committed))
  {
    hide OpsOf;
    hide Forward;
    var t := CommitTrace(schema, s, tx, env, now);
    CommitStates(schema, s, tx, env, now, i);
    OpsOfMembers(s.ops, s.nextId, tx);
    IdsAreNoted(schema, s, s.data, OpsOf(s.ops, tx), env);
  }

  /**
   The lock transaction says `committing` from the first moment of a commit to the last but one, and nobody else
   ever sees it: what a crash at any moment leaves is a state of the commit's trace, and only the last moment has
   the status committed.
   */
  lemma LockIsPrivate(schema: Schema, s: State, tx: string, env: Env, now: int, i: nat)
    requires Inv(s) && i < |CommitMoments(schema, s, tx, env, now)|
    ensures var moments := CommitMoments(schema, s, tx, env, now);
            var m, t := moments[i], CommitTrace(schema, s, tx, env, now);
            && (m.store == s || m.store in t.states)
            && (forall id :: id in m.store.txs ==> m.store.txs[id].status != Committing)
            && (m.lock.Free? <==> i == |moments| - 1)
            && (m.lock.Held? ==>
                  && m.lock.tx == tx
                  && m.lock.row.status == if t.fault.None? && i == |moments| - 2 then Committed else Committing)
            && (Has(m.store, tx, Committed) <==> t.fault.None? && i == |moments| - 1)
  {
    hide RunOps;
    hide NoteOps;
    hide OpsOf;
    var t := CommitTrace(schema, s, tx, env, now);
    var m := CommitMoments(schema, s, tx, env, now)[i];
    MomentIsDurable(schema, s, tx, env, now, i);
    LockSays(schema, s, tx, env, now, i);
    hide CommitMoments;
    hide CommitTrace;
    if m.store != s {
      var j :| 0 <= j < |t.states| && t.states[j] == m.store;
      CommitStates(schema, s, tx, env, now, j);
    }
  }

  lemma LockSays(schema: Schema, s: State, tx: string, env: Env, now: int, i: nat)
    requires i < |CommitMoments(schema, s, tx, env, now)|
    ensures var moments := CommitMoments(schema, s, tx, env, now);
            var m, t := moments[i], CommitTrace(schema, s, tx, env, now);
            && (m.lock.Free? <==> i == |moments| - 1)
            && (m.lock.Held? ==>
                  && m.lock.tx == tx
                  && m.lock.row.status == if t.fault.None? && i == |moments| - 2 then Committed else Committing)
            && (m.store.txs == s.txs || (t.fault.None? && i == |moments| - 1))
            && Has(s, tx, Pending)
            && (t.fault.None? && i == |moments| - 1 ==> Has(m.store, tx, Committed))
  {
    hide RunOps;
    hide NoteOps;
    hide OpsOf;
  }

  /** Every moment of a commit shows the store as it was, or as one of the durable states of the commit. */
  lemma MomentIsDurable(schema: Schema, s: State, tx: string, env: Env, now: int, i: nat)
    requires i < |CommitMoments(schema, s, tx, env, now)|
    ensures var moments := CommitMoments(schema, s, tx, env, now);
            var t := CommitTrace(schema, s, tx, env, now);
            moments[i].store == s || moments[i].store in t.states
  {
    hide RunOps;
    hide NoteOps;
    hide OpsOf;
    var ops := OpsOf(s.ops, tx);
    var p := RunOps(schema, s, s.data, ops, env);
    var states := CommitTrace(schema, s, tx, env, now).states;
    var n, m := |p.states|, CommitMoments(schema, s, tx, env, now)[i];
    if p.target.Err? {
      assert m.store == if i == 0 then s else if i <= n then states[i - 1] else Final(s, states);
    } else {
      var applied := Final(s, p.states).(data := p.target.value);
      var notes := NoteOps(applied, ops, env);
      var k := |notes|;
      hide Final;
      assert states == p.states + [applied] + notes + [states[n + 1 + k]];
      assert m.store == if i == 0 then s else if i <= n + 1 + k then states[i - 1]
                        else if i == n + 2 + k then Final(applied, notes) else states[n + 1 + k];
      LastOf(applied, notes);
      assert states[n] == applied && (k > 0 ==> states[n + k] == notes[k - 1]);
    }
  }

  lemma LastOf(s: State, trace: seq<State>)
    ensures Final(s, trace) == if trace == [] then s else trace[|trace| - 1]
  {
  }

  /** What a state must hold for the undo theorems to apply to its committed transaction `tx`. */
  ghost predicate Undoable(schema: Schema, d0: Data, ops: seq<Op>, env: Env, dn: Data, s: State, tx: string) {
    && Undo.Committed(schema, d0, ops, env, dn)
    && ValidData(schema, s.data)
    && Has(s, tx, Status.Committed)
    && OpsOf(s.ops, tx) == FinishAll(dn, ops, env)
  }

  /**
   A rollback after commit shows `rolled_back` only with the changes undone. If it stops between its data
   commit and its status write, running it again either refuses or changes nothing but `updated_at`.
   */
  lemma RollbackIsCrashSafe(schema: Schema, d0: Data, ops: seq<Op>, env: Env, dn: Data, s: State, tx: string,
                            clock: Clock, now: int, clock2: Clock, now2: int)
    requires Undoable(schema, d0, ops, env, dn, s, tx)
    requires PostTrace(schema, s, tx, clock, now).fault.None?
    ensures var states := PostTrace(schema, s, tx, clock, now).states;
            var undone := UndoAll(schema, s.data, OpsOf(s.ops, tx), clock);
            && |states| == 2 && undone.Ok?
            && states[0] == s.(data := undone.value)
            && states[1].data == undone.value && Has(states[1], tx, RolledBack)
            && var again := PostTrace(schema, states[0], tx, clock2, now2);
               again.fault.None? ==>
                 forall k :: SameRow(Lookup(Final(states[0], again.states).data, k), Lookup(states[0].data, k))
  {
    var states := PostTrace(schema, s, tx, clock, now).states;
    var done := FinishAll(dn, ops, env);
    CommittedIsMidway(schema, d0, ops, env, dn);
    UndoEnds(schema, d0, d0, ops, env, dn, s.data, clock);
    var stopped := states[0];
    var again := PostTrace(schema, stopped, tx, clock2, now2);
    if again.fault.None? {
      UndoEnds(schema, d0, d0, ops, env, dn, stopped.data, clock2);
      var end := Final(stopped, again.states).data;
      hide UndoAll;
      hide PostTrace;
      hide FinishAll;
      forall k ensures SameRow(Lookup(end, k), Lookup(stopped.data, k)) {
        EndsTwice(schema, d0, done, k, Lookup(s.data, k), Lookup(stopped.data, k), Lookup(end, k));
      }
    }
  }

  lemma EndsTwice(schema: Schema, d0: Data, done: seq<Op>, k: Key, found: Option<Row>, once: Option<Row>,
                  twice: Option<Row>)
    requires EndsAs(schema, d0, done, k, found, once) && EndsAs(schema, d0, done, k, once, twice)
    ensures SameRow(twice, once)
  {
  }

  /**
   What a rollback of an undoable transaction does to the store. A refusal changes nothing. A success restores exactly
   the restorable rows among those the transaction changed, which are all of them when no record was lost. When the
   columns of the database are typed, `Refused` says exactly when it is refused.
   */
  ghost predicate RightOutcome(types: Types, d0: Data, dn: Data, ops: seq<Op>, env: Env, s: State, tx: string,
                               clock: Clock, t: Trace) {
    var end := Final(s, t.states);
    && (t.fault.Some? ==> end == s)
    && (t.fault.None? ==> Has(end, tx, RolledBack) && RestoresRightly(d0, dn, ops, env, s.data, clock, end.data))
    && (TypedData(types, dn) && TypedData(types, s.data) ==>
          (t.fault.Some? <==> Refused(d0, dn, s.data, FinishAll(dn, ops, env))))
  }

  ghost predicate RestoresRightly(d0: Data, dn: Data, ops: seq<Op>, env: Env, found: Data, clock: Clock,
                                  end: Data) {
    var done := FinishAll(dn, ops, env);
    && (forall k :: Stamped(d0, done, k, Lookup(end, k), clock))
    && (forall k :: if Touches(d0, ops, env, k)
                    then SameRow(Lookup(end, k), Lookup(d0, k)) <==> Restorable(d0, found, done, k)
                    else Lookup(end, k) == if Inserts(done, k) then None else Lookup(found, k))
    && (Lossless(env, ops) ==>
          forall k :: if Touches(d0, ops, env, k) then SameRow(Lookup(end, k), Lookup(d0, k))
                      else Lookup(end, k) == Lookup(found, k))
  }

  lemma UndoRestoresRightly(schema: Schema, d0: Data, ops: seq<Op>, env: Env, dn: Data, found: Data, clock: Clock)
    requires Undo.Committed(schema, d0, ops, env, dn) && ValidData(schema, found)
    requires UndoAll(schema, found, FinishAll(dn, ops, env), clock).Ok?
    ensures RestoresRightly(d0, dn, ops, env, found, clock,
                            UndoAll(schema, found, FinishAll(dn, ops, env), clock).value)
  {
    UndoRestoresIff(schema, d0, ops, env, dn, found, clock);
    if Lossless(env, ops) {
      UndoRestores(schema, d0, ops, env, dn, found, clock);
    }
    hide UndoAll;
    hide Undo.Committed;
    hide Touches;
    hide Restorable;
    hide Inserts;
    hide ValidData;
    hide SameRow;
    hide Stamped;
  }

  lemma RollbackOutcome(types: Types, schema: Schema, d0: Data, ops: seq<Op>, env: Env, dn: Data, s: State, tx: string,
                        clock: Clock, now: int)
    requires Undoable(schema, d0, ops, env, dn, s, tx)
    ensures RightOutcome(types, d0, dn, ops, env, s, tx, clock, PostTrace(schema, s, tx, clock, now))
  {
    hide Refused;
    hide RestoresRightly;
    hide UndoAll;
    if UndoAll(schema, s.data, FinishAll(dn, ops, env), clock).Ok? {
      UndoRestoresRightly(schema, d0, ops, env, dn, s.data, clock);
    }
    if TypedData(types, dn) && TypedData(types, s.data) {
      RefusedIff(types, schema, d0, ops, env, dn, s.data, clock);
    }
  }

  lemma StillUndoable(schema: Schema, ttl: int, s: State, tx: string, env: Env, now: int, events: seq<Event>)
    returns (s1: State)
    requires Inv(s) && Has(s, tx, Pending)
    requires Forward(schema, s.data, OpsOf(s.ops, tx), env).Ok?
    requires SweepsBy(events, now + ttl)
    requires NeverMarkedUndone(schema, ttl, Final(s, CommitTrace(schema, s, tx, env, now).states), events, tx)
    ensures s1 == Final(s, CommitTrace(schema, s, tx, env, now).states)
    ensures s1.data == Forward(schema, s.data, OpsOf(s.ops, tx), env).value.data
    ensures var s2 := Run(schema, ttl, s1, events);
            Has(s2, tx, Status.Committed) && OpsOf(s2.ops, tx) == FinishAll(s1.data, OpsOf(s.ops, tx), env)
  {
    s1 := Final(s, CommitTrace(schema, s, tx, env, now).states);
    CommitSucceeds(schema, s, tx, env, now);
    var e := Event(Call.Commit(tx, env, now), |CommitTrace(schema, s, tx, env, now).states|);
    assert After(schema, ttl, s, e) == s1;
    EventIsLawful(schema, ttl, s, e);
    CommittedStaysUndoable(schema, ttl, s1, events, tx);
  }

  /**
   The whole saga. Transaction `tx`, staged by single-id requests over the data it commits to, commits; then
   anything happens for at most the TTL, rollbacks of it that were refused or stopped by a crash included; then it
   is rolled back. `RightOutcome` says what that does, whatever the commit failed to record.
   */
  lemma SagaOverRuns(types: Types, schema: Schema, ttl: int, s: State, tx: string, env: Env, now: int,
                     events: seq<Event>, clock: Clock, later: int)
    requires Inv(s) && Has(s, tx, Pending)
    requires ValidData(schema, s.data) && AllStaged(s.data, OpsOf(s.ops, tx))
    requires CommitTrace(schema, s, tx, env, now).fault.None?
    requires var s1 := Final(s, CommitTrace(schema, s, tx, env, now).states);
             && SweepsBy(events, now + ttl) && NeverMarkedUndone(schema, ttl, s1, events, tx)
             && ValidData(schema, Run(schema, ttl, s1, events).data)
    ensures var s1 := Final(s, CommitTrace(schema, s, tx, env, now).states);
            var s2 := Run(schema, ttl, s1, events);
            && Has(s2, tx, Status.Committed)
            && RightOutcome(types, s.data, s1.data, OpsOf(s.ops, tx), env, s2, tx, clock,
                            PostTrace(schema, s2, tx, clock, later))
  {
    hide RightOutcome;
    var mine := OpsOf(s.ops, tx);
    OpsOfMembers(s.ops, s.nextId, tx);
    IdsAreNoted(schema, s, s.data, mine, env);
    var s1 := StillUndoable(schema, ttl, s, tx, env, now, events);
    var s2 := Run(schema, ttl, s1, events);
    RollbackOutcome(types, schema, s.data, mine, env, s1.data, s2, tx, clock, later);
  }
}
