/**
 The transaction manager as it runs: one object whose calls write the metadata tables and the business data,
 each durable write being appended to a ghost history. Every call is proved against its trace in `Store`.
 */
module Manager {
  import opened Wrappers
  import opened Rows
  import opened Saga
  import opened Store

  /** What one turn of the forward loop writes down: the id of an inserted row, unless that is lost. */
  ghost function Noted(s: State, op: Op, env: Env): seq<State> {
    if op.stmt.Insert? && op.id !in env.lostIds then [s.(ops := SetRowIds(s.ops, op.id, [InsertedId(op, env)]))] else []
  }

  lemma OneOpRuns(schema: Schema, s: State, open: Data, staged: seq<Op>, i: nat, env: Env)
    requires i < |staged|
    ensures var p := RunOps(schema, s, open, staged[i..], env);
            var next := Step(schema, open, staged[i], env);
            var noted := Noted(s, staged[i], env);
            if next.Err? then p == Progress([], next)
            else
              var rest := RunOps(schema, Final(s, noted), next.value, staged[i + 1..], env);
              p.target == rest.target && p.states == noted + rest.states
  {
    hide Step;
    hide SetRowIds;
    hide InsertedId;
    var rem := staged[i..];
    assert rem[0] == staged[i] && rem[1..] == staged[i + 1..];
  }

  lemma NoOpRuns(schema: Schema, s: State, open: Data, env: Env)
    ensures RunOps(schema, s, open, [], env) == Progress([], Ok(open))
  {
  }

  /** One turn of the loop that records the committed states. */
  lemma OneOpNotes(s: State, staged: seq<Op>, i: nat, env: Env, rows: seq<Row>)
    requires i < |staged|
    requires rows == if staged[i].before.None? then []
                     else CurrentRows(s.data, staged[i].stmt.table, staged[i].before.value)
    ensures var noted := s.(ops := SetCommitted(s.ops, staged[i].id, rows));
            NoteOps(s, staged[i..], env)
            == if rows == [] || staged[i].id in env.lostStates then NoteOps(s, staged[i + 1..], env)
               else [noted] + NoteOps(noted, staged[i + 1..], env)
  {
    hide CurrentRows;
    hide SetCommitted;
    var rem := staged[i..];
    assert rem[0] == staged[i] && rem[1..] == staged[i + 1..];
  }

  lemma NoOpNotes(s: State, env: Env)
    ensures NoteOps(s, [], env) == []
  {
  }

  /** A commit whose forward pass failed, and one that went through. */
  lemma CommitStopped(schema: Schema, s: State, tx: string, env: Env, now: int, p: Progress)
    requires Has(s, tx, Pending) && p == RunOps(schema, s, s.data, OpsOf(s.ops, tx), env) && p.target.Err?
    ensures CommitTrace(schema, s, tx, env, now) == Trace(p.states, Some(p.target.fault))
    ensures CommitMoments(schema, s, tx, env, now)
            == [Moment(s, Locked(s, tx))] + Under(Locked(s, tx), p.states) + [Moment(Final(s, p.states), Free)]
  {
    hide RunOps;
  }

  lemma CommitDone(schema: Schema, s: State, tx: string, env: Env, now: int, p: Progress, applied: State, noted: State)
    requires Has(s, tx, Pending) && p == RunOps(schema, s, s.data, OpsOf(s.ops, tx), env) && p.target.Ok?
    requires applied == Final(s, p.states).(data := p.target.value)
    requires noted == Final(applied, NoteOps(applied, OpsOf(s.ops, tx), env))
    ensures var notes := NoteOps(applied, OpsOf(s.ops, tx), env);
            var lock := Locked(s, tx);
            && CommitTrace(schema, s, tx, env, now)
               == Trace(p.states + [applied] + notes + [Publish(noted, Marked(lock, now))], None)
            && CommitMoments(schema, s, tx, env, now)
               == [Moment(s, lock)] + Under(lock, p.states) + [Moment(applied, lock)] + Under(lock, notes)
                  + [Moment(noted, Marked(lock, now)), Moment(Publish(noted, Marked(lock, now)), Free)]
  {
    hide RunOps;
    hide NoteOps;
  }

  lemma Regroup<T>(a: seq<T>, b: seq<T>, c: seq<T>, d: seq<T>, e: seq<T>, f: seq<T>)
    ensures a + b + c + d == a + (b + c + d)
    ensures a + b + c + d + e == a + (b + c + d + e)
    ensures a + b + c + d + e + f == a + (b + c + d + e + f)
  {
  }

  class Manager {
    const schema: Schema
    const ttl: int
    var data: Data
    var txs: map<string, Tx>
    var ops: seq<Op>
    var nextId: nat
    var lock: Lock
    ghost var history: seq<State>
    ghost var moments: seq<Moment>

    constructor (schema: Schema, ttl: int, data: Data)
      ensures this.schema == schema && this.ttl == ttl && history == [] && lock.Free? && moments == []
      ensures View() == State(data, map[], [], 1)
    {
      this.schema, this.ttl, this.data := schema, ttl, data;
      txs, ops, nextId := map[], [], 1;
      lock, history, moments := Free, [], [];
    }

    ghost function View(): State
      reads this
    {
      State(data, txs, ops, nextId)
    }

    /** The call went through the durable states of `t` and ended in the last of them. */
    ghost predicate Ran(start: State, past: seq<State>, t: Trace, fault: Option<Fault>)
      reads this
    {
      && fault == t.fault
      && history == past + t.states
      && View() == Final(start, t.states)
    }

    method Start(id: string, schemaName: string, now: int) returns (fault: Option<Fault>)
      modifies `txs, `history
      ensures Ran(old(View()), old(history), StartTrace(old(View()), id, schemaName, now), fault)
    {
      if id in txs {
        return Some(DuplicateTransaction);
      }
      txs := txs[id := Tx(schemaName, Pending, now, now)];
      history := history + [View()];
      return None;
    }

    method Stage(tx: string, stmt: Stmt, before: Option<seq<Row>>, rowIds: Option<seq<Value>>)
      returns (fault: Option<Fault>)
      modifies `ops, `nextId, `history
      ensures Ran(old(View()), old(history), StageTrace(old(View()), tx, stmt, before, rowIds), fault)
    {
      if tx !in txs || txs[tx].status != Pending {
        return Some(WrongStatus);
      }
      ops := ops + [Op(nextId, tx, stmt, before, None, rowIds)];
      nextId := nextId + 1;
      history := history + [View()];
      return None;
    }

    /** The committed rows of one operation's snapshots, row by row. */
    method ReadCommitted(table: string, snapshots: seq<Row>) returns (rows: seq<Row>)
      ensures rows == CurrentRows(data, table, snapshots)
    {
      rows := [];
      var i := 0;
      while i < |snapshots|
        invariant 0 <= i <= |snapshots|
        invariant rows + CurrentRows(data, table, snapshots[i..]) == CurrentRows(data, table, snapshots)
      {
        assert snapshots[i..][1..] == snapshots[i + 1..];
        if ID in snapshots[i] && Key(table, snapshots[i][ID]) in data {
          rows := rows + [data[Key(table, snapshots[i][ID])]];
        }
        i := i + 1;
      }
    }

    /** The loop over the staged operations, in a target transaction that is still open. */
    method ApplyStaged(staged: seq<Op>, env: Env) returns (target: Result<Data, Fault>)
      modifies `ops, `history, `moments
      ensures var p := RunOps(schema, old(View()), old(data), staged, env);
              && target == p.target && View() == Final(old(View()), p.states)
              && history == old(history) + p.states && moments == old(moments) + Under(lock, p.states)
    {
      hide Step;
      hide RunOps;
      hide SetRowIds;
      hide InsertedId;
      ghost var s0 := View();
      ghost var whole := RunOps(schema, s0, data, staged, env);
      var open, i := data, 0;
      ghost var ids: seq<State> := [];
      assert staged[0..] == staged;
      while i < |staged|
        invariant 0 <= i <= |staged|
        invariant data == s0.data && txs == s0.txs && nextId == s0.nextId
        invariant history == old(history) + ids && View() == Final(s0, ids)
        invariant moments == old(moments) + Under(lock, ids)
        invariant whole.target == RunOps(schema, View(), open, staged[i..], env).target
        invariant whole.states == ids + RunOps(schema, View(), open, staged[i..], env).states
      {
        OneOpRuns(schema, View(), open, staged, i, env);
        var step := Step(schema, open, staged[i], env);
        if step.Err? {
          assert ids + [] == ids;
          return step;
        }
        open := step.value;
        ghost var noted := Noted(View(), staged[i], env);
        ghost var rest := RunOps(schema, Final(View(), noted), open, staged[i + 1..], env).states;
        assert ids + (noted + rest) == (ids + noted) + rest;
        if staged[i].stmt.Insert? && staged[i].id !in env.lostIds {
          ops := SetRowIds(ops, staged[i].id, [InsertedId(staged[i], env)]);
          assert Under(lock, ids + [View()]) == Under(lock, ids) + [Moment(View(), lock)];
          ids := ids + [View()];
          history, moments := history + [View()], moments + [Moment(View(), lock)];
        } else {
          assert ids + noted == ids;
        }
        i := i + 1;
      }
      NoOpRuns(schema, View(), open, env);
      assert staged[i..] == [];
      assert ids + [] == ids;
      return Ok(open);
    }

    /** The loop that records what each snapshotted row became. */
    method RecordStates(staged: seq<Op>, env: Env)
      modifies `ops, `history, `moments
      ensures var notes := NoteOps(old(View()), staged, env);
              && View() == Final(old(View()), notes)
              && history == old(history) + notes && moments == old(moments) + Under(lock, notes)
    {
      hide CurrentRows;
      hide SetCommitted;
      hide NoteOps;
      ghost var applied := View();
      ghost var notes := [];
      var i := 0;
      assert staged[0..] == staged;
      while i < |staged|
        invariant 0 <= i <= |staged|
        invariant data == applied.data && txs == applied.txs && nextId == applied.nextId
        invariant history == old(history) + notes && View() == Final(applied, notes)
        invariant moments == old(moments) + Under(lock, notes)
        invariant NoteOps(applied, staged, env) == notes + NoteOps(View(), staged[i..], env)
      {
        var rows: seq<Row> := [];
        if staged[i].before.Some? {
          rows := ReadCommitted(staged[i].stmt.table, staged[i].before.value);
        }
        OneOpNotes(View(), staged, i, env, rows);
        if rows != [] && staged[i].id !in env.lostStates {
          ops := SetCommitted(ops, staged[i].id, rows);
          ghost var rest := NoteOps(View(), staged[i + 1..], env);
          assert notes + ([View()] + rest) == (notes + [View()]) + rest;
          assert Under(lock, notes + [View()]) == Under(lock, notes) + [Moment(View(), lock)];
          notes := notes + [View()];
          history, moments := history + [View()], moments + [Moment(View(), lock)];
        }
        i := i + 1;
      }
      assert staged[i..] == [];
      NoOpNotes(View(), env);
      assert notes + [] == notes;
    }

    /**
     Applies all staged operations in one target transaction, records what undo needs, marks committed. The status
     is written inside a lock transaction that is open all the while.
     */
    method Commit(tx: string, env: Env, now: int) returns (fault: Option<Fault>)
      requires lock.Free?
      modifies this
      ensures lock.Free?
      ensures Ran(old(View()), old(history), CommitTrace(schema, old(View()), tx, env, now), fault)
      ensures moments == old(moments) + CommitMoments(schema, old(View()), tx, env, now)
    {
      hide RunOps;
      hide NoteOps;
      hide OpsOf;
      hide Under;
      ghost var s0, past, was := View(), history, moments;
      if tx !in txs || txs[tx].status != Pending {
        return Some(WrongStatus);
      }
      hide CommitTrace;
      hide CommitMoments;
      lock := Held(tx, txs[tx].(status := Committing));
      moments := moments + [Moment(View(), lock)];
      var staged := OpsOf(ops, tx);
      var target := ApplyStaged(staged, env);
      ghost var p := RunOps(schema, s0, s0.data, staged, env);
      if target.Err? {
        CommitStopped(schema, s0, tx, env, now, p);
        lock := Free;
        moments := moments + [Moment(View(), lock)];
        Regroup(was, [Moment(s0, Locked(s0, tx))], Under(Locked(s0, tx), p.states), [Moment(View(), Free)], [], []);
        return Some(target.fault);
      }
      data := target.value;
      history, moments := history + [View()], moments + [Moment(View(), lock)];
      ghost var applied := View();
      RecordStates(staged, env);
      ghost var noted := View();
      CommitDone(schema, s0, tx, env, now, p, applied, noted);
      ghost var notes := NoteOps(applied, staged, env);
      ghost var held := lock;
      lock := lock.(row := lock.row.(status := Committed, updatedAt := now));
      ghost var last := [Moment(noted, lock), Moment(Publish(noted, lock), Free)];
      moments := moments + [Moment(View(), lock)];
      txs, lock := txs[tx := lock.row], Free;
      history, moments := history + [View()], moments + [Moment(View(), lock)];
      Regroup(past, p.states, [applied], notes, [View()], []);
      Regroup(was, [Moment(s0, held)], Under(held, p.states), [Moment(applied, held)], Under(held, notes), last);
      return None;
    }

    method Rollback(tx: string, now: int) returns (fault: Option<Fault>)
      modifies `txs, `ops, `history
      ensures Ran(old(View()), old(history), RollbackTrace(old(View()), tx, now), fault)
    {
      if tx !in txs || txs[tx].status != Pending {
        return Some(WrongStatus);
      }
      ops := OthersOf(ops, tx);
      history := history + [View()];
      txs := txs[tx := txs[tx].(status := RolledBack, updatedAt := now)];
      history := history + [View()];
      return None;
    }

    /** Undoes a committed transaction, its last operation first, in one target transaction. */
    method RollbackPostCommit(tx: string, clock: Clock, now: int) returns (fault: Option<Fault>)
      modifies `data, `txs, `history
      ensures Ran(old(View()), old(history), PostTrace(schema, old(View()), tx, clock, now), fault)
    {
      if tx !in txs || txs[tx].status != Committed {
        return Some(WrongStatus);
      }
      var done := OpsOf(ops, tx);
      var target, i := data, |done|;
      assert done[..i] == done;
      while i > 0
        invariant 0 <= i <= |done| && View() == old(View()) && history == old(history)
        invariant UndoAll(schema, data, done, clock) == UndoAll(schema, target, done[..i], clock)
      {
        assert done[..i] == done[..i - 1] + [done[i - 1]];
        UndoAllLastFirst(schema, target, done[..i - 1], done[i - 1], clock);
        i := i - 1;
        var undone := Compensate(schema, target, done[i], clock);
        if undone.Err? {
          return Some(undone.fault);
        }
        target := undone.value;
      }
      data := target;
      history := history + [View()];
      txs := txs[tx := txs[tx].(status := RolledBack, updatedAt := now)];
      history := history + [View()];
      return None;
    }

    method Cleanup(now: int)
      modifies `txs, `ops, `history
      ensures Ran(old(View()), old(history), CleanupTrace(old(View()), ttl, now), None)
    {
      var kept := map tx | tx in txs && !Expired(txs[tx], now - ttl) :: txs[tx];
      ops := KeepOps(ops, kept);
      txs := kept;
      history := history + [View()];
    }
  }

  // ----- the loops of the reverse pass

  method DeleteRows(schema: Schema, d: Data, table: string, ids: seq<Value>) returns (r: Result<Data, Fault>)
    ensures r == DeleteAll(schema, d, table, ids)
  {
    var target, i := d, 0;
    while i < |ids|
      invariant 0 <= i <= |ids|
      invariant DeleteAll(schema, d, table, ids) == DeleteAll(schema, target, table, ids[i..])
    {
      assert ids[i..][1..] == ids[i + 1..];
      var next := Exec(schema, target, Delete(table, Some(ids[i])), map[]);
      if next.Err? {
        return next;
      }
      target := next.value;
      i := i + 1;
    }
    return Ok(target);
  }

  /** Compares one committed row with the current one, column by column in whatever order the map yields. */
  method CompareRow(current: Row, committed: Row) returns (same: bool)
    ensures same <==> LooksLike(current, committed)
  {
    var left := committed.Keys;
    while left != {}
      invariant left <= committed.Keys
      invariant forall c :: c in committed.Keys - left && c != UPDATED_AT ==>
                  c in current && current[c].Render() == committed[c].Render()
      decreases left
    {
      var c :| c in left;
      if c != UPDATED_AT && (c !in current || committed[c].Render() != current[c].Render()) {
        return false;
      }
      left := left - {c};
    }
    return true;
  }

  method CheckRows(d: Data, table: string, committed: seq<Row>) returns (r: Result<bool, Fault>)
    ensures r == CheckAll(d, table, committed)
  {
    var i := 0;
    while i < |committed|
      invariant 0 <= i <= |committed|
      invariant CheckAll(d, table, committed) == CheckAll(d, table, committed[i..])
    {
      assert committed[i..][1..] == committed[i + 1..];
      if ID in committed[i] {
        var k := Key(table, committed[i][ID]);
        if k !in d {
          return Err(RowGone);
        }
        var same := CompareRow(d[k], committed[i]);
        if !same {
          return Err(RowChanged);
        }
      }
      i := i + 1;
    }
    return Ok(true);
  }

  /** The SET list that restores a snapshot, built one column at a time. */
  method RestoreSets(snapshot: Row, now: Value) returns (sets: Row)
    ensures sets == Restoring(snapshot, now)
    ensures ID !in sets && sets.Keys == snapshot.Keys - {ID}
    ensures UPDATED_AT in snapshot ==> UPDATED_AT in sets && sets[UPDATED_AT] == now
    ensures forall c :: c in snapshot && c != ID && c != UPDATED_AT ==> sets[c] == snapshot[c]
  {
    sets := map[];
    var left := snapshot.Keys;
    while left != {}
      invariant left <= snapshot.Keys
      invariant sets == map c | c in snapshot.Keys - left && c != ID :: if c == UPDATED_AT then now else snapshot[c]
      decreases left
    {
      var c :| c in left;
      left := left - {c};
      if c != ID {
        sets := sets[c := if c == UPDATED_AT then now else snapshot[c]];
      }
    }
  }

  method RestoreRows(schema: Schema, d: Data, table: string, snapshots: seq<Row>, now: Value)
    returns (r: Result<Data, Fault>)
    ensures r == RestoreAll(schema, d, table, snapshots, now)
  {
    var target, i := d, 0;
    while i < |snapshots|
      invariant 0 <= i <= |snapshots|
      invariant RestoreAll(schema, d, table, snapshots, now) == RestoreAll(schema, target, table, snapshots[i..], now)
    {
      assert snapshots[i..][1..] == snapshots[i + 1..];
      if ID in snapshots[i] {
        var sets := RestoreSets(snapshots[i], now);
        var next := Exec(schema, target, Update(table, sets, Some(snapshots[i][ID])), map[]);
        if next.Err? {
          return next;
        }
        target := next.value;
      }
      i := i + 1;
    }
    return Ok(target);
  }

  method ReinsertRows(schema: Schema, d: Data, table: string, snapshots: seq<Row>) returns (r: Result<Data, Fault>)
    ensures r == ReinsertAll(schema, d, table, snapshots)
  {
    var target, i := d, 0;
    while i < |snapshots|
      invariant 0 <= i <= |snapshots|
      invariant ReinsertAll(schema, d, table, snapshots) == ReinsertAll(schema, target, table, snapshots[i..])
    {
      assert snapshots[i..][1..] == snapshots[i + 1..];
      var next := Exec(schema, target, Insert(table, snapshots[i]), map[]);
      if next.Err? {
        return next;
      }
      target := next.value;
      i := i + 1;
    }
    return Ok(target);
  }

  method Compensate(schema: Schema, d: Data, op: Op, clock: Clock) returns (r: Result<Data, Fault>)
    ensures r == UndoOp(schema, d, op, clock)
  {
    if op.before.None? {
      if !op.stmt.Insert? {
        return Ok(d);
      }
      if op.rowIds.None? {
        return Err(NoRowIds);
      }
      r := DeleteRows(schema, d, op.stmt.table, op.rowIds.value);
      return;
    }
    match op.stmt {
      case Insert(_, _) =>
        return Ok(d);
      case Update(t, _, _) =>
        if op.committed.Some? {
          var check := CheckRows(d, t, op.committed.value);
          if check.Err? {
            return Err(check.fault);
          }
        }
        r := RestoreRows(schema, d, t, op.before.value, Now(clock, op.id));
      case Delete(t, _) =>
        r := ReinsertRows(schema, d, t, op.before.value);
    }
  }

  // ----- the HTTP endpoints

  datatype Response = Response(code: int, body: string)

  method HandleCommit(m: Manager, tx: string, env: Env, now: int) returns (r: Response)
    requires m.lock.Free?
    modifies m
    ensures m.lock.Free?
    ensures var s := old(m.View());
            var t := CommitTrace(m.schema, s, tx, env, now);
            && m.View() == Final(s, t.states)
            && r == if !Has(s, tx, Pending) then Response(409, "PGRST305")
                    else if t.fault.Some? then Response(409, "PGRST306")
                    else Response(200, "committed")
  {
    if tx !in m.txs || m.txs[tx].status != Pending {
      return Response(409, "PGRST305");
    }
    var fault := m.Commit(tx, env, now);
    if fault.Some? {
      return Response(409, "PGRST306");
    }
    return Response(200, "committed");
  }

  /** One endpoint rolls back both kinds: staged operations are dropped, committed ones are undone. */
  method HandleRollback(m: Manager, tx: string, clock: Clock, now: int) returns (r: Response)
    modifies m
    ensures var s := old(m.View());
            if Has(s, tx, Pending) then
              && m.View() == Final(s, RollbackTrace(s, tx, now).states)
              && r == Response(200, "rolled_back")
            else if Has(s, tx, Committed) then
              var t := PostTrace(m.schema, s, tx, clock, now);
              && m.View() == Final(s, t.states)
              && r == if t.fault.Some? then Response(409, "PGRST320") else Response(200, "rolled_back")
            else
              && m.View() == s
              && r == if tx in s.txs then Response(409, "PGRST308") else Response(404, "PGRST303")
  {
    if tx !in m.txs {
      return Response(404, "PGRST303");
    }
    if m.txs[tx].status == Pending {
      var fault := m.Rollback(tx, now);
      return if fault.Some? then Response(409, "PGRST309") else Response(200, "rolled_back");
    }
    if m.txs[tx].status == Committed {
      var fault := m.RollbackPostCommit(tx, clock, now);
      if fault.Some? {
        return Response(409, "PGRST320");
      }
      return Response(200, "rolled_back");
    }
    return Response(409, "PGRST308");
  }
}
