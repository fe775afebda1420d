/**
 What a rollback after commit achieves. A successful one puts back the rows of the transaction, but for those that
 the records of the commit, or other clients since, have made unrecoverable; exactly which is said row by row.
 */
module Undo {
  import opened Wrappers
  import opened Rows
  import opened Saga
  import opened RowUndo

  /** The snapshot of one row: SQL NULL when the row is absent. */
  function SnapshotOf(d: Data, k: Key): Option<seq<Row>> {
    if k in d then Some([d[k]]) else None
  }

  /**
   An operation staged over `d` by a request that filters on one id, and that does not write the id. An INSERT may
   still carry the row id of an earlier attempt to commit.
   */
  ghost predicate Staged(d: Data, op: Op) {
    && op.committed.None?
    && match op.stmt
       case Insert(_, _) => op.before.None? && (op.rowIds.Some? ==> |op.rowIds.value| == 1)
       case Update(t, sets, id) => id.Some? ==> ID !in sets && op.before == SnapshotOf(d, Key(t, id.value))
       case Delete(t, id) => id.Some? ==> op.before == SnapshotOf(d, Key(t, id.value))
  }

  ghost predicate AllStaged(d: Data, ops: seq<Op>) {
    forall i :: 0 <= i < |ops| ==> Staged(d, ops[i])
  }

  /** No record-keeping write of these operations was lost. */
  ghost predicate Lossless(env: Env, ops: seq<Op>) {
    forall i :: 0 <= i < |ops| ==> ops[i].id !in env.lostIds && ops[i].id !in env.lostStates
  }

  /** A recorded operation after a commit that ended in `after`. */
  ghost function Finish(after: Data, op: Op, env: Env): Op {
    NoteState(after, NoteId(op, env), env)
  }

  ghost function FinishAll(after: Data, ops: seq<Op>, env: Env): (done: seq<Op>)
    ensures |done| == |ops|
    ensures forall i :: 0 <= i < |ops| ==> done[i] == Finish(after, ops[i], env)
  {
    seq(|ops|, i requires 0 <= i < |ops| => Finish(after, ops[i], env))
  }

  /** The recording passes of a commit give exactly the finished operations. */
  lemma {:induction false} ForwardFinishes(schema: Schema, d: Data, ops: seq<Op>, env: Env, after: Data)
    requires Forward(schema, d, ops, env).Ok?
    ensures NoteStates(after, Forward(schema, d, ops, env).value.ops, env) == FinishAll(after, ops, env)
    decreases |ops|
  {
    hide Step;
    if ops != [] {
      var next := Step(schema, d, ops[0], env).value;
      ForwardFinishes(schema, next, ops[1..], env, after);
      var noted := Forward(schema, next, ops[1..], env).value.ops;
      assert ([NoteId(ops[0], env)] + noted)[1..] == noted;
    }
  }

  /** A commit from `d0` to `dn`, whatever it lost of its records. */
  ghost predicate Committed(schema: Schema, d0: Data, ops: seq<Op>, env: Env, dn: Data) {
    && ValidData(schema, d0)
    && AllStaged(d0, ops)
    && Forward(schema, d0, ops, env).Ok?
    && dn == Forward(schema, d0, ops, env).value.data
  }

  /** The state after `ops[..i]` of a forward pass, with the rest of the pass still to come. */
  ghost predicate Midway(schema: Schema, d0: Data, d: Data, ops: seq<Op>, env: Env, dn: Data) {
    && ValidData(schema, d0) && ValidData(schema, d) && ValidData(schema, dn)
    && AllStaged(d0, ops)
    && Forward(schema, d, ops, env).Ok?
    && dn == Forward(schema, d, ops, env).value.data
  }

  lemma {:induction false} ForwardKeepsValid(schema: Schema, d: Data, ops: seq<Op>, env: Env)
    requires ValidData(schema, d) && Forward(schema, d, ops, env).Ok?
    ensures ValidData(schema, Forward(schema, d, ops, env).value.data)
    decreases |ops|
  {
    if ops != [] {
      ExecKeepsValid(schema, d, ops[0].stmt, env.Defaults(ops[0].id));
      ForwardKeepsValid(schema, Step(schema, d, ops[0], env).value, ops[1..], env);
    }
  }

  lemma CommittedIsMidway(schema: Schema, d0: Data, ops: seq<Op>, env: Env, dn: Data)
    requires Committed(schema, d0, ops, env, dn)
    ensures Midway(schema, d0, d0, ops, env, dn)
  {
    ForwardKeepsValid(schema, d0, ops, env);
  }

  // ----- what the commit wrote, and what it recorded

  /** The statement has all its parameters. */
  predicate Runs(stmt: Stmt) {
    stmt.Insert? || stmt.id.Some?
  }

  /** The row an operation writes when a commit runs it. */
  function Target(op: Op, env: Env): Key
    requires Runs(op.stmt)
  {
    Key(op.stmt.table, if op.stmt.Insert? then InsertedId(op, env) else op.stmt.id.value)
  }

  ghost predicate Writes(ops: seq<Op>, env: Env, k: Key) {
    exists i :: 0 <= i < |ops| && Runs(ops[i].stmt) && Target(ops[i], env) == k
  }

  /** The rows a transaction changed: the existing ones it updated or deleted, and new ones it inserted. */
  ghost predicate Touches(d0: Data, ops: seq<Op>, env: Env, k: Key) {
    exists i :: 0 <= i < |ops| && Runs(ops[i].stmt) && Target(ops[i], env) == k && (ops[i].stmt.Insert? <==> k !in d0)
  }

  /** A finished operation whose records name row `k`. Its committed state may not have been recorded. */
  ghost predicate Finished(schema: Schema, d0: Data, dn: Data, op: Op, k: Key) {
    && Simple(schema, op) && KeyOf(op) == k
    && (!op.stmt.Insert? ==> op.before == SnapshotOf(d0, k))
    && (op.committed.Some? ==> op.before.Some? && k in dn && op.committed == Some([dn[k]]))
    && (op.stmt.Update? ==> exists c :: c in schema[op.stmt.table] && c != ID)
  }

  /** Each finished operation names a row, but for an INSERT whose row id was never recorded. */
  ghost predicate AllFinished(schema: Schema, d0: Data, dn: Data, done: seq<Op>) {
    forall i :: 0 <= i < |done| ==>
      if Named(done[i]) then Finished(schema, d0, dn, done[i], KeyOf(done[i])) else IdIsLost(done[i])
  }

  predicate IdIsLost(op: Op) {
    op.stmt.Insert? && op.before.None? && op.rowIds.None?
  }

  /** What a commit makes of one operation, as far as its records allow. */
  ghost predicate FinishedFrom(schema: Schema, d0: Data, dn: Data, op: Op, done: Op, env: Env) {
    && Runs(op.stmt) && done.stmt == op.stmt
    && (if Named(done) then Finished(schema, d0, dn, done, KeyOf(done)) else IdIsLost(done))
    && (!op.stmt.Insert? || op.id !in env.lostIds ==> Named(done) && KeyOf(done) == Target(op, env))
    && (!op.stmt.Insert? && op.id !in env.lostStates && Target(op, env) in d0 && Target(op, env) in dn ==>
          done.committed.Some?)
  }

  predicate AllNamed(done: seq<Op>) {
    forall i | 0 <= i < |done| :: Named(done[i])
  }

  /** One forward step, as its row and its finished operation see it. */
  lemma StepOnRow(schema: Schema, d0: Data, d: Data, op: Op, env: Env, dn: Data)
    requires ValidData(schema, d0) && ValidData(schema, d) && ValidData(schema, dn)
    requires Staged(d0, op) && Step(schema, d, op, env).Ok?
    ensures Runs(op.stmt)
    ensures var next, k := Step(schema, d, op, env).value, Target(op, env);
            && ValidData(schema, next)
            && (forall j :: j != k ==> Lookup(next, j) == Lookup(d, j))
            && (op.stmt.Insert? ==> k !in d && k in next)
            && (op.stmt.Delete? ==> k !in next)
            && (op.stmt.Update? ==> (k in next <==> k in d))
    ensures FinishedFrom(schema, d0, dn, op, Finish(dn, op, env), env)
  {
    var next := Step(schema, d, op, env).value;
    ExecKeepsValid(schema, d, op.stmt, env.Defaults(op.id));
    if op.stmt.Update? {
      assert op.stmt.sets != map[];
      var c :| c in op.stmt.sets;
      assert c in schema[op.stmt.table] && c != ID;
    }
    var done := Finish(dn, op, env);
    if op.before.Some? {
      var rows := op.before.value;
      assert CurrentRows(dn, op.stmt.table, rows[1..]) == [];
      assert rows[0][ID] == Target(op, env).id;
      assert CurrentRows(dn, op.stmt.table, rows) == if Target(op, env) in dn then [dn[Target(op, env)]] else [];
    } else {
      assert done == NoteId(op, env);
    }
  }

  /** The first step of the rest of a pass, and what it means for one row `k`. */
  lemma FirstStep(schema: Schema, d0: Data, d: Data, ops: seq<Op>, env: Env, dn: Data, k: Key) returns (next: Data)
    requires Midway(schema, d0, d, ops, env, dn) && ops != []
    ensures Midway(schema, d0, next, ops[1..], env, dn)
    ensures Runs(ops[0].stmt)
    ensures var t, stmt := Target(ops[0], env), ops[0].stmt;
            && (t != k ==> Lookup(next, k) == Lookup(d, k))
            && (t == k && stmt.Insert? ==> k !in d && k in next)
            && (t == k && stmt.Delete? ==> k !in next)
            && (t == k && stmt.Update? ==> (k in next <==> k in d))
    ensures var done := FinishAll(dn, ops, env);
            && done[1..] == FinishAll(dn, ops[1..], env)
            && FinishedFrom(schema, d0, dn, ops[0], done[0], env)
  {
    next := Step(schema, d, ops[0], env).value;
    StepOnRow(schema, d0, d, ops[0], env, dn);
    assert FinishAll(dn, ops, env)[1..] == FinishAll(dn, ops[1..], env);
    assert AllStaged(d0, ops[1..]);
  }

  /** The finished operations as the reverse pass reads them. */
  lemma {:induction false} CommitFinishes(schema: Schema, d0: Data, d: Data, ops: seq<Op>, env: Env, dn: Data)
    requires Midway(schema, d0, d, ops, env, dn)
    ensures AllFinished(schema, d0, dn, FinishAll(dn, ops, env))
    ensures forall i :: 0 <= i < |ops| ==> FinishedFrom(schema, d0, dn, ops[i], FinishAll(dn, ops, env)[i], env)
    decreases |ops|
  {
    if ops != [] {
      var done := FinishAll(dn, ops, env);
      var next := FirstStep(schema, d0, d, ops, env, dn, Key("", Null));
      hide Midway;
      CommitFinishes(schema, d0, next, ops[1..], env, dn);
      EachFinished(schema, d0, dn, ops, done, env);
    }
  }

  lemma EachFinished(schema: Schema, d0: Data, dn: Data, ops: seq<Op>, done: seq<Op>, env: Env)
    requires ops != [] && |done| == |ops| && FinishedFrom(schema, d0, dn, ops[0], done[0], env)
    requires forall i :: 0 <= i < |ops[1..]| ==> FinishedFrom(schema, d0, dn, ops[1..][i], done[1..][i], env)
    ensures AllFinished(schema, d0, dn, done)
    ensures forall i :: 0 <= i < |ops| ==> FinishedFrom(schema, d0, dn, ops[i], done[i], env)
  {
    hide Finished;
    forall i | 0 <= i < |ops| ensures FinishedFrom(schema, d0, dn, ops[i], done[i], env) {
      assert i > 0 ==> ops[i] == ops[1..][i - 1] && done[i] == done[1..][i - 1];
    }
  }

  lemma NamedAreSimple(schema: Schema, d0: Data, dn: Data, done: seq<Op>)
    requires AllFinished(schema, d0, dn, done) && AllNamed(done)
    ensures AllSimple(schema, done)
  {
  }

  /** An INSERT whose row id is not recorded refuses every rollback of its transaction. */
  lemma {:induction false} LostIdRefuses(schema: Schema, d: Data, done: seq<Op>, i: nat, clock: Clock)
    requires i < |done| && IdIsLost(done[i])
    ensures UndoAll(schema, d, done, clock).Err?
    decreases |done|
  {
    if i > 0 {
      assert done[1..][i - 1] == done[i];
      LostIdRefuses(schema, d, done[1..], i - 1, clock);
    }
  }

  // ----- what the reverse pass makes of each row

  ghost predicate Names(ops: seq<Op>, k: Key) {
    exists i :: 0 <= i < |ops| && Named(ops[i]) && KeyOf(ops[i]) == k
  }

  ghost predicate Inserts(ops: seq<Op>, k: Key) {
    exists i :: 0 <= i < |ops| && ops[i].stmt.Insert? && Named(ops[i]) && KeyOf(ops[i]) == k
  }

  /** The first INSERT or DELETE that names row `k`. */
  ghost function FirstReplacing(ops: seq<Op>, k: Key): (r: Option<Op>)
    ensures r.Some? ==> !r.value.stmt.Update?
  {
    if ops == [] then None
    else if Named(ops[0]) && KeyOf(ops[0]) == k && !ops[0].stmt.Update? then Some(ops[0])
    else FirstReplacing(ops[1..], k)
  }

  /** Whether undoing these operations leaves row `k` present, when it was found as `found`. */
  ghost predicate Present(found: Option<Row>, ops: seq<Op>, k: Key) {
    if FirstReplacing(ops, k).Some? then FirstReplacing(ops, k).value.stmt.Delete? else found.Some?
  }

  /** The first operation that names row `k`: the one undone last. */
  ghost function FirstNaming(ops: seq<Op>, k: Key): (r: Option<Op>)
    ensures r.Some? <==> Names(ops, k)
    ensures r.Some? ==> Named(r.value) && KeyOf(r.value) == k && r.value in ops
  {
    if ops == [] then None
    else if Named(ops[0]) && KeyOf(ops[0]) == k then
      assert Names(ops, k);
      Some(ops[0])
    else
      var rest := FirstNaming(ops[1..], k);
      assert forall i :: 0 < i < |ops| ==> ops[i] == ops[1..][i - 1];
      assert forall i :: 0 <= i < |ops[1..]| ==> ops[1..][i] == ops[i + 1];
      rest
  }

  /**
   The stamp a successful pass leaves on an existing row: the time read while undoing the transaction's first UPDATE
   of the row, or the snapshot's own when the transaction deleted the row before it updated it.
   */
  ghost predicate Stamped(d0: Data, done: seq<Op>, k: Key, r: Option<Row>, clock: Clock) {
    var first := FirstNaming(done, k);
    first.Some? && k in d0 && r.Some? ==>
      && !first.value.stmt.Insert?
      && (first.value.stmt.Delete? ==> r.value == d0[k])
      && (first.value.stmt.Update? && UPDATED_AT in d0[k] && first.value.id in clock ==>
            UPDATED_AT in r.value && r.value[UPDATED_AT] == clock[first.value.id])
  }

  lemma NamesFirst(ops: seq<Op>, k: Key)
    requires ops != [] && Named(ops[0])
    ensures Names(ops, k) <==> KeyOf(ops[0]) == k || Names(ops[1..], k)
    ensures Inserts(ops, k) <==> (ops[0].stmt.Insert? && KeyOf(ops[0]) == k) || Inserts(ops[1..], k)
  {
    if Names(ops[1..], k) {
      var i :| 0 <= i < |ops[1..]| && Named(ops[1..][i]) && KeyOf(ops[1..][i]) == k;
      assert ops[i + 1] == ops[1..][i];
    }
    if Inserts(ops[1..], k) {
      var i :| 0 <= i < |ops[1..]| && ops[1..][i].stmt.Insert? && Named(ops[1..][i]) && KeyOf(ops[1..][i]) == k;
      assert ops[i + 1] == ops[1..][i];
    }
    if Names(ops, k) {
      var i :| 0 <= i < |ops| && Named(ops[i]) && KeyOf(ops[i]) == k;
      assert i > 0 ==> ops[i] == ops[1..][i - 1];
    }
    if Inserts(ops, k) {
      var i :| 0 <= i < |ops| && ops[i].stmt.Insert? && Named(ops[i]) && KeyOf(ops[i]) == k;
      assert i > 0 ==> ops[i] == ops[1..][i - 1];
    }
  }

  lemma {:induction false} UnnamedHasNone(ops: seq<Op>, k: Key)
    requires !Names(ops, k)
    ensures FirstReplacing(ops, k).None? && !Inserts(ops, k)
  {
    if ops != [] {
      assert forall i :: 0 <= i < |ops| - 1 ==> ops[1..][i] == ops[i + 1];
      UnnamedHasNone(ops[1..], k);
    }
  }

  /**
   What a reverse pass that succeeds makes of row `k`: an existing row is back at its old value where the pass
   leaves it present, and absent otherwise; a row that is recorded as inserted is gone; any other is as found.
   */
  ghost predicate EndsAs(schema: Schema, d0: Data, done: seq<Op>, k: Key, found: Option<Row>, r: Option<Row>) {
    && (r.Some? ==> ValidRow(schema, k, r.value))
    && if !Names(done, k) then r == found
       else if k in d0 then (if Present(found, done, k) then SameRow(r, Some(d0[k])) else r.None?)
       else r == if Inserts(done, k) then None else found
  }

  /** One undone operation, as the row it finds goes in. */
  lemma UndoneIs(schema: Schema, d0: Data, dn: Data, op: Op, k: Key, later: Option<Row>, now: Value)
    requires ValidData(schema, d0) && Finished(schema, d0, dn, op, k) && UndoRow(schema, later, op, now).Ok?
    requires later.Some? ==> ValidRow(schema, k, later.value)
    ensures var r := UndoRow(schema, later, op, now).value;
            && (r.Some? ==> ValidRow(schema, k, r.value))
            && match op.stmt
               case Insert(_, _) => r.None?
               case Update(_, _, _) => if k in d0 && later.Some? then SameRow(r, Some(d0[k])) else r == later
               case Delete(_, _) => if k in d0 then r == Some(d0[k]) else r == later
  {
    if op.before.Some? && later.Some? {
      RestoringIs(op.before.value[0], now);
      hide Restoring;
      assert (later.value + Restoring(op.before.value[0], now)).Keys == schema[k.table];
    }
  }

  lemma EndStep(schema: Schema, d0: Data, dn: Data, done: seq<Op>, k: Key, found: Option<Row>, later: Option<Row>,
                now: Value)
    requires ValidData(schema, d0) && done != [] && Named(done[0]) && Finished(schema, d0, dn, done[0], k)
    requires EndsAs(schema, d0, done[1..], k, found, later)
    requires found.Some? ==> ValidRow(schema, k, found.value)
    requires UndoRow(schema, later, done[0], now).Ok?
    ensures EndsAs(schema, d0, done, k, found, UndoRow(schema, later, done[0], now).value)
  {
    NamesFirst(done, k);
    if !Names(done[1..], k) {
      UnnamedHasNone(done[1..], k);
    }
    UndoneIs(schema, d0, dn, done[0], k, later, now);
    hide UndoRow;
    hide ValidRow;
    hide ValidData;
  }

  lemma {:induction false} RowAfter(schema: Schema, d0: Data, dn: Data, done: seq<Op>, k: Key, found: Option<Row>,
                                    clock: Clock)
    requires ValidData(schema, d0) && AllFinished(schema, d0, dn, done) && AllSimple(schema, done)
    requires found.Some? ==> ValidRow(schema, k, found.value)
    ensures var r := UndoRowAll(schema, found, done, k, clock);
            r.Ok? ==> EndsAs(schema, d0, done, k, found, r.value)
  {
    if done != [] {
      RowAfter(schema, d0, dn, done[1..], k, found, clock);
      var later := UndoRowAll(schema, found, done[1..], k, clock);
      if later.Ok? {
        if KeyOf(done[0]) != k {
          NamesFirst(done, k);
        } else if UndoRow(schema, later.value, done[0], Now(clock, done[0].id)).Ok? {
          EndStep(schema, d0, dn, done, k, found, later.value, Now(clock, done[0].id));
        }
      }
    }
  }

  lemma StampStep(schema: Schema, d0: Data, dn: Data, done: seq<Op>, k: Key, later: Option<Row>, clock: Clock)
    requires ValidData(schema, d0) && done != [] && Simple(schema, done[0]) && Finished(schema, d0, dn, done[0], k)
    requires UndoRow(schema, later, done[0], Now(clock, done[0].id)).Ok?
    ensures Stamped(d0, done, k, UndoRow(schema, later, done[0], Now(clock, done[0].id)).value, clock)
  {
    assert FirstNaming(done, k) == Some(done[0]);
  }

  lemma {:induction false} StampAfter(schema: Schema, d0: Data, dn: Data, done: seq<Op>, k: Key, found: Option<Row>,
                                      clock: Clock)
    requires ValidData(schema, d0) && AllFinished(schema, d0, dn, done) && AllSimple(schema, done)
    ensures var r := UndoRowAll(schema, found, done, k, clock);
            r.Ok? ==> Stamped(d0, done, k, r.value, clock)
  {
    hide UndoRow;
    hide Finished;
    if done != [] {
      StampAfter(schema, d0, dn, done[1..], k, found, clock);
      var later := UndoRowAll(schema, found, done[1..], k, clock);
      if later.Ok? && KeyOf(done[0]) == k && UndoRow(schema, later.value, done[0], Now(clock, done[0].id)).Ok? {
        StampStep(schema, d0, dn, done, k, later.value, clock);
      }
    }
  }

  /**
   A successful rollback, row by row, whatever the commit recorded and whatever other clients wrote since. The
   snapshots are of `d0`; the commit may have run on other data.
   */
  lemma UndoEnds(schema: Schema, d0: Data, d: Data, ops: seq<Op>, env: Env, dn: Data, found: Data, clock: Clock)
    requires Midway(schema, d0, d, ops, env, dn) && ValidData(schema, found)
    requires UndoAll(schema, found, FinishAll(dn, ops, env), clock).Ok?
    ensures var done := FinishAll(dn, ops, env);
            var end := UndoAll(schema, found, done, clock).value;
            && AllNamed(done) && AllSimple(schema, done) && ValidData(schema, end)
            && forall k ::
                 && EndsAs(schema, d0, done, k, Lookup(found, k), Lookup(end, k))
                 && Stamped(d0, done, k, Lookup(end, k), clock)
  {
    var done := FinishAll(dn, ops, env);
    CommitFinishes(schema, d0, d, ops, env, dn);
    if !AllNamed(done) {
      var i: nat :| i < |done| && !Named(done[i]);
      LostIdRefuses(schema, found, done, i, clock);
    }
    NamedAreSimple(schema, d0, dn, done);
    UndoRowByRow(schema, found, done, clock);
    var end := UndoAll(schema, found, done, clock).value;
    forall k ensures EndsAs(schema, d0, done, k, Lookup(found, k), Lookup(end, k))
             ensures Stamped(d0, done, k, Lookup(end, k), clock) {
      RowAfter(schema, d0, dn, done, k, Lookup(found, k), clock);
      StampAfter(schema, d0, dn, done, k, Lookup(found, k), clock);
    }
  }

  // ----- which rows a successful rollback restores

  /**
   Whether the rollback can bring the row back. An existing row must be there when the pass is through: either the
   transaction deleted it, or nobody else has. A new row must be recorded as inserted, or be gone already.
   */
  ghost predicate Restorable(d0: Data, found: Data, done: seq<Op>, k: Key) {
    if k in d0 then Present(Lookup(found, k), done, k) else Inserts(done, k) || k !in found
  }

  /**
   Whatever other clients wrote since the commit and whatever it failed to record, a rollback that succeeds brings a
   row the transaction changed back to its value before the commit, `updated_at` aside, exactly when the row is
   restorable. Every other row is as found, unless an outdated record takes it for an inserted one.
   */
  lemma UndoRestoresIff(schema: Schema, d0: Data, ops: seq<Op>, env: Env, dn: Data, found: Data, clock: Clock)
    requires Committed(schema, d0, ops, env, dn) && ValidData(schema, found)
    requires UndoAll(schema, found, FinishAll(dn, ops, env), clock).Ok?
    ensures var done := FinishAll(dn, ops, env);
            var end := UndoAll(schema, found, done, clock).value;
            && ValidData(schema, end)
            && forall k :: if Touches(d0, ops, env, k)
                           then SameRow(Lookup(end, k), Lookup(d0, k)) <==> Restorable(d0, found, done, k)
                           else Lookup(end, k) == if Inserts(done, k) then None else Lookup(found, k)
    ensures var done := FinishAll(dn, ops, env);
            forall k :: Stamped(d0, done, k, Lookup(UndoAll(schema, found, done, clock).value, k), clock)
  {
    var done := FinishAll(dn, ops, env);
    var end := UndoAll(schema, found, done, clock).value;
    CommittedIsMidway(schema, d0, ops, env, dn);
    CommitFinishes(schema, d0, d0, ops, env, dn);
    UndoEnds(schema, d0, d0, ops, env, dn, found, clock);
    hide UndoAll;
    hide Committed;
    hide Midway;
    hide FinishAll;
    hide Finished;
    forall k ensures if Touches(d0, ops, env, k)
                     then SameRow(Lookup(end, k), Lookup(d0, k)) <==> Restorable(d0, found, done, k)
                     else Lookup(end, k) == if Inserts(done, k) then None else Lookup(found, k) {
      RowRestoredIff(schema, d0, ops, env, dn, done, k, found, end);
    }
  }

  lemma RowRestoredIff(schema: Schema, d0: Data, ops: seq<Op>, env: Env, dn: Data, done: seq<Op>, k: Key, found: Data,
                       end: Data)
    requires |done| == |ops| && AllFinished(schema, d0, dn, done) && AllNamed(done)
    requires forall i :: 0 <= i < |ops| ==> Runs(ops[i].stmt) && done[i].stmt == ops[i].stmt
    requires forall i :: 0 <= i < |ops| && !ops[i].stmt.Insert? ==> KeyOf(done[i]) == Target(ops[i], env)
    requires EndsAs(schema, d0, done, k, Lookup(found, k), Lookup(end, k))
    ensures if Touches(d0, ops, env, k)
            then SameRow(Lookup(end, k), Lookup(d0, k)) <==> Restorable(d0, found, done, k)
            else Lookup(end, k) == if Inserts(done, k) then None else Lookup(found, k)
  {
    if Touches(d0, ops, env, k) {
      var i :| 0 <= i < |ops| && Target(ops[i], env) == k && (ops[i].stmt.Insert? <==> k !in d0);
      if k in d0 {
        assert Named(done[i]) && KeyOf(done[i]) == k;
      } else if !Names(done, k) {
        UnnamedHasNone(done, k);
      }
    } else if Names(done, k) && k in d0 {
      OnlyInsertsName(d0, ops, env, done, k);
    } else if !Names(done, k) {
      UnnamedHasNone(done, k);
    }
  }

  /** An existing row that the transaction did not touch is named by outdated records of INSERTs only. */
  lemma OnlyInsertsName(d0: Data, ops: seq<Op>, env: Env, done: seq<Op>, k: Key)
    requires |done| == |ops| && k in d0 && !Touches(d0, ops, env, k) && Names(done, k)
    requires forall i :: 0 <= i < |ops| ==> Runs(ops[i].stmt) && done[i].stmt == ops[i].stmt
    requires forall i :: 0 <= i < |ops| && !ops[i].stmt.Insert? && Named(done[i]) ==>
               KeyOf(done[i]) == Target(ops[i], env)
    ensures Inserts(done, k) && FirstReplacing(done, k).Some? && FirstReplacing(done, k).value.stmt.Insert?
  {
    assert forall i :: 0 <= i < |ops| && Target(ops[i], env) == k ==> ops[i].stmt.Insert?;
    FirstIsInsert(done, k);
  }

  lemma {:induction false} FirstIsInsert(done: seq<Op>, k: Key)
    requires Names(done, k)
    requires forall i :: 0 <= i < |done| && Named(done[i]) && KeyOf(done[i]) == k ==> done[i].stmt.Insert?
    ensures FirstReplacing(done, k).Some? && FirstReplacing(done, k).value.stmt.Insert?
  {
    assert forall i :: 0 < i < |done| ==> done[i] == done[1..][i - 1];
    if !(Named(done[0]) && KeyOf(done[0]) == k) {
      assert Names(done[1..], k);
      FirstIsInsert(done[1..], k);
    }
  }

  // ----- nothing lost: everything comes back

  /** Every INSERT is recorded under the id it inserted. */
  ghost predicate Labelled(ops: seq<Op>, env: Env, done: seq<Op>)
    requires |done| == |ops|
  {
    forall i :: 0 <= i < |ops| && ops[i].stmt.Insert? ==> Named(done[i]) && KeyOf(done[i]) == Target(ops[i], env)
  }

  /** The first replacement of a row that is present is its deletion; without one the row is still there. */
  lemma {:induction false} FirstReplacingDeletes(schema: Schema, d0: Data, d: Data, ops: seq<Op>, env: Env, dn: Data,
                                                 k: Key)
    requires Midway(schema, d0, d, ops, env, dn) && Labelled(ops, env, FinishAll(dn, ops, env)) && k in d
    ensures var first := FirstReplacing(FinishAll(dn, ops, env), k);
            if first.Some? then first.value.stmt.Delete? else k in dn
    decreases |ops|
  {
    if ops != [] {
      var done := FinishAll(dn, ops, env);
      var next := FirstStep(schema, d0, d, ops, env, dn, k);
      hide Midway;
      assert forall i :: 0 < i < |ops| ==> ops[i] == ops[1..][i - 1] && done[i] == done[1..][i - 1];
      assert Labelled(ops[1..], env, done[1..]);
      if k in next {
        FirstReplacingDeletes(schema, d0, next, ops[1..], env, dn, k);
      }
    }
  }

  /** Recorded UPDATEs of a row that is gone are refused. */
  lemma {:induction false} RecordedNeedsRow(schema: Schema, done: seq<Op>, k: Key, clock: Clock)
    requires AllSimple(schema, done) && Names(done, k)
    requires forall i :: 0 <= i < |done| && KeyOf(done[i]) == k ==>
               done[i].stmt.Update? && done[i].before.Some? && done[i].committed.Some?
    ensures UndoRowAll(schema, None, done, k, clock).Err?
  {
    assert forall i :: 0 < i < |done| ==> done[i] == done[1..][i - 1];
    NamesFirst(done, k);
    if Names(done[1..], k) {
      RecordedNeedsRow(schema, done[1..], k, clock);
    } else {
      UnnamedIsLeft(schema, None, done[1..], k, clock);
    }
  }

  lemma {:induction false} UnnamedIsLeft(schema: Schema, found: Option<Row>, done: seq<Op>, k: Key, clock: Clock)
    requires AllSimple(schema, done) && !Names(done, k)
    ensures UndoRowAll(schema, found, done, k, clock) == Ok(found)
  {
    if done != [] {
      NamesFirst(done, k);
      UnnamedIsLeft(schema, found, done[1..], k, clock);
    }
  }

  lemma {:induction false} NoReplacingMeansUpdates(done: seq<Op>, k: Key)
    requires FirstReplacing(done, k).None?
    ensures forall i :: 0 <= i < |done| && Named(done[i]) && KeyOf(done[i]) == k ==> done[i].stmt.Update?
  {
    if done != [] {
      NoReplacingMeansUpdates(done[1..], k);
      assert forall i :: 0 < i < |done| ==> done[i] == done[1..][i - 1];
    }
  }

  lemma LosslessIsPresent(schema: Schema, d0: Data, ops: seq<Op>, env: Env, dn: Data, k: Key, found: Data, clock: Clock)
    requires Committed(schema, d0, ops, env, dn) && Lossless(env, ops) && ValidData(schema, found)
    requires UndoAll(schema, found, FinishAll(dn, ops, env), clock).Ok?
    requires k in d0 && Names(FinishAll(dn, ops, env), k)
    ensures Present(Lookup(found, k), FinishAll(dn, ops, env), k)
  {
    var done := FinishAll(dn, ops, env);
    CommittedIsMidway(schema, d0, ops, env, dn);
    CommitFinishes(schema, d0, d0, ops, env, dn);
    FirstReplacingDeletes(schema, d0, d0, ops, env, dn, k);
    if FirstReplacing(done, k).None? && k !in found {
      NoReplacingMeansUpdates(done, k);
      NamedAreSimple(schema, d0, dn, done);
      forall i | 0 <= i < |done| && KeyOf(done[i]) == k
        ensures done[i].stmt.Update? && done[i].before.Some? && done[i].committed.Some? {
        assert done[i].stmt == ops[i].stmt;
      }
      UndoRowByRow(schema, found, done, clock);
      RecordedNeedsRow(schema, done, k, clock);
    }
  }

  /**
   When no record of the commit was lost, a rollback that succeeds brings every row the transaction changed back to
   its value before the commit, `updated_at` aside, and leaves every other row as it found it, whatever other
   clients wrote since.
   */
  lemma UndoRestores(schema: Schema, d0: Data, ops: seq<Op>, env: Env, dn: Data, found: Data, clock: Clock)
    requires Committed(schema, d0, ops, env, dn) && Lossless(env, ops) && ValidData(schema, found)
    requires UndoAll(schema, found, FinishAll(dn, ops, env), clock).Ok?
    ensures var end := UndoAll(schema, found, FinishAll(dn, ops, env), clock).value;
            && ValidData(schema, end)
            && forall k :: if Touches(d0, ops, env, k) then SameRow(Lookup(end, k), Lookup(d0, k))
                           else Lookup(end, k) == Lookup(found, k)
  {
    var done := FinishAll(dn, ops, env);
    var end := UndoAll(schema, found, done, clock).value;
    UndoRestoresIff(schema, d0, ops, env, dn, found, clock);
    forall k ensures if Touches(d0, ops, env, k) then SameRow(Lookup(end, k), Lookup(d0, k))
                     else Lookup(end, k) == Lookup(found, k) {
      LosslessRow(schema, d0, ops, env, dn, k, found, clock);
    }
  }

  /** With nothing lost there is no INSERT on record for a row that was not touched. */
  lemma StrayInsert(schema: Schema, d0: Data, ops: seq<Op>, env: Env, dn: Data, k: Key)
    requires Committed(schema, d0, ops, env, dn) && Lossless(env, ops)
    requires Inserts(FinishAll(dn, ops, env), k)
    ensures Touches(d0, ops, env, k)
  {
    hide FinishAll;
    var done := FinishAll(dn, ops, env);
    CommittedIsMidway(schema, d0, ops, env, dn);
    CommitFinishes(schema, d0, d0, ops, env, dn);
    var i :| 0 <= i < |done| && done[i].stmt.Insert? && Named(done[i]) && KeyOf(done[i]) == k;
    assert FinishedFrom(schema, d0, dn, ops[i], done[i], env);
    if k in d0 && !Touches(d0, ops, env, k) {
      OnlyInsertsName(d0, ops, env, done, k);
      FirstReplacingDeletes(schema, d0, d0, ops, env, dn, k);
    }
  }

  lemma LosslessRow(schema: Schema, d0: Data, ops: seq<Op>, env: Env, dn: Data, k: Key, found: Data, clock: Clock)
    requires Committed(schema, d0, ops, env, dn) && Lossless(env, ops) && ValidData(schema, found)
    requires UndoAll(schema, found, FinishAll(dn, ops, env), clock).Ok?
    ensures var done := FinishAll(dn, ops, env);
            if Touches(d0, ops, env, k) then Restorable(d0, found, done, k) else !Inserts(done, k)
  {
    var done := FinishAll(dn, ops, env);
    CommittedIsMidway(schema, d0, ops, env, dn);
    CommitFinishes(schema, d0, d0, ops, env, dn);
    if Touches(d0, ops, env, k) {
      var i :| 0 <= i < |ops| && Runs(ops[i].stmt) && Target(ops[i], env) == k && (ops[i].stmt.Insert? <==> k !in d0);
      assert FinishedFrom(schema, d0, dn, ops[i], done[i], env);
      if k in d0 {
        LosslessIsPresent(schema, d0, ops, env, dn, k, found, clock);
      }
    } else if Inserts(done, k) {
      StrayInsert(schema, d0, ops, env, dn, k);
    }
  }
}
