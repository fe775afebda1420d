/**
 Which rollbacks after commit are refused, exactly: by what other clients wrote since, by what the commit recorded,
 and by the shape of the transaction itself.
 */
module Refusal {
  import opened Wrappers
  import opened Rows
  import opened Saga
  import opened RowUndo
  import opened Undo

  /** The row is gone, or differs in a column where the difference is not between NULL and the text `<nil>`. */
  ghost predicate VisiblyChanged(current: Option<Row>, committed: Row) {
    || current.None?
    || exists c :: c in committed && c != UPDATED_AT && c in current.value
         && current.value[c] != committed[c] && !NilPair(current.value[c], committed[c])
  }

  lemma ConflictsIff(types: Types, schema: Schema, k: Key, current: Option<Row>, committed: Row)
    requires ValidRow(schema, k, committed) && TypedRow(types, k.table, committed)
    requires current.Some? ==> ValidRow(schema, k, current.value) && TypedRow(types, k.table, current.value)
    ensures Conflicts(current, committed) <==> VisiblyChanged(current, committed)
  {
    if current.Some? {
      LooksLikeIff(types, k.table, current.value, committed);
    }
  }

  /**
   Why an operation on an existing row `k` cannot be undone, once the `later` ones are. A deleted row's id is taken:
   by somebody else, or by the undoing of a later deletion. An UPDATE whose outcome was recorded no longer finds it:
   the row is gone, or visibly changed by others, or already set back by the undoing of a later operation. An UPDATE
   whose outcome was not recorded is never refused.
   */
  ghost predicate Stuck(d0: Data, dn: Data, found: Option<Row>, op: Op, later: seq<Op>, k: Key)
    requires k in d0
  {
    match op.stmt
    case Insert(_, _) => false
    case Delete(_, _) => Present(found, later, k)
    case Update(_, _, _) =>
      op.committed.Some? && k in dn
      && (!Present(found, later, k)
          || if Names(later, k) then !LooksLike(d0[k], dn[k]) else VisiblyChanged(found, dn[k]))
  }

  ghost predicate StuckAt(d0: Data, dn: Data, found: Option<Row>, done: seq<Op>, i: nat, k: Key)
    requires k in d0
  {
    i < |done| && Named(done[i]) && KeyOf(done[i]) == k && Stuck(d0, dn, found, done[i], done[i + 1..], k)
  }

  // ----- one row

  lemma StuckFirst(d0: Data, dn: Data, found: Option<Row>, done: seq<Op>, k: Key)
    requires k in d0 && done != [] && Named(done[0])
    ensures (exists i: nat :: StuckAt(d0, dn, found, done, i, k)) <==>
            || (exists i: nat :: StuckAt(d0, dn, found, done[1..], i, k))
            || (KeyOf(done[0]) == k && Stuck(d0, dn, found, done[0], done[1..], k))
  {
    hide Stuck;
    assert forall i :: 0 < i < |done| ==> done[i] == done[1..][i - 1] && done[i + 1..] == done[1..][i..];
    if exists i: nat :: StuckAt(d0, dn, found, done, i, k) {
      var i: nat :| StuckAt(d0, dn, found, done, i, k);
      if i > 0 {
        assert StuckAt(d0, dn, found, done[1..], i - 1, k);
      }
    }
    if exists i: nat :: StuckAt(d0, dn, found, done[1..], i, k) {
      var i: nat :| StuckAt(d0, dn, found, done[1..], i, k);
      assert StuckAt(d0, dn, found, done, i + 1, k);
    }
    if KeyOf(done[0]) == k && Stuck(d0, dn, found, done[0], done[1..], k) {
      assert StuckAt(d0, dn, found, done, 0, k);
    }
  }

  /** The check compares with the state the commit left exactly as `VisiblyChanged` says. */
  ghost predicate ChecksWell(dn: Data, found: Option<Row>, k: Key) {
    k in dn ==> (Conflicts(found, dn[k]) <==> VisiblyChanged(found, dn[k]))
  }

  lemma FirstStuckIff(schema: Schema, d0: Data, dn: Data, done: seq<Op>, k: Key, found: Option<Row>,
                      later: Option<Row>, now: Value)
    requires ValidData(schema, d0) && ValidData(schema, dn) && k in d0 && ChecksWell(dn, found, k)
    requires done != [] && Named(done[0]) && Finished(schema, d0, dn, done[0], k)
    requires EndsAs(schema, d0, done[1..], k, found, later)
    ensures UndoRow(schema, later, done[0], now).Err? <==> Stuck(d0, dn, found, done[0], done[1..], k)
  {
    assert ValidRow(schema, k, d0[k]) && (k in dn ==> ValidRow(schema, k, dn[k]));
    hide ValidData;
    hide VisiblyChanged;
    if !Names(done[1..], k) {
      UnnamedHasNone(done[1..], k);
    }
    if done[0].stmt.Update? {
      var c :| c in schema[done[0].stmt.table] && c != ID;
      assert c in Restoring(d0[k], now);
      if later.Some? && k in dn && Names(done[1..], k) {
        assert LooksLike(later.value, dn[k]) <==> LooksLike(d0[k], dn[k]);
      }
    }
  }

  /** On one row that existed before the commit, whatever was found there since. */
  lemma {:induction false} RowRefusedIff(schema: Schema, d0: Data, dn: Data, done: seq<Op>, k: Key, found: Option<Row>,
                                         clock: Clock)
    requires ValidData(schema, d0) && ValidData(schema, dn) && k in d0 && ChecksWell(dn, found, k)
    requires AllFinished(schema, d0, dn, done) && AllSimple(schema, done)
    requires found.Some? ==> ValidRow(schema, k, found.value)
    ensures UndoRowAll(schema, found, done, k, clock).Err? <==> exists i: nat :: StuckAt(d0, dn, found, done, i, k)
  {
    if done != [] {
      RowRefusedIff(schema, d0, dn, done[1..], k, found, clock);
      StuckFirst(d0, dn, found, done, k);
      RowAfter(schema, d0, dn, done[1..], k, found, clock);
      hide Stuck;
      hide StuckAt;
      var later := UndoRowAll(schema, found, done[1..], k, clock);
      if later.Ok? && KeyOf(done[0]) == k {
        FirstStuckIff(schema, d0, dn, done, k, found, later.value, Now(clock, done[0].id));
      }
    }
  }

  lemma {:induction false} NewRowIsNeverRefused(schema: Schema, d0: Data, dn: Data, done: seq<Op>, k: Key,
                                                found: Option<Row>, clock: Clock)
    requires AllFinished(schema, d0, dn, done) && AllSimple(schema, done) && k !in d0
    ensures UndoRowAll(schema, found, done, k, clock).Ok?
  {
    if done != [] {
      NewRowIsNeverRefused(schema, d0, dn, done[1..], k, found, clock);
    }
  }

  // ----- the whole rollback

  /** The id of an inserted row is not on record, or some operation on an existing row is stuck. */
  ghost predicate Refused(d0: Data, dn: Data, found: Data, done: seq<Op>) {
    || (exists i :: 0 <= i < |done| && IdIsLost(done[i]))
    || (exists i: nat, k :: k in d0 && StuckAt(d0, dn, Lookup(found, k), done, i, k))
  }

  lemma RefusedWhenChecked(schema: Schema, d0: Data, ops: seq<Op>, env: Env, dn: Data, found: Data, clock: Clock)
    requires Committed(schema, d0, ops, env, dn) && ValidData(schema, found)
    requires forall k :: k in d0 && Names(FinishAll(dn, ops, env), k) ==> ChecksWell(dn, Lookup(found, k), k)
    ensures UndoAll(schema, found, FinishAll(dn, ops, env), clock).Err?
            <==> Refused(d0, dn, found, FinishAll(dn, ops, env))
  {
    var done := FinishAll(dn, ops, env);
    CommittedIsMidway(schema, d0, ops, env, dn);
    CommitFinishes(schema, d0, d0, ops, env, dn);
    if AllNamed(done) {
      NamedAreSimple(schema, d0, dn, done);
      UndoRowByRow(schema, found, done, clock);
      hide StuckAt;
      hide UndoAll;
      forall k ensures UndoRowAll(schema, Lookup(found, k), done, k, clock).Err? <==>
                       k in d0 && exists i: nat :: StuckAt(d0, dn, Lookup(found, k), done, i, k) {
        RowIsRefused(schema, d0, dn, done, k, found, clock);
      }
    } else {
      var i: nat :| i < |done| && !Named(done[i]);
      assert IdIsLost(done[i]);
      LostIdRefuses(schema, found, done, i, clock);
    }
  }

  lemma RowIsRefused(schema: Schema, d0: Data, dn: Data, done: seq<Op>, k: Key, found: Data, clock: Clock)
    requires ValidData(schema, d0) && ValidData(schema, dn) && ValidData(schema, found)
    requires AllFinished(schema, d0, dn, done) && AllSimple(schema, done)
    requires k in d0 && Names(done, k) ==> ChecksWell(dn, Lookup(found, k), k)
    ensures UndoRowAll(schema, Lookup(found, k), done, k, clock).Err? <==>
            k in d0 && exists i: nat :: StuckAt(d0, dn, Lookup(found, k), done, i, k)
  {
    if k !in d0 {
      NewRowIsNeverRefused(schema, d0, dn, done, k, Lookup(found, k), clock);
    } else if Names(done, k) {
      RowRefusedIff(schema, d0, dn, done, k, Lookup(found, k), clock);
    } else {
      UnnamedIsLeft(schema, Lookup(found, k), done, k, clock);
    }
  }

  /**
   Whatever other clients wrote since the commit and whatever it failed to record, the rollback is refused exactly
   when the id of an inserted row is not on record or an operation on a row that existed before is stuck.
   */
  lemma RefusedIff(types: Types, schema: Schema, d0: Data, ops: seq<Op>, env: Env, dn: Data, found: Data, clock: Clock)
    requires Committed(schema, d0, ops, env, dn) && ValidData(schema, found)
    requires TypedData(types, dn) && TypedData(types, found)
    ensures UndoAll(schema, found, FinishAll(dn, ops, env), clock).Err?
            <==> Refused(d0, dn, found, FinishAll(dn, ops, env))
  {
    CommittedIsMidway(schema, d0, ops, env, dn);
    forall k | k in d0 ensures ChecksWell(dn, Lookup(found, k), k) {
      if k in dn {
        ConflictsIff(types, schema, k, Lookup(found, k), dn[k]);
      }
    }
    RefusedWhenChecked(schema, d0, ops, env, dn, found, clock);
  }

  // ----- a row that others have changed

  /** `i` is the last of the operations that names row `k`. */
  ghost predicate LastOn(done: seq<Op>, i: nat, k: Key) {
    && i < |done| && Named(done[i]) && KeyOf(done[i]) == k
    && !Names(done[i + 1..], k)
  }

  lemma LastStuckIff(d0: Data, dn: Data, found: Option<Row>, done: seq<Op>, i: nat, k: Key)
    requires k in d0 && k in dn && LastOn(done, i, k) && done[i].stmt.Update?
    ensures StuckAt(d0, dn, found, done, i, k) <==> done[i].committed.Some? && VisiblyChanged(found, dn[k])
    ensures forall j: nat :: StuckAt(d0, dn, found, done, j, k) ==> j <= i
  {
    UnnamedHasNone(done[i + 1..], k);
    assert forall j :: i < j < |done| ==> done[j] == done[i + 1..][j - i - 1];
  }

  lemma StuckRefuses(d0: Data, dn: Data, found: Data, done: seq<Op>, i: nat, k: Key)
    requires k in d0
    ensures StuckAt(d0, dn, Lookup(found, k), done, i, k) ==> Refused(d0, dn, found, done)
  {
    hide StuckAt;
  }

  /** A row that the pass leaves: what became of a change to it. */
  lemma ChangeIsLost(schema: Schema, d0: Data, ops: seq<Op>, env: Env, dn: Data, found: Data, clock: Clock, k: Key)
    requires Committed(schema, d0, ops, env, dn) && ValidData(schema, found) && Names(FinishAll(dn, ops, env), k)
    requires UndoAll(schema, found, FinishAll(dn, ops, env), clock).Ok?
    ensures var done := FinishAll(dn, ops, env);
            var end := Lookup(UndoAll(schema, found, done, clock).value, k);
            if k in d0 then (if Present(Lookup(found, k), done, k) then SameRow(end, Some(d0[k])) else end.None?)
            else end == if Inserts(done, k) then None else Lookup(found, k)
  {
    CommittedIsMidway(schema, d0, ops, env, dn);
    UndoEnds(schema, d0, d0, ops, env, dn, found, clock);
    hide UndoAll;
    hide FinishAll;
    hide Midway;
    hide Committed;
    assert EndsAs(schema, d0, FinishAll(dn, ops, env), k, Lookup(found, k),
                  Lookup(UndoAll(schema, found, FinishAll(dn, ops, env), clock).value, k));
  }

  lemma ChangeOnRow(types: Types, schema: Schema, d0: Data, ops: seq<Op>, env: Env, dn: Data, found: Data,
                    clock: Clock, i: nat, k: Key)
    requires Committed(schema, d0, ops, env, dn) && ValidData(schema, found) && k in dn
    requires TypedData(types, dn) && TypedData(types, found) && AllSimple(schema, FinishAll(dn, ops, env))
    requires LastOn(FinishAll(dn, ops, env), i, k) && FinishAll(dn, ops, env)[i].stmt.Update?
    ensures var done := FinishAll(dn, ops, env);
            UndoRowAll(schema, Lookup(found, k), done, k, clock).Err? <==>
              k in d0 && (StuckAt(d0, dn, Lookup(found, k), done, i, k)
                          || exists j: nat :: j < i && StuckAt(d0, dn, Lookup(found, k), done, j, k))
  {
    CommittedIsMidway(schema, d0, ops, env, dn);
    CommitFinishes(schema, d0, d0, ops, env, dn);
    ConflictsIff(types, schema, k, Lookup(found, k), dn[k]);
    hide StuckAt;
    hide FinishAll;
    RowIsRefused(schema, d0, dn, FinishAll(dn, ops, env), k, found, clock);
    if k in d0 {
      LastStuckIff(d0, dn, Lookup(found, k), FinishAll(dn, ops, env), i, k);
    }
  }

  lemma LastIsUpdate(dn: Data, ops: seq<Op>, env: Env, i: nat, k: Key)
    requires LastOn(FinishAll(dn, ops, env), i, k) && ops[i].stmt.Update?
    ensures FinishAll(dn, ops, env)[i].stmt.Update? && Names(FinishAll(dn, ops, env), k)
  {
  }

  /**
   A row whose last operation was an UPDATE that hit it has since been deleted, or changed in a column other than
   `updated_at`. The change refuses the rollback exactly when the row existed before the commit, the outcome of that
   UPDATE was recorded and the change is visible; on account of the row, the rollback is refused only then, or when an
   earlier operation on it is stuck. A rollback that succeeds loses the change: an existing row is back at its old
   value if anybody had left it, and a row recorded as inserted is gone.
   */
  lemma ChangeIsRefused(types: Types, schema: Schema, d0: Data, ops: seq<Op>, env: Env, dn: Data, found: Data,
                        clock: Clock, i: nat, k: Key)
    requires Committed(schema, d0, ops, env, dn) && ValidData(schema, found)
    requires TypedData(types, dn) && TypedData(types, found)
    requires LastOn(FinishAll(dn, ops, env), i, k) && ops[i].stmt.Update? && k in dn
    requires !SameRow(Lookup(found, k), Some(dn[k]))
    ensures var done := FinishAll(dn, ops, env);
            var visible := k in d0 && done[i].committed.Some? && VisiblyChanged(Lookup(found, k), dn[k]);
            && (visible <==> k in d0 && StuckAt(d0, dn, Lookup(found, k), done, i, k))
            && (visible ==> UndoAll(schema, found, done, clock).Err?)
            && (AllSimple(schema, done) ==>
                  (UndoRowAll(schema, Lookup(found, k), done, k, clock).Err? <==>
                     visible || (k in d0 && exists j: nat :: j < i && StuckAt(d0, dn, Lookup(found, k), done, j, k))))
            && (UndoAll(schema, found, done, clock).Ok? ==>
                  var end := Lookup(UndoAll(schema, found, done, clock).value, k);
                  if k in d0 then (if Present(Lookup(found, k), done, k) then SameRow(end, Some(d0[k])) else end.None?)
                  else end == if Inserts(done, k) then None else Lookup(found, k))
  {
    hide StuckAt;
    hide UndoAll;
    hide UndoRowAll;
    hide Refused;
    hide VisiblyChanged;
    hide Present;
    hide Inserts;
    hide Committed;
    hide ValidData;
    hide TypedData;
    hide AllSimple;
    hide SameRow;
    var done := FinishAll(dn, ops, env);
    LastIsUpdate(dn, ops, env, i, k);
    RefusedIff(types, schema, d0, ops, env, dn, found, clock);
    if k in d0 {
      LastStuckIff(d0, dn, Lookup(found, k), done, i, k);
      StuckRefuses(d0, dn, found, done, i, k);
    }
    if AllSimple(schema, done) {
      ChangeOnRow(types, schema, d0, ops, env, dn, found, clock, i, k);
    }
    if UndoAll(schema, found, done, clock).Ok? {
      ChangeIsLost(schema, d0, ops, env, dn, found, clock, k);
    }
  }

  // ----- transactions whose rows nobody wrote since

  /** Nobody wrote the rows of the transaction since it committed. */
  ghost predicate Quiet(dn: Data, found: Data, done: seq<Op>) {
    forall k :: Names(done, k) ==> Lookup(found, k) == Lookup(dn, k)
  }

  /**
   When nobody wrote the transaction's rows since the commit, the rollback succeeds exactly when the transaction and
   its records alone leave nothing stuck: no lost row id, and no operation on an existing row that the undoing of the
   later ones gets in the way of.
   */
  lemma UndoableIff(schema: Schema, d0: Data, ops: seq<Op>, env: Env, dn: Data, found: Data, clock: Clock)
    requires Committed(schema, d0, ops, env, dn) && ValidData(schema, found)
    requires Quiet(dn, found, FinishAll(dn, ops, env))
    ensures UndoAll(schema, found, FinishAll(dn, ops, env), clock).Ok?
            <==> !Refused(d0, dn, dn, FinishAll(dn, ops, env))
  {
    var done := FinishAll(dn, ops, env);
    RefusedWhenChecked(schema, d0, ops, env, dn, found, clock);
    forall i: nat, k | k in d0
      ensures StuckAt(d0, dn, Lookup(found, k), done, i, k) <==> StuckAt(d0, dn, Lookup(dn, k), done, i, k) {
      if i < |done| && Named(done[i]) && KeyOf(done[i]) == k {
        assert Names(done, k);
      }
    }
  }

  // ----- the clean case

  /** No two operations write one row. */
  ghost predicate EachRowOnce(ops: seq<Op>, env: Env) {
    forall i, j :: 0 <= i < j < |ops| && Runs(ops[i].stmt) && Runs(ops[j].stmt) ==>
      Target(ops[i], env) != Target(ops[j], env)
  }

  /** A row id that an INSERT carries from an earlier attempt to commit is the one it inserts now. */
  ghost predicate NoOutdatedIds(ops: seq<Op>, env: Env) {
    forall i :: 0 <= i < |ops| && ops[i].stmt.Insert? && ops[i].rowIds.Some? ==>
      ops[i].rowIds == Some([InsertedId(ops[i], env)])
  }

  /** The row id of every INSERT is on record, from this commit or an earlier attempt. */
  ghost predicate IdsOnRecord(ops: seq<Op>, env: Env) {
    forall i :: 0 <= i < |ops| && ops[i].stmt.Insert? ==> ops[i].id !in env.lostIds || ops[i].rowIds.Some?
  }

  lemma OnRecordIsLabelled(schema: Schema, d0: Data, ops: seq<Op>, env: Env, dn: Data)
    requires Committed(schema, d0, ops, env, dn) && NoOutdatedIds(ops, env)
    ensures var done := FinishAll(dn, ops, env);
            && (IdsOnRecord(ops, env) <==> forall i :: 0 <= i < |done| ==> !IdIsLost(done[i]))
            && (IdsOnRecord(ops, env) ==> AllNamed(done) && Labelled(ops, env, done))
  {
    var done := FinishAll(dn, ops, env);
    CommittedIsMidway(schema, d0, ops, env, dn);
    CommitFinishes(schema, d0, d0, ops, env, dn);
    forall i | 0 <= i < |ops|
      ensures FinishedFrom(schema, d0, dn, ops[i], done[i], env)
      ensures IdIsLost(done[i]) <==> ops[i].stmt.Insert? && ops[i].id in env.lostIds && ops[i].rowIds.None?
      ensures ops[i].stmt.Insert? && !IdIsLost(done[i]) ==> Named(done[i]) && KeyOf(done[i]) == Target(ops[i], env) {
    }
    if !IdsOnRecord(ops, env) {
      var i :| 0 <= i < |ops| && ops[i].stmt.Insert? && !(ops[i].id !in env.lostIds || ops[i].rowIds.Some?);
      assert IdIsLost(done[i]);
    }
  }

  lemma {:induction false} UnwrittenIsUnchanged(schema: Schema, d0: Data, d: Data, ops: seq<Op>, env: Env, dn: Data,
                                                k: Key)
    requires Midway(schema, d0, d, ops, env, dn) && !Writes(ops, env, k)
    ensures Lookup(dn, k) == Lookup(d, k)
    decreases |ops|
  {
    if ops != [] {
      var next := FirstStep(schema, d0, d, ops, env, dn, k);
      hide Midway;
      assert forall i :: 0 <= i < |ops| - 1 ==> ops[1..][i] == ops[i + 1];
      UnwrittenIsUnchanged(schema, d0, next, ops[1..], env, dn, k);
    }
  }

  /** The pass as it stood before operation `i`. */
  lemma {:induction false} MidwayAt(schema: Schema, d0: Data, d: Data, ops: seq<Op>, env: Env, dn: Data, i: nat)
    returns (mid: Data)
    requires Midway(schema, d0, d, ops, env, dn) && i <= |ops|
    ensures Midway(schema, d0, mid, ops[i..], env, dn)
    decreases |ops|
  {
    if i == 0 {
      mid := d;
      assert ops[0..] == ops;
    } else {
      var next := FirstStep(schema, d0, d, ops, env, dn, Key("", Null));
      hide Midway;
      mid := MidwayAt(schema, d0, next, ops[1..], env, dn, i - 1);
      assert ops[1..][i - 1..] == ops[i..];
    }
  }

  /** With each row written once, a deleted row stays deleted and an updated one stays. */
  lemma OnceIsFinal(schema: Schema, d0: Data, ops: seq<Op>, env: Env, dn: Data, i: nat)
    requires Committed(schema, d0, ops, env, dn) && EachRowOnce(ops, env)
    requires i < |ops| && Runs(ops[i].stmt)
    ensures ops[i].stmt.Delete? ==> Target(ops[i], env) !in dn
  {
    CommittedIsMidway(schema, d0, ops, env, dn);
    var k := Target(ops[i], env);
    var mid := MidwayAt(schema, d0, d0, ops, env, dn, i);
    var next := FirstStep(schema, d0, mid, ops[i..], env, dn, k);
    var rest := ops[i..][1..];
    assert forall j :: 0 <= j < |rest| ==> rest[j] == ops[i + 1 + j];
    UnwrittenIsUnchanged(schema, d0, next, rest, env, dn, k);
  }

  lemma CleanIsNotStuck(schema: Schema, d0: Data, ops: seq<Op>, env: Env, dn: Data, i: nat, k: Key)
    requires Committed(schema, d0, ops, env, dn) && EachRowOnce(ops, env)
    requires Labelled(ops, env, FinishAll(dn, ops, env)) && k in d0
    ensures !StuckAt(d0, dn, Lookup(dn, k), FinishAll(dn, ops, env), i, k)
  {
    var done := FinishAll(dn, ops, env);
    CommittedIsMidway(schema, d0, ops, env, dn);
    CommitFinishes(schema, d0, d0, ops, env, dn);
    if i < |done| && Named(done[i]) && KeyOf(done[i]) == k {
      forall j | i < j < |done| && Named(done[j]) ensures KeyOf(done[j]) != k {
        assert FinishedFrom(schema, d0, dn, ops[i], done[i], env) && FinishedFrom(schema, d0, dn, ops[j], done[j], env);
      }
      var rest := done[i + 1..];
      assert forall j :: 0 <= j < |rest| ==> rest[j] == done[i + 1 + j];
      assert !Names(rest, k);
      UnnamedHasNone(done[i + 1..], k);
      OnceIsFinal(schema, d0, ops, env, dn, i);
    }
  }

  /** A row that is there although it was not before was inserted. */
  lemma {:induction false} NewRowWasInserted(schema: Schema, d0: Data, d: Data, ops: seq<Op>, env: Env, dn: Data,
                                             k: Key)
    requires Midway(schema, d0, d, ops, env, dn) && k !in d && k in dn
    ensures exists i :: 0 <= i < |ops| && ops[i].stmt.Insert? && Target(ops[i], env) == k
    decreases |ops|
  {
    var next := FirstStep(schema, d0, d, ops, env, dn, k);
    if k !in next {
      NewRowWasInserted(schema, d0, next, ops[1..], env, dn, k);
      var i :| 0 <= i < |ops[1..]| && ops[1..][i].stmt.Insert? && Target(ops[1..][i], env) == k;
      assert ops[i + 1] == ops[1..][i];
    }
  }

  /**
   When each row is written by one operation at most and nobody wrote those rows since, the rollback succeeds exactly
   when the row ids of the inserted rows are on record; when nobody wrote anything since, commit and rollback together
   then change nothing but `updated_at`.
   */
  lemma CleanUndo(schema: Schema, d0: Data, ops: seq<Op>, env: Env, dn: Data, found: Data, clock: Clock)
    requires Committed(schema, d0, ops, env, dn) && ValidData(schema, found)
    requires EachRowOnce(ops, env) && NoOutdatedIds(ops, env) && Quiet(dn, found, FinishAll(dn, ops, env))
    ensures var end := UndoAll(schema, found, FinishAll(dn, ops, env), clock);
            && (end.Ok? <==> IdsOnRecord(ops, env))
            && (end.Ok? && found == dn ==> forall k :: SameRow(Lookup(end.value, k), Lookup(d0, k)))
  {
    hide StuckAt;
    var done := FinishAll(dn, ops, env);
    OnRecordIsLabelled(schema, d0, ops, env, dn);
    UndoableIff(schema, d0, ops, env, dn, found, clock);
    if IdsOnRecord(ops, env) {
      forall i: nat, k | k in d0 ensures !StuckAt(d0, dn, Lookup(dn, k), done, i, k) {
        CleanIsNotStuck(schema, d0, ops, env, dn, i, k);
      }
      CommittedIsMidway(schema, d0, ops, env, dn);
      UndoEnds(schema, d0, d0, ops, env, dn, found, clock);
      if found == dn {
        forall k ensures SameRow(Lookup(UndoAll(schema, found, done, clock).value, k), Lookup(d0, k)) {
          RowIsBack(schema, d0, ops, env, dn, Lookup(UndoAll(schema, found, done, clock).value, k), k);
        }
      }
    }
  }

  /** With every INSERT on record under its own id, the records name exactly the rows that were written. */
  lemma LabelledNames(schema: Schema, d0: Data, ops: seq<Op>, env: Env, dn: Data, k: Key)
    requires Committed(schema, d0, ops, env, dn) && Labelled(ops, env, FinishAll(dn, ops, env))
    ensures var done := FinishAll(dn, ops, env);
            && (Names(done, k) <==> Writes(ops, env, k))
            && (Inserts(done, k) <==> exists i :: 0 <= i < |ops| && ops[i].stmt.Insert? && Target(ops[i], env) == k)
  {
    var done := FinishAll(dn, ops, env);
    CommittedIsMidway(schema, d0, ops, env, dn);
    CommitFinishes(schema, d0, d0, ops, env, dn);
    forall i | 0 <= i < |ops|
      ensures Runs(ops[i].stmt) && done[i].stmt == ops[i].stmt
      ensures Named(done[i]) && KeyOf(done[i]) == Target(ops[i], env) {
      assert FinishedFrom(schema, d0, dn, ops[i], done[i], env);
    }
    if Writes(ops, env, k) {
      var i :| 0 <= i < |ops| && Runs(ops[i].stmt) && Target(ops[i], env) == k;
      assert Named(done[i]) && KeyOf(done[i]) == k;
    }
    if exists i :: 0 <= i < |ops| && ops[i].stmt.Insert? && Target(ops[i], env) == k {
      var i :| 0 <= i < |ops| && ops[i].stmt.Insert? && Target(ops[i], env) == k;
      assert done[i].stmt.Insert? && KeyOf(done[i]) == k;
    }
  }

  lemma RowIsBack(schema: Schema, d0: Data, ops: seq<Op>, env: Env, dn: Data, end: Option<Row>, k: Key)
    requires Committed(schema, d0, ops, env, dn) && Labelled(ops, env, FinishAll(dn, ops, env))
    requires EndsAs(schema, d0, FinishAll(dn, ops, env), k, Lookup(dn, k), end)
    ensures SameRow(end, Lookup(d0, k))
  {
    CommittedIsMidway(schema, d0, ops, env, dn);
    LabelledNames(schema, d0, ops, env, dn, k);
    if !Names(FinishAll(dn, ops, env), k) {
      UnwrittenIsUnchanged(schema, d0, d0, ops, env, dn, k);
    } else if k in d0 {
      FirstReplacingDeletes(schema, d0, d0, ops, env, dn, k);
    } else if k in dn {
      NewRowWasInserted(schema, d0, d0, ops, env, dn, k);
    }
  }
}
