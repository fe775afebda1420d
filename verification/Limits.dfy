/**
 Where undo stops working: a request that rewrites the id, one whose snapshot misses the written row, a write by
 another client that the conflict check cannot see, records that were lost, and rows without a snapshot.
 */
module Limits {
  import opened Wrappers
  import opened Rows
  import opened Saga
  import opened RowUndo
  import opened Undo

  /** A transaction of one UPDATE on an existing row, committed; its outcome may not have been recorded. */
  ghost predicate OneUpdate(schema: Schema, d0: Data, op: Op, env: Env, dn: Data, k: Key) {
    && ValidData(schema, d0) && k in d0
    && op.stmt.Update? && op.stmt.table == k.table && op.stmt.id == Some(k.id)
    && op.committed.None?
    && Step(schema, d0, op, env) == Ok(dn)
  }

  /** The recorded UPDATE, and its rollback as the compensation of one row. */
  lemma OneUndo(schema: Schema, d0: Data, op: Op, env: Env, dn: Data, k: Key, clock: Clock)
    requires OneUpdate(schema, d0, op, env, dn, k) && op.before == SnapshotOf(d0, k)
    requires exists c :: c in schema[k.table] && c != ID
    ensures var done := Finish(dn, op, env);
            && ValidData(schema, dn) && Simple(schema, done) && KeyOf(done) == k && done.id == op.id
            && done.stmt == op.stmt && done.before == Some([d0[k]])
            && done.committed == (if k in dn && op.id !in env.lostStates then Some([dn[k]]) else None)
            && UndoAll(schema, dn, [done], clock) == UndoOp(schema, dn, done, clock)
    ensures Restoring(d0[k], Now(clock, op.id)) != map[]
  {
    hide UndoOp;
    var done := Finish(dn, op, env);
    assert CurrentRows(dn, k.table, op.before.value[1..]) == [];
    assert CurrentRows(dn, k.table, op.before.value) == if k in dn then [dn[k]] else [];
    assert UndoAll(schema, dn, [done][1..], clock) == Ok(dn);
    ExecKeepsValid(schema, d0, op.stmt, map[]);
    var c :| c in schema[k.table] && c != ID;
    assert c in Restoring(d0[k], Now(clock, op.id));
  }

  lemma MovedIdIsLost(schema: Schema, d0: Data, op: Op, env: Env, dn: Data, k: Key, clock: Clock)
    requires OneUpdate(schema, d0, op, env, dn, k) && op.before == SnapshotOf(d0, k)
    requires exists c :: c in schema[k.table] && c != ID
    requires ID in op.stmt.sets && op.stmt.sets[ID] != k.id
    ensures var end := UndoAll(schema, dn, [Finish(dn, op, env)], clock);
            end.Ok? && !SameRow(Lookup(end.value, k), Lookup(d0, k))
  {
    assert k !in dn;
    OneUndo(schema, d0, op, env, dn, k, clock);
    UndoOneRow(schema, dn, Finish(dn, op, env), clock);
    hide UndoOp;
    hide UndoAll;
    hide Finish;
    hide ValidData;
    hide Simple;
    hide Restoring;
  }

  /** The compensation of a row that still looks as the commit left it. */
  lemma RowComesBack(schema: Schema, was: Row, cur: Row, done: Op, now: Value)
    requires Simple(schema, done) && done.stmt.Update? && done.before == Some([was])
    requires done.committed == None || done.committed == Some([cur])
    requires Restoring(was, now) != map[] && cur.Keys == was.Keys && (ID in was ==> cur[ID] == was[ID])
    ensures var row := UndoRow(schema, Some(cur), done, now);
            row.Ok? && SameRow(row.value, Some(was))
  {
    hide Simple;
  }

  lemma KeptIdIsRestored(schema: Schema, d0: Data, op: Op, env: Env, dn: Data, k: Key, clock: Clock)
    requires OneUpdate(schema, d0, op, env, dn, k) && op.before == SnapshotOf(d0, k)
    requires exists c :: c in schema[k.table] && c != ID
    requires ID in op.stmt.sets ==> op.stmt.sets[ID] == k.id
    ensures var end := UndoAll(schema, dn, [Finish(dn, op, env)], clock);
            end.Ok? && forall j :: SameRow(Lookup(end.value, j), Lookup(d0, j))
  {
    assert dn == d0[k := d0[k] + op.stmt.sets];
    assert d0[k].Keys == dn[k].Keys && dn[k][ID] == d0[k][ID];
    OneUndo(schema, d0, op, env, dn, k, clock);
    var done := Finish(dn, op, env);
    UndoOneRow(schema, dn, done, clock);
    RowComesBack(schema, d0[k], dn[k], done, Now(clock, op.id));
    hide UndoRow;
    hide UndoOp;
    hide UndoAll;
    hide Finish;
    hide ValidData;
    hide Simple;
    hide Restoring;
    hide OneUpdate;
  }

  /**
   With a snapshot of the row, commit and rollback with nothing in between restore the data exactly when the
   UPDATE does not give the row another id. When it does, the rollback still reports success.
   */
  lemma RestoredIffIdKept(schema: Schema, d0: Data, op: Op, env: Env, dn: Data, k: Key, clock: Clock)
    requires OneUpdate(schema, d0, op, env, dn, k) && op.before == SnapshotOf(d0, k)
    requires exists c :: c in schema[k.table] && c != ID
    ensures var end := UndoAll(schema, dn, [Finish(dn, op, env)], clock);
            && end.Ok?
            && ((forall j :: SameRow(Lookup(end.value, j), Lookup(d0, j))) <==>
                (ID in op.stmt.sets ==> op.stmt.sets[ID] == k.id))
  {
    hide UndoAll;
    hide Finish;
    hide SameRow;
    hide ValidData;
    if ID in op.stmt.sets && op.stmt.sets[ID] != k.id {
      MovedIdIsLost(schema, d0, op, env, dn, k, clock);
    } else {
      KeptIdIsRestored(schema, d0, op, env, dn, k, clock);
    }
  }

  /**
   Without a snapshot (the request's conditions missed the row, or it had none) the rollback reports success
   and leaves the data as the commit left it, so it restores exactly when the UPDATE changed nothing.
   */
  lemma UncoveredIsNotUndone(schema: Schema, d0: Data, op: Op, env: Env, dn: Data, k: Key, clock: Clock)
    requires OneUpdate(schema, d0, op, env, dn, k) && op.before.None? && ID !in op.stmt.sets
    ensures var end := UndoAll(schema, dn, [Finish(dn, op, env)], clock);
            && end == Ok(dn)
            && ((forall j :: SameRow(Lookup(end.value, j), Lookup(d0, j))) <==> SameButStamp(dn[k], d0[k]))
  {
    var done := Finish(dn, op, env);
    assert UndoAll(schema, dn, [done][1..], clock) == Ok(dn);
    assert dn == d0[k := d0[k] + op.stmt.sets];
    assert SameRow(Lookup(dn, k), Lookup(d0, k)) <==> SameButStamp(dn[k], d0[k]);
  }

  // ----- a write that the conflict check cannot see

  /**
   The UPDATE left NULL in a column, and another client has written the text `<nil>` there. The rollback reports
   success and overwrites that write.
   */
  lemma NilWriteIsLost(schema: Schema, d0: Data, op: Op, env: Env, dn: Data, k: Key, c: string, clock: Clock)
    requires OneUpdate(schema, d0, op, env, dn, k) && op.before == SnapshotOf(d0, k) && ID !in op.stmt.sets
    requires c in dn[k] && c != ID && c != UPDATED_AT && dn[k][c] == Null
    ensures var found := dn[k := dn[k][c := Text("<nil>")]];
            var end := UndoAll(schema, found, [Finish(dn, op, env)], clock);
            && ValidData(schema, found)
            && end.Ok? && SameRow(Lookup(end.value, k), Lookup(d0, k))
  {
    hide Now;
    var found := dn[k := dn[k][c := Text("<nil>")]];
    var done := Finish(dn, op, env);
    assert c in schema[k.table];
    OneUndo(schema, d0, op, env, dn, k, clock);
    assert UndoAll(schema, found, [done][1..], clock) == Ok(found);
    UndoOneRow(schema, found, done, clock);
    assert d0[k].Keys == dn[k].Keys && dn[k][ID] == d0[k][ID];
    UnseenRowComesBack(schema, d0[k], dn[k], found[k], done, Now(clock, op.id));
  }

  lemma UnseenRowComesBack(schema: Schema, was: Row, left: Row, cur: Row, done: Op, now: Value)
    requires Simple(schema, done) && done.stmt.Update? && done.before == Some([was])
    requires done.committed == None || done.committed == Some([left])
    requires LooksLike(cur, left) && Restoring(was, now) != map[]
    requires cur.Keys == was.Keys && (ID in was ==> cur[ID] == was[ID])
    ensures var row := UndoRow(schema, Some(cur), done, now);
            row.Ok? && SameRow(row.value, Some(was))
  {
    hide Simple;
  }

  // ----- records that the commit lost

  /**
   The outcome of the UPDATE was not recorded. Whatever other clients have done to the row since, the rollback
   reports success: it overwrites any change, and a row that was deleted stays deleted.
   */
  lemma LostStateIsNotChecked(schema: Schema, d0: Data, op: Op, env: Env, dn: Data, k: Key, found: Data, clock: Clock)
    requires OneUpdate(schema, d0, op, env, dn, k) && op.before == SnapshotOf(d0, k) && op.id in env.lostStates
    requires (exists c :: c in schema[k.table] && c != ID) && ValidData(schema, found)
    ensures var end := UndoAll(schema, found, [Finish(dn, op, env)], clock);
            && end.Ok?
            && (SameRow(Lookup(end.value, k), Lookup(d0, k)) <==> k in found)
            && (k !in found ==> k !in end.value)
  {
    var done := Finish(dn, op, env);
    OneUndo(schema, d0, op, env, dn, k, clock);
    assert UndoAll(schema, found, [done][1..], clock) == Ok(found);
    UndoOneRow(schema, found, done, clock);
    assert done.committed.None?;
    if k in found {
      assert ValidRow(schema, k, found[k]) && ValidRow(schema, k, d0[k]);
      RowComesBack(schema, d0[k], found[k], done, Now(clock, op.id));
    }
  }

  /** The row id of an INSERT was not recorded: no rollback of the transaction ever succeeds. */
  lemma LostIdIsFatal(schema: Schema, d: Data, after: Data, ops: seq<Op>, env: Env, i: nat, clock: Clock)
    requires i < |ops| && ops[i].stmt.Insert? && ops[i].before.None? && ops[i].rowIds.None? && ops[i].id in env.lostIds
    ensures UndoAll(schema, d, FinishAll(after, ops, env), clock).Err?
  {
    LostIdRefuses(schema, d, FinishAll(after, ops, env), i, clock);
  }

  /** A table of one row, whose column `v` is given. */
  function OneRowTable(v: Value): Data {
    map[Key("t", Number(1)) := map[ID := Number(1), "v" := v]]
  }

  function SetV(was: Data, v: Value): Op {
    Op(1, "tx", Update("t", map["v" := v], Some(Number(1))), SnapshotOf(was, Key("t", Number(1))), None, None)
  }

  lemma SetVRuns(schema: Schema, was: Value, v: Value, env: Env)
    requires schema == map["t" := {ID, "v"}]
    ensures OneUpdate(schema, OneRowTable(was), SetV(OneRowTable(was), v), env, OneRowTable(v), Key("t", Number(1)))
    ensures Committed(schema, OneRowTable(was), [SetV(OneRowTable(was), v)], env, OneRowTable(v))
  {
    var k := Key("t", Number(1));
    var d0, dn, op := OneRowTable(was), OneRowTable(v), SetV(OneRowTable(was), v);
    assert ID != "v";
    assert op.stmt.sets.Keys == {"v"};
    assert d0[k] + op.stmt.sets == dn[k];
    assert (d0 - {k})[k := dn[k]] == dn;
    assert Exec(schema, d0, op.stmt, env.Defaults(1)) == Ok(dn);
    assert [op][1..] == [];
    assert Forward(schema, dn, [], env) == Ok(Applied(dn, []));
  }

  /** One such run: `old` is set to NULL, another client writes `<nil>`, and the rollback puts `old` back. */
  lemma NilWriteExample(schema: Schema, clock: Clock)
    requires schema == map["t" := {ID, "v"}]
    ensures var d0, dn, found := OneRowTable(Text("old")), OneRowTable(Null), OneRowTable(Text("<nil>"));
            var ops, env := [SetV(d0, Null)], Env(map[], {}, {});
            && Committed(schema, d0, ops, env, dn)
            && UndoAll(schema, found, FinishAll(dn, ops, env), clock) == Ok(d0)
  {
    hide UndoAll;
    hide SnapshotOf;
    var k := Key("t", Number(1));
    var d0, dn, found := OneRowTable(Text("old")), OneRowTable(Null), OneRowTable(Text("<nil>"));
    var op, env := SetV(d0, Null), Env(map[], {}, {});
    SetVRuns(schema, Text("old"), Null, env);
    assert found[k] == dn[k]["v" := Text("<nil>")];
    assert found == dn[k := dn[k]["v" := Text("<nil>")]];
    NilWriteIsLost(schema, d0, op, env, dn, k, "v", clock);
    assert FinishAll(dn, [op], env) == [Finish(dn, op, env)];
    OneUndo(schema, d0, op, env, dn, k, clock);
    OnlyRow(schema, found, Finish(dn, op, env), k, clock);
    var end := UndoAll(schema, found, [Finish(dn, op, env)], clock).value;
    assert "v" != UPDATED_AT && ID != UPDATED_AT;
    assert end[k] == d0[k];
    assert end.Keys == found.Keys == d0.Keys;
    assert end == d0;
  }

  /**
   One run with a lost record: `old` is set to `new`, another client writes `theirs`, and the rollback puts `old` back
   without a word. Had the other client deleted the row, it would stay deleted.
   */
  lemma LostStateExample(schema: Schema, clock: Clock)
    requires schema == map["t" := {ID, "v"}]
    ensures var d0, dn, theirs := OneRowTable(Text("old")), OneRowTable(Text("new")), OneRowTable(Text("theirs"));
            var ops, env := [SetV(d0, Text("new"))], Env(map[], {}, {1});
            && Committed(schema, d0, ops, env, dn)
            && UndoAll(schema, theirs, FinishAll(dn, ops, env), clock) == Ok(d0)
            && UndoAll(schema, map[], FinishAll(dn, ops, env), clock) == Ok(map[])
  {
    var k := Key("t", Number(1));
    var d0, dn, theirs := OneRowTable(Text("old")), OneRowTable(Text("new")), OneRowTable(Text("theirs"));
    var op, env := SetV(d0, Text("new")), Env(map[], {}, {1});
    hide UndoAll;
    SetVRuns(schema, Text("old"), Text("new"), env);
    assert "v" in schema[k.table] && "v" != ID;
    assert FinishAll(dn, [op], env) == [Finish(dn, op, env)];
    OneUndo(schema, d0, op, env, dn, k, clock);
    LostStateIsNotChecked(schema, d0, op, env, dn, k, theirs, clock);
    LostStateIsNotChecked(schema, d0, op, env, dn, k, map[], clock);
    OnlyRow(schema, theirs, Finish(dn, op, env), k, clock);
    OnlyRow(schema, map[], Finish(dn, op, env), k, clock);
    SameIsEqual(UndoAll(schema, theirs, [Finish(dn, op, env)], clock).value, Text("old"));
    assert UndoAll(schema, map[], [Finish(dn, op, env)], clock).value == map[];
  }

  lemma SameIsEqual(d: Data, v: Value)
    requires d.Keys == {Key("t", Number(1))}
    requires SameRow(Lookup(d, Key("t", Number(1))), Lookup(OneRowTable(v), Key("t", Number(1))))
    ensures d == OneRowTable(v)
  {
    assert "v" != UPDATED_AT && ID != UPDATED_AT;
    assert d[Key("t", Number(1))] == OneRowTable(v)[Key("t", Number(1))];
  }

  // ----- a row that the transaction inserted

  /**
   One run: the transaction inserts a row, another client changes it, and the rollback deletes the row, change and
   all. There is no snapshot to compare it with.
   */
  lemma InsertedRowExample(schema: Schema, clock: Clock)
    requires schema == map["t" := {ID, "v"}]
    ensures var op := Op(1, "tx", Insert("t", map[ID := Number(1), "v" := Text("new")]), None, None, None);
            var env, dn, theirs := Env(map[], {}, {}), OneRowTable(Text("new")), OneRowTable(Text("theirs"));
            && Committed(schema, map[], [op], env, dn)
            && UndoAll(schema, theirs, FinishAll(dn, [op], env), clock) == Ok(map[])
  {
    var k := Key("t", Number(1));
    var op := Op(1, "tx", Insert("t", map[ID := Number(1), "v" := Text("new")]), None, None, None);
    var env, dn, theirs := Env(map[], {}, {}), OneRowTable(Text("new")), OneRowTable(Text("theirs"));
    assert ID != "v";
    assert InsertedRow(op.stmt.values, map[]) == op.stmt.values;
    assert op.stmt.values.Keys == {ID, "v"};
    assert Exec(schema, map[], op.stmt, map[]) == Ok(dn);
    assert [op][1..] == [];
    assert Forward(schema, dn, [], env) == Ok(Applied(dn, []));
    var done := op.(rowIds := Some([Number(1)]));
    assert FinishAll(dn, [op], env) == [done];
    assert [done][1..] == [] && UndoAll(schema, theirs, [], clock) == Ok(theirs);
    assert theirs - {k} == map[];
    assert [Number(1)][1..] == [] && DeleteAll(schema, map[], "t", []) == Ok(map[]);
    assert Exec(schema, theirs, Delete("t", Some(Number(1))), map[]) == Ok(map[]);
    assert DeleteAll(schema, theirs, "t", [Number(1)]) == Ok(map[]);
  }

  /** Undoing an UPDATE adds and removes no row. */
  lemma OnlyRow(schema: Schema, d: Data, done: Op, k: Key, clock: Clock)
    requires ValidData(schema, d) && Simple(schema, done) && KeyOf(done) == k && done.stmt.Update?
    requires UndoAll(schema, d, [done], clock).Ok?
    ensures UndoAll(schema, d, [done], clock).value.Keys == d.Keys
  {
    assert UndoAll(schema, d, [done][1..], clock) == Ok(d);
    UndoOneRow(schema, d, done, clock);
    var end := UndoAll(schema, d, [done], clock).value;
    forall j ensures j in end <==> j in d {
      if j != k {
        assert Lookup(end, j) == Lookup(d, j);
      }
    }
  }
}
