/** What a successful commit leaves in the operations table: exactly the finished operations. */
module CommitRecord {
  import opened Wrappers
  import opened Rows
  import opened Saga
  import opened Undo
  import opened Store

  /** The serial ids of the table rise, and the next one is above them all. */
  ghost predicate IdsRise(ops: seq<Op>, nextId: nat) {
    && (forall i, j :: 0 <= i < j < |ops| ==> ops[i].id < ops[j].id)
    && (forall i :: 0 <= i < |ops| ==> ops[i].id < nextId)
  }

  ghost predicate HasId(ops: seq<Op>, id: nat) {
    exists i :: 0 <= i < |ops| && ops[i].id == id
  }

  lemma FirstId(rem: seq<Op>)
    requires rem != [] && forall i, j :: 0 <= i < j < |rem| ==> rem[i].id < rem[j].id
    ensures forall id :: HasId(rem, id) <==> rem[0].id == id || HasId(rem[1..], id)
    ensures !HasId(rem[1..], rem[0].id)
  {
    assert forall i :: 0 <= i < |rem| - 1 ==> rem[1..][i] == rem[i + 1];
    forall id | HasId(rem, id) && rem[0].id != id ensures HasId(rem[1..], id) {
      var i :| 0 <= i < |rem| && rem[i].id == id;
      assert rem[1..][i - 1].id == id;
    }
    forall id | HasId(rem[1..], id) ensures HasId(rem, id) {
      var i :| 0 <= i < |rem[1..]| && rem[1..][i].id == id;
      assert rem[i + 1].id == id;
    }
  }

  /** `rem` lists rows of `ops`, up to what was recorded on them. */
  ghost predicate ListedIn(rem: seq<Op>, ops: seq<Op>) {
    && (forall i, j :: 0 <= i < j < |rem| ==> rem[i].id < rem[j].id)
    && (forall i, j :: 0 <= i < |rem| && 0 <= j < |ops| && rem[i].id == ops[j].id ==>
          rem[i].stmt == ops[j].stmt && rem[i].before == ops[j].before)
  }

  /** `b` is `a` after the row ids of the operations in `rem` were noted. */
  ghost predicate IdsNoted(a: seq<Op>, b: seq<Op>, rem: seq<Op>, env: Env) {
    && |a| == |b|
    && forall i :: 0 <= i < |a| ==> b[i] == if HasId(rem, a[i].id) then NoteId(a[i], env) else a[i]
  }

  ghost predicate StatesNoted(d: Data, a: seq<Op>, b: seq<Op>, rem: seq<Op>, env: Env) {
    && |a| == |b|
    && forall i :: 0 <= i < |a| ==> b[i] == if HasId(rem, a[i].id) then NoteState(d, a[i], env) else a[i]
  }

  lemma IdNoted(a: seq<Op>, mid: seq<Op>, b: seq<Op>, rem: seq<Op>, env: Env)
    requires rem != [] && ListedIn(rem, a)
    requires mid == if rem[0].stmt.Insert? && rem[0].id !in env.lostIds
                    then SetRowIds(a, rem[0].id, [InsertedId(rem[0], env)]) else a
    ensures ListedIn(rem[1..], mid)
    ensures IdsNoted(mid, b, rem[1..], env) ==> IdsNoted(a, b, rem, env)
  {
    FirstId(rem);
    assert forall i :: 0 <= i < |a| && a[i].id == rem[0].id ==> mid[i] == NoteId(a[i], env);
    assert forall i :: 0 <= i < |a| && a[i].id != rem[0].id ==> mid[i] == a[i];
  }

  lemma StateNoted(d: Data, a: seq<Op>, mid: seq<Op>, b: seq<Op>, rem: seq<Op>, env: Env)
    requires rem != [] && ListedIn(rem, a)
    requires mid ==
      var rows := if rem[0].before.None? then [] else CurrentRows(d, rem[0].stmt.table, rem[0].before.value);
      if rows != [] && rem[0].id !in env.lostStates then SetCommitted(a, rem[0].id, rows) else a
    ensures ListedIn(rem[1..], mid)
    ensures StatesNoted(d, mid, b, rem[1..], env) ==> StatesNoted(d, a, b, rem, env)
  {
    FirstId(rem);
    assert forall i :: 0 <= i < |a| && a[i].id == rem[0].id ==> mid[i] == NoteState(d, a[i], env);
    assert forall i :: 0 <= i < |a| && a[i].id != rem[0].id ==> mid[i] == a[i];
  }

  lemma {:induction false} IdsAreNoted(schema: Schema, s: State, target: Data, rem: seq<Op>, env: Env)
    requires ListedIn(rem, s.ops)
    ensures var p := RunOps(schema, s, target, rem, env);
            var fwd := Forward(schema, target, rem, env);
            && (p.target.Ok? <==> fwd.Ok?)
            && (fwd.Err? ==> p.target.fault == fwd.fault)
            && (fwd.Ok? ==> p.target.value == fwd.value.data && IdsNoted(s.ops, Final(s, p.states).ops, rem, env))
    decreases |rem|
  {
    if rem != [] {
      var next := Step(schema, target, rem[0], env);
      if next.Ok? {
        var mid := if rem[0].stmt.Insert? && rem[0].id !in env.lostIds
          then s.(ops := SetRowIds(s.ops, rem[0].id, [InsertedId(rem[0], env)])) else s;
        var rest := RunOps(schema, mid, next.value, rem[1..], env);
        IdNoted(s.ops, mid.ops, Final(mid, rest.states).ops, rem, env);
        IdsAreNoted(schema, mid, next.value, rem[1..], env);
        assert Final(s, RunOps(schema, s, target, rem, env).states) == Final(mid, rest.states);
      }
    }
  }

  lemma {:induction false} StatesAreNoted(s: State, rem: seq<Op>, env: Env)
    requires ListedIn(rem, s.ops)
    ensures StatesNoted(s.data, s.ops, Final(s, NoteOps(s, rem, env)).ops, rem, env)
    decreases |rem|
  {
    if rem != [] {
      var rows := if rem[0].before.None? then [] else CurrentRows(s.data, rem[0].stmt.table, rem[0].before.value);
      var mid := if rows != [] && rem[0].id !in env.lostStates
        then s.(ops := SetCommitted(s.ops, rem[0].id, rows)) else s;
      var rest := NoteOps(mid, rem[1..], env);
      StateNoted(s.data, s.ops, mid.ops, Final(mid, rest).ops, rem, env);
      StatesAreNoted(mid, rem[1..], env);
      assert Final(s, NoteOps(s, rem, env)) == Final(mid, rest);
    }
  }

  lemma {:induction false} OpsOfMembers(ops: seq<Op>, nextId: nat, tx: string)
    requires IdsRise(ops, nextId)
    ensures IdsRise(OpsOf(ops, tx), nextId)
    ensures forall op :: op in OpsOf(ops, tx) <==> op in ops && op.tx == tx
    ensures ListedIn(OpsOf(ops, tx), ops)
    ensures forall i :: 0 <= i < |ops| ==> (HasId(OpsOf(ops, tx), ops[i].id) <==> ops[i].tx == tx)
  {
    OpsOfFiltered(ops, nextId, tx);
    var mine := OpsOf(ops, tx);
    forall i, j | 0 <= i < |mine| && 0 <= j < |ops| && mine[i].id == ops[j].id ensures mine[i] == ops[j] {
      assert mine[i] in ops;
      var m :| 0 <= m < |ops| && ops[m] == mine[i];
    }
    forall i | 0 <= i < |ops| ensures HasId(mine, ops[i].id) <==> ops[i].tx == tx {
      if HasId(mine, ops[i].id) {
        var j :| 0 <= j < |mine| && mine[j].id == ops[i].id;
        assert mine[j] == ops[i] && mine[j] in mine;
      }
      if ops[i].tx == tx {
        assert ops[i] in ops;
        assert ops[i] in mine;
      }
    }
  }

  lemma {:induction false} OpsOfFiltered(ops: seq<Op>, nextId: nat, tx: string)
    requires IdsRise(ops, nextId)
    ensures IdsRise(OpsOf(ops, tx), nextId)
    ensures forall op :: op in OpsOf(ops, tx) <==> op in ops && op.tx == tx
  {
    if ops != [] {
      OpsOfFiltered(ops[1..], nextId, tx);
      var rest := OpsOf(ops[1..], tx);
      assert ops == [ops[0]] + ops[1..];
      forall i | 0 <= i < |rest| ensures ops[0].id < rest[i].id {
        assert rest[i] in ops[1..];
      }
    }
  }

  lemma FinishAllFirst(after: Data, op: Op, ops: seq<Op>, env: Env)
    ensures FinishAll(after, [op] + ops, env) == [Finish(after, op, env)] + FinishAll(after, ops, env)
  {
  }

  /** `b` is `a` with the operations of `tx` finished. */
  ghost predicate TableFinished(a: seq<Op>, b: seq<Op>, tx: string, after: Data, env: Env) {
    && |a| == |b|
    && forall i :: 0 <= i < |a| ==> b[i] == if a[i].tx == tx then Finish(after, a[i], env) else a[i]
  }

  lemma {:induction false} OpsOfFinished(a: seq<Op>, b: seq<Op>, tx: string, after: Data, env: Env)
    requires TableFinished(a, b, tx, after, env)
    ensures OpsOf(b, tx) == FinishAll(after, OpsOf(a, tx), env)
  {
    if a != [] {
      assert TableFinished(a[1..], b[1..], tx, after, env);
      OpsOfFinished(a[1..], b[1..], tx, after, env);
      assert b[0].tx == a[0].tx;
      FinishAllFirst(after, a[0], OpsOf(a[1..], tx), env);
    }
  }

  lemma {:induction false} OthersUnfinished(a: seq<Op>, b: seq<Op>, tx: string, after: Data, env: Env, other: string)
    requires TableFinished(a, b, tx, after, env) && other != tx
    ensures OpsOf(b, other) == OpsOf(a, other)
  {
    if a != [] {
      OthersUnfinished(a[1..], b[1..], tx, after, env, other);
    }
  }

  lemma FinishedIdsRise(a: seq<Op>, b: seq<Op>, tx: string, after: Data, env: Env, nextId: nat)
    requires TableFinished(a, b, tx, after, env) && IdsRise(a, nextId)
    ensures IdsRise(b, nextId)
  {
    assert forall i :: 0 <= i < |a| ==> b[i].id == a[i].id;
  }

  lemma NotedIsListed(a: seq<Op>, b: seq<Op>, rem: seq<Op>, env: Env)
    requires ListedIn(rem, a) && IdsNoted(a, b, rem, env)
    ensures ListedIn(rem, b)
  {
    assert forall i :: 0 <= i < |a| ==> b[i].id == a[i].id && b[i].stmt == a[i].stmt && b[i].before == a[i].before;
  }

  lemma NotedTwiceIsFinished(a: seq<Op>, mid: seq<Op>, b: seq<Op>, nextId: nat, tx: string, after: Data, env: Env)
    requires IdsRise(a, nextId)
    requires IdsNoted(a, mid, OpsOf(a, tx), env) && StatesNoted(after, mid, b, OpsOf(a, tx), env)
    ensures TableFinished(a, b, tx, after, env)
  {
    OpsOfMembers(a, nextId, tx);
    assert forall i :: 0 <= i < |a| ==> mid[i].id == a[i].id;
  }

  lemma RecordsFinish(schema: Schema, s: State, tx: string, env: Env) returns (noted: State)
    requires IdsRise(s.ops, s.nextId)
    requires Forward(schema, s.data, OpsOf(s.ops, tx), env).Ok?
    ensures var mine := OpsOf(s.ops, tx);
            var p := RunOps(schema, s, s.data, mine, env);
            && p.target == Ok(Forward(schema, s.data, mine, env).value.data)
            && TableFinished(s.ops, noted.ops, tx, p.target.value, env)
    ensures var mine := OpsOf(s.ops, tx);
            var p := RunOps(schema, s, s.data, mine, env);
            var applied := Final(s, p.states).(data := p.target.value);
            noted == Final(applied, NoteOps(applied, mine, env))
  {
    var mine := OpsOf(s.ops, tx);
    OpsOfMembers(s.ops, s.nextId, tx);
    IdsAreNoted(schema, s, s.data, mine, env);
    var p := RunOps(schema, s, s.data, mine, env);
    var applied := Final(s, p.states).(data := p.target.value);
    NotedIsListed(s.ops, applied.ops, mine, env);
    StatesAreNoted(applied, mine, env);
    noted := Final(applied, NoteOps(applied, mine, env));
    NotedTwiceIsFinished(s.ops, applied.ops, noted.ops, s.nextId, tx, applied.data, env);
  }

  /** A commit whose forward pass fails changes no business data and no status. */
  lemma CommitFails(schema: Schema, s: State, tx: string, env: Env, now: int)
    requires IdsRise(s.ops, s.nextId) && Has(s, tx, Pending)
    requires Forward(schema, s.data, OpsOf(s.ops, tx), env).Err?
    ensures var t := CommitTrace(schema, s, tx, env, now);
            && t.fault == Some(Forward(schema, s.data, OpsOf(s.ops, tx), env).fault)
            && forall i :: 0 <= i < |t.states| ==> t.states[i].data == s.data && t.states[i].txs == s.txs
  {
    OpsOfMembers(s.ops, s.nextId, tx);
    IdsAreNoted(schema, s, s.data, OpsOf(s.ops, tx), env);
  }

  /**
   A commit whose forward pass succeeds ends with the data of that pass, the status committed, and the
   operations of the transaction finished; the operations of other transactions are as they were.
   */
  lemma CommitSucceeds(schema: Schema, s: State, tx: string, env: Env, now: int)
    requires IdsRise(s.ops, s.nextId) && Has(s, tx, Pending)
    requires Forward(schema, s.data, OpsOf(s.ops, tx), env).Ok?
    ensures var t := CommitTrace(schema, s, tx, env, now);
            var end := Final(s, t.states);
            var mine := OpsOf(s.ops, tx);
            && t.fault.None?
            && end.data == Forward(schema, s.data, mine, env).value.data
            && end.txs == s.txs[tx := s.txs[tx].(status := Committed, updatedAt := now)]
            && end.nextId == s.nextId
            && IdsRise(end.ops, end.nextId)
            && OpsOf(end.ops, tx) == FinishAll(end.data, mine, env)
            && forall other :: other != tx ==> OpsOf(end.ops, other) == OpsOf(s.ops, other)
  {
    var mine := OpsOf(s.ops, tx);
    var after := Forward(schema, s.data, mine, env).value.data;
    var noted := RecordsFinish(schema, s, tx, env);
    assert Final(s, CommitTrace(schema, s, tx, env, now).states) == Publish(noted, Marked(Locked(s, tx), now));
    OpsOfFinished(s.ops, noted.ops, tx, after, env);
    FinishedIdsRise(s.ops, noted.ops, tx, after, env, s.nextId);
    forall other | other != tx ensures OpsOf(noted.ops, other) == OpsOf(s.ops, other) {
      OthersUnfinished(s.ops, noted.ops, tx, after, env, other);
    }
  }
}
