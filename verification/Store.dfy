/**
 The two metadata tables beside the business data, and every Manager call as the sequence of durable states
 it leaves behind. A crash leaves the store in one of them.
 */
module Store {
  import opened Wrappers
  import opened Rows
  import opened Saga

  /** The status column. */
  datatype Status = Pending | Committing | Committed | RolledBack

  /** A row of `rest_transactions`. */
  datatype Tx = Tx(schemaName: string, status: Status, createdAt: int, updatedAt: int)

  datatype State = State(data: Data, txs: map<string, Tx>, ops: seq<Op>, nextId: nat)

  /** The durable states a call goes through, in order, and the fault it reports. */
  datatype Trace = Trace(states: seq<State>, fault: Option<Fault>)

  function Final(s: State, trace: seq<State>): State {
    if trace == [] then s else trace[|trace| - 1]
  }

  /** The operations of one transaction, in table order, which is id order. */
  function OpsOf(ops: seq<Op>, tx: string): seq<Op> {
    if ops == [] then []
    else (if ops[0].tx == tx then [ops[0]] else []) + OpsOf(ops[1..], tx)
  }

  function OthersOf(ops: seq<Op>, tx: string): seq<Op> {
    if ops == [] then []
    else (if ops[0].tx != tx then [ops[0]] else []) + OthersOf(ops[1..], tx)
  }

  predicate Has(s: State, tx: string, status: Status) {
    tx in s.txs && s.txs[tx].status == status
  }

  function SetStatus(s: State, tx: string, status: Status, now: int): State
    requires tx in s.txs
  {
    s.(txs := s.txs[tx := s.txs[tx].(status := status, updatedAt := now)])
  }

  // ----- single-statement calls

  function StartTrace(s: State, id: string, schemaName: string, now: int): Trace {
    if id in s.txs then Trace([], Some(DuplicateTransaction))
    else Trace([s.(txs := s.txs[id := Tx(schemaName, Pending, now, now)])], None)
  }

  function StageTrace(s: State, tx: string, stmt: Stmt, before: Option<seq<Row>>, rowIds: Option<seq<Value>>): Trace {
    if !Has(s, tx, Pending) then Trace([], Some(WrongStatus))
    else Trace([s.(ops := s.ops + [Op(s.nextId, tx, stmt, before, None, rowIds)], nextId := s.nextId + 1)], None)
  }

  predicate Expired(t: Tx, cutoff: int) {
    (t.status == Pending && t.createdAt < cutoff) || (t.status == Committed && t.updatedAt < cutoff)
  }

  /** The sweep, with the cascade of the foreign key on the operations. */
  function KeepOps(ops: seq<Op>, txs: map<string, Tx>): seq<Op> {
    if ops == [] then []
    else (if ops[0].tx in txs then [ops[0]] else []) + KeepOps(ops[1..], txs)
  }

  function CleanupTrace(s: State, ttl: int, now: int): Trace {
    var txs := map tx | tx in s.txs && !Expired(s.txs[tx], now - ttl) :: s.txs[tx];
    Trace([s.(txs := txs, ops := KeepOps(s.ops, txs))], None)
  }

  function RollbackTrace(s: State, tx: string, now: int): Trace {
    if !Has(s, tx, Pending) then Trace([], Some(WrongStatus))
    else
      var deleted := s.(ops := OthersOf(s.ops, tx));
      Trace([deleted, SetStatus(deleted, tx, RolledBack, now)], None)
  }

  // ----- commit

  /** The row of `rest_transactions` that a commit has locked, as only its own lock transaction sees it. */
  datatype Lock = Free | Held(tx: string, row: Tx)

  /** A moment of a running commit: what everybody sees, and the lock transaction's own write. */
  datatype Moment = Moment(store: State, lock: Lock)

  function Locked(s: State, tx: string): (lock: Lock)
    requires tx in s.txs
    ensures lock.Held?
  {
    Held(tx, s.txs[tx].(status := Committing))
  }

  function Marked(lock: Lock, now: int): (marked: Lock)
    requires lock.Held?
    ensures marked.Held? && marked.tx == lock.tx
  {
    lock.(row := lock.row.(status := Committed, updatedAt := now))
  }

  /** The lock transaction commits, and its row is the durable one. */
  function Publish(s: State, lock: Lock): State
    requires lock.Held?
  {
    s.(txs := s.txs[lock.tx := lock.row])
  }

  function SetRowIds(ops: seq<Op>, id: nat, ids: seq<Value>): (r: seq<Op>)
    ensures |r| == |ops|
  {
    seq(|ops|, i requires 0 <= i < |ops| => if ops[i].id == id then ops[i].(rowIds := Some(ids)) else ops[i])
  }

  function SetCommitted(ops: seq<Op>, id: nat, rows: seq<Row>): (r: seq<Op>)
    ensures |r| == |ops|
  {
    seq(|ops|, i requires 0 <= i < |ops| => if ops[i].id == id then ops[i].(committed := Some(rows)) else ops[i])
  }

  /** The loop over the staged operations: the durable writes of row ids, and the target transaction's data. */
  datatype Progress = Progress(states: seq<State>, target: Result<Data, Fault>)

  function RunOps(schema: Schema, s: State, target: Data, rem: seq<Op>, env: Env): (p: Progress)
    decreases |rem|
    ensures forall i :: 0 <= i < |p.states| ==>
              p.states[i].data == s.data && p.states[i].txs == s.txs && p.states[i].nextId == s.nextId
  {
    if rem == [] then Progress([], Ok(target))
    else
      var next := Step(schema, target, rem[0], env);
      if next.Err? then Progress([], next)
      else if rem[0].stmt.Insert? && rem[0].id !in env.lostIds then
        var noted := s.(ops := SetRowIds(s.ops, rem[0].id, [InsertedId(rem[0], env)]));
        var rest := RunOps(schema, noted, next.value, rem[1..], env);
        Progress([noted] + rest.states, rest.target)
      else RunOps(schema, s, next.value, rem[1..], env)
  }

  /** The loop that records the committed states. */
  function NoteOps(s: State, rem: seq<Op>, env: Env): (states: seq<State>)
    decreases |rem|
    ensures forall i :: 0 <= i < |states| ==>
              states[i].data == s.data && states[i].txs == s.txs && states[i].nextId == s.nextId
  {
    if rem == [] then []
    else if rem[0].before.None? then NoteOps(s, rem[1..], env)
    else
      var rows := CurrentRows(s.data, rem[0].stmt.table, rem[0].before.value);
      if rows == [] || rem[0].id in env.lostStates then NoteOps(s, rem[1..], env)
      else
        var noted := s.(ops := SetCommitted(s.ops, rem[0].id, rows));
        [noted] + NoteOps(noted, rem[1..], env)
  }

  function CommitTrace(schema: Schema, s: State, tx: string, env: Env, now: int): Trace {
    if !Has(s, tx, Pending) then Trace([], Some(WrongStatus))
    else
      var ops := OpsOf(s.ops, tx);
      var p := RunOps(schema, s, s.data, ops, env);
      if p.target.Err? then Trace(p.states, Some(p.target.fault))
      else
        var applied := Final(s, p.states).(data := p.target.value);
        var notes := NoteOps(applied, ops, env);
        var noted := Final(applied, notes);
        Trace(p.states + [applied] + notes + [Publish(noted, Marked(Locked(s, tx), now))], None)
  }

  /** The same lock over a sequence of durable states. */
  function Under(lock: Lock, states: seq<State>): (ms: seq<Moment>)
    ensures |ms| == |states| && forall i :: 0 <= i < |ms| ==> ms[i] == Moment(states[i], lock)
  {
    seq(|states|, i requires 0 <= i < |states| => Moment(states[i], lock))
  }

  /** A commit from the lock to its release. An error rolls the lock transaction back, its write unseen. */
  function CommitMoments(schema: Schema, s: State, tx: string, env: Env, now: int): seq<Moment> {
    if !Has(s, tx, Pending) then []
    else
      var lock := Locked(s, tx);
      var ops := OpsOf(s.ops, tx);
      var p := RunOps(schema, s, s.data, ops, env);
      var begun := [Moment(s, lock)] + Under(lock, p.states);
      if p.target.Err? then begun + [Moment(Final(s, p.states), Free)]
      else
        var applied := Final(s, p.states).(data := p.target.value);
        var notes := NoteOps(applied, ops, env);
        var noted := Final(applied, notes);
        begun + [Moment(applied, lock)] + Under(lock, notes)
        + [Moment(noted, Marked(lock, now)), Moment(Publish(noted, Marked(lock, now)), Free)]
  }

  // ----- rollback after commit

  function PostTrace(schema: Schema, s: State, tx: string, clock: Clock, now: int): Trace {
    if !Has(s, tx, Committed) then Trace([], Some(WrongStatus))
    else
      var undone := UndoAll(schema, s.data, OpsOf(s.ops, tx), clock);
      if undone.Err? then Trace([], Some(undone.fault))
      else
        var restored := s.(data := undone.value);
        Trace([restored, SetStatus(restored, tx, RolledBack, now)], None)
  }
}
