/** Manager calls as steps of one state machine, each step possibly cut short by a crash. */
module Calls {
  import opened Wrappers
  import opened Rows
  import opened Saga
  import opened Store
  import opened CommitRecord

  datatype Call =
    | Start(id: string, schemaName: string, now: int)
    | Stage(tx: string, stmt: Stmt, before: Option<seq<Row>>, rowIds: Option<seq<Value>>)
    | Commit(tx: string, env: Env, now: int)
    | Rollback(tx: string, now: int)
    | RollbackPost(tx: string, clock: Clock, now: int)
    | Cleanup(now: int)
    | OtherClient(data: Data)

  function CallTrace(schema: Schema, ttl: int, s: State, call: Call): Trace {
    match call
    case Start(id, name, now) => StartTrace(s, id, name, now)
    case Stage(tx, stmt, before, rowIds) => StageTrace(s, tx, stmt, before, rowIds)
    case Commit(tx, env, now) => CommitTrace(schema, s, tx, env, now)
    case Rollback(tx, now) => RollbackTrace(s, tx, now)
    case RollbackPost(tx, clock, now) => PostTrace(schema, s, tx, clock, now)
    case Cleanup(now) => CleanupTrace(s, ttl, now)
    case OtherClient(d) => Trace([s.(data := d)], None)
  }

  /** A call that got as far as its first `stop` durable states. */
  datatype Event = Event(call: Call, stop: nat)

  function After(schema: Schema, ttl: int, s: State, e: Event): State {
    var states := CallTrace(schema, ttl, s, e.call).states;
    Final(s, if e.stop < |states| then states[..e.stop] else states)
  }

  function Run(schema: Schema, ttl: int, s: State, events: seq<Event>): State {
    if events == [] then s
    else After(schema, ttl, Run(schema, ttl, s, events[..|events| - 1]), events[|events| - 1])
  }

  /** What every durable state of the store satisfies. */
  ghost predicate Inv(s: State) {
    && IdsRise(s.ops, s.nextId)
    && (forall tx :: tx in s.txs ==> s.txs[tx].status != Committing)
    && (forall i :: 0 <= i < |s.ops| ==> s.ops[i].tx in s.txs)
  }
}
