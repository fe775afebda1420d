/**
 The serial meaning of a run. A ledger that keeps only business data and the statements staged by each open
 transaction gives the same data as the manager: committed transactions in commit order, nothing else.
 */
module Serial {
  import opened Wrappers
  import opened Rows
  import opened Saga
  import opened Store
  import opened CommitRecord
  import opened Calls
  import opened Lifecycle

  /** A staged statement with the serial id it was given. */
  datatype Planned = Planned(id: nat, stmt: Stmt)

  function Plan(ops: seq<Op>): (plan: seq<Planned>)
    ensures |plan| == |ops|
  {
    seq(|ops|, i requires 0 <= i < |ops| => Planned(ops[i].id, ops[i].stmt))
  }

  /** All statements of a transaction, one after the other, or nothing. */
  function Apply(schema: Schema, d: Data, plan: seq<Planned>, env: Env): Result<Data, Fault> {
    if plan == [] then Ok(d)
    else
      var earlier :- Apply(schema, d, plan[..|plan| - 1], env);
      var p := plan[|plan| - 1];
      Step(schema, earlier, Op(p.id, "", p.stmt, None, None, None), env)
  }

  /** A call as the client saw it: accepted or not. */
  datatype Entry = Entry(call: Call, accepted: bool, nextId: nat)

  /** The state and the client's log after a run of complete calls. */
  function Play(schema: Schema, ttl: int, s: State, calls: seq<Call>): (State, seq<Entry>) {
    if calls == [] then (s, [])
    else
      var (before, log) := Play(schema, ttl, s, calls[..|calls| - 1]);
      var call := calls[|calls| - 1];
      var t := CallTrace(schema, ttl, before, call);
      (Final(before, t.states), log + [Entry(call, t.fault.None?, before.nextId)])
  }

  /** What the accepted calls of the log staged under `tx`, in the order they were staged. */
  function StagedBy(log: seq<Entry>, tx: string): seq<Planned> {
    if log == [] then []
    else
      var earlier := StagedBy(log[..|log| - 1], tx);
      var e := log[|log| - 1];
      if !e.accepted then earlier
      else if e.call.Start? && e.call.id == tx then []
      else if e.call.Stage? && e.call.tx == tx then earlier + [Planned(e.nextId, e.call.stmt)]
      else earlier
  }

  /** The data a serial database would hold: each accepted commit applies its transaction's statements. */
  function SerialData(schema: Schema, d: Data, log: seq<Entry>): Data {
    if log == [] then d
    else
      var earlier := SerialData(schema, d, log[..|log| - 1]);
      var e := log[|log| - 1];
      if !(e.accepted && e.call.Commit?) then earlier
      else
        var r := Apply(schema, earlier, StagedBy(log[..|log| - 1], e.call.tx), e.call.env);
        if r.Ok? then r.value else earlier
  }

  lemma {:induction false} ApplyAppend(schema: Schema, d: Data, first: Planned, plan: seq<Planned>, env: Env)
    ensures Apply(schema, d, [first] + plan, env) ==
            var next := Step(schema, d, Op(first.id, "", first.stmt, None, None, None), env);
            if next.Err? then next else Apply(schema, next.value, plan, env)
  {
    var all := [first] + plan;
    if plan == [] {
      assert all[..0] == [];
      assert Apply(schema, d, all[..0], env) == Ok(d);
      assert all == [first];
    } else {
      assert all[..|all| - 1] == [first] + plan[..|plan| - 1];
      ApplyAppend(schema, d, first, plan[..|plan| - 1], env);
    }
  }

  /** A step runs its statement; a row it inserts must have a number for its id. */
  lemma StepRunsStatement(schema: Schema, d: Data, op: Op, env: Env)
    ensures var step, run := Step(schema, d, op, env), Exec(schema, d, op.stmt, env.Defaults(op.id));
            && (step.Ok? ==> step == run)
            && (step.Ok? <==>
                  run.Ok? && (op.stmt.Insert? ==> forall k :: k in run.value && k !in d ==> k.id.Number?))
  {
    if op.stmt.Insert? && Exec(schema, d, op.stmt, env.Defaults(op.id)).Ok? {
      var k := InsertStores(schema, d, op.stmt.table, op.stmt.values, env.Defaults(op.id));
      assert k.id == InsertedId(op, env);
    }
  }

  /** The forward pass computes the serial application of the plan. */
  lemma {:induction false} ForwardApplies(schema: Schema, d: Data, ops: seq<Op>, env: Env)
    ensures var fwd := Forward(schema, d, ops, env);
            Apply(schema, d, Plan(ops), env) == if fwd.Ok? then Ok(fwd.value.data) else Err(fwd.fault)
    decreases |ops|
  {
    if ops != [] {
      assert Plan(ops) == [Planned(ops[0].id, ops[0].stmt)] + Plan(ops[1..]);
      ApplyAppend(schema, d, Planned(ops[0].id, ops[0].stmt), Plan(ops[1..]), env);
      var next := Step(schema, d, ops[0], env);
      assert next == Step(schema, d, Op(ops[0].id, "", ops[0].stmt, None, None, None), env);
      if next.Ok? {
        ForwardApplies(schema, next.value, ops[1..], env);
      }
    }
  }

  lemma PlanOfAppend(ops: seq<Op>, op: Op)
    ensures Plan(ops + [op]) == Plan(ops) + [Planned(op.id, op.stmt)]
  {
  }

  /** Recording on a table changes no plan. */
  lemma {:induction false} RecordedPlan(a: seq<Op>, b: seq<Op>, owner: string, tx: string)
    requires RecordedOn(a, b, owner)
    ensures Plan(OpsOf(b, tx)) == Plan(OpsOf(a, tx))
  {
    if a != [] {
      assert RecordedOn(a[1..], b[1..], owner);
      RecordedPlan(a[1..], b[1..], owner, tx);
      var ra, rb := OpsOf(a[1..], tx), OpsOf(b[1..], tx);
      if a[0].tx == tx {
        assert Plan([a[0]] + ra) == [Planned(a[0].id, a[0].stmt)] + Plan(ra);
        assert Plan([b[0]] + rb) == [Planned(b[0].id, b[0].stmt)] + Plan(rb);
      } else {
        assert OpsOf(a, tx) == ra && OpsOf(b, tx) == rb;
      }
    }
  }

  lemma {:induction false} UnstoredHasNoOps(ops: seq<Op>, tx: string)
    requires forall i :: 0 <= i < |ops| ==> ops[i].tx != tx
    ensures OpsOf(ops, tx) == []
  {
    if ops != [] {
      UnstoredHasNoOps(ops[1..], tx);
    }
  }

  /** How one call changes the plan of a transaction that is pending afterwards. */
  lemma PlanAfterCall(schema: Schema, ttl: int, s: State, call: Call, tx: string)
    requires Inv(s) && Has(Final(s, CallTrace(schema, ttl, s, call).states), tx, Pending)
    ensures var t := CallTrace(schema, ttl, s, call);
            var before, after := Plan(OpsOf(s.ops, tx)), Plan(OpsOf(Final(s, t.states).ops, tx));
            if t.fault.None? && call.Start? && call.id == tx then after == []
            else
              && Has(s, tx, Pending)
              && after == before +
                   if t.fault.None? && call.Stage? && call.tx == tx then [Planned(s.nextId, call.stmt)] else []
  {
    hide OpsOf;
    hide CommitTrace;
    var t := CallTrace(schema, ttl, s, call);
    var end := Final(s, t.states);
    match call
    case Start(id, _, _) =>
      if t.fault.None? && id == tx {
        UnstoredHasNoOps(s.ops, tx);
      }
    case Stage(other, stmt, before, rowIds) =>
      if t.fault.None? {
        var op := Op(s.nextId, other, stmt, before, None, rowIds);
        OpsOfAppend(s.ops, op, tx);
        PlanOfAppend(OpsOf(s.ops, tx), op);
      }
    case Commit(other, env, now) =>
      if t.states != [] {
        CommitStates(schema, s, other, env, now, |t.states| - 1);
        RecordedPlan(s.ops, end.ops, other, tx);
      }
    case Rollback(other, _) =>
      if t.fault.None? {
        OthersOfOps(s.ops, other, tx);
      }
    case Cleanup(_) =>
      KeepOpsOps(s.ops, end.txs, tx);
    case _ =>
  }

  lemma {:induction false} PlayedPlans(schema: Schema, ttl: int, s: State, calls: seq<Call>)
    requires Inv(s) && s.txs == map[]
    ensures var (end, log) := Play(schema, ttl, s, calls);
            && Inv(end)
            && forall tx :: Has(end, tx, Pending) ==> Plan(OpsOf(end.ops, tx)) == StagedBy(log, tx)
  {
    if calls != [] {
      var n := |calls| - 1;
      PlayedPlans(schema, ttl, s, calls[..n]);
      var (before, log0) := Play(schema, ttl, s, calls[..n]);
      var (end, log) := Play(schema, ttl, s, calls);
      var t := CallTrace(schema, ttl, before, calls[n]);
      assert After(schema, ttl, before, Event(calls[n], |t.states|)) == end;
      EventIsLawful(schema, ttl, before, Event(calls[n], |t.states|));
      assert log[..|log| - 1] == log0;
      forall tx | Has(end, tx, Pending) ensures Plan(OpsOf(end.ops, tx)) == StagedBy(log, tx) {
        PlanAfterCall(schema, ttl, before, calls[n], tx);
      }
    }
  }

  /** No call of the run undoes a commit or writes the business data behind the manager's back. */
  ghost predicate OnlyForward(calls: seq<Call>) {
    forall i :: 0 <= i < |calls| ==> !calls[i].RollbackPost? && !calls[i].OtherClient?
  }

  /** One complete call keeps the data serial, and an accepted commit applies its plan. */
  lemma CallIsSerial(schema: Schema, ttl: int, s: State, call: Call, log: seq<Entry>, d: Data)
    requires Inv(s) && !call.RollbackPost? && !call.OtherClient? && s.data == SerialData(schema, d, log)
    requires call.Commit? && Has(s, call.tx, Pending) ==> Plan(OpsOf(s.ops, call.tx)) == StagedBy(log, call.tx)
    ensures var t := CallTrace(schema, ttl, s, call);
            && Final(s, t.states).data == SerialData(schema, d, log + [Entry(call, t.fault.None?, s.nextId)])
            && (call.Commit? && t.fault.None? ==> Apply(schema, s.data, StagedBy(log, call.tx), call.env).Ok?)
  {
    hide Apply;
    hide Plan;
    hide StagedBy;
    var t := CallTrace(schema, ttl, s, call);
    var longer := log + [Entry(call, t.fault.None?, s.nextId)];
    assert longer[..|longer| - 1] == log;
    if call.Commit? && Has(s, call.tx, Pending) {
      ForwardApplies(schema, s.data, OpsOf(s.ops, call.tx), call.env);
      if Forward(schema, s.data, OpsOf(s.ops, call.tx), call.env).Ok? {
        CommitSucceeds(schema, s, call.tx, call.env, call.now);
      } else {
        CommitFails(schema, s, call.tx, call.env, call.now);
      }
    }
  }

  /**
   After any run of calls from an empty store, without a rollback after commit, the business data is the
   initial data with the statements of each committed transaction applied in staging order, transactions in
   commit order. A commit that was accepted did apply.
   */
  lemma {:induction false} RunIsSerial(schema: Schema, ttl: int, s: State, calls: seq<Call>)
    requires Inv(s) && s.txs == map[] && OnlyForward(calls)
    ensures var (end, log) := Play(schema, ttl, s, calls);
            && end.data == SerialData(schema, s.data, log)
            && forall i :: 0 <= i < |log| && log[i].accepted && log[i].call.Commit? ==>
                 Apply(schema, SerialData(schema, s.data, log[..i]), StagedBy(log[..i], log[i].call.tx),
                       log[i].call.env).Ok?
  {
    if calls != [] {
      var n := |calls| - 1;
      RunIsSerial(schema, ttl, s, calls[..n]);
      PlayedPlans(schema, ttl, s, calls[..n]);
      var (before, log0) := Play(schema, ttl, s, calls[..n]);
      var (end, log) := Play(schema, ttl, s, calls);
      CallIsSerial(schema, ttl, before, calls[n], log0, s.data);
      hide CallTrace;
      hide StagedBy;
      hide SerialData;
      hide Apply;
      assert log[..|log0|] == log0;
      forall i | 0 <= i < |log0| ensures log[..i] == log0[..i] && log[i] == log0[i] {}
    }
  }
}
