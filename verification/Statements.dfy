/** Whole statements: every placeholder is bound to the value it was printed for, and all of them filter alike. */
module Statements {
  import opened Wrappers
  import opened Sql
  import opened Filters
  import opened Printer
  import opened Meaning
  import opened Faithful
  import opened Builder
  import opened Placement
  import opened Alignment

  datatype Table = Table(name: string, columns: set<string>, ftsLanguage: string) {
    function Language(): (language: string)
      ensures if ftsLanguage == "" then language == "english" else language == ftsLanguage
    {
      if ftsLanguage == "" then "english" else ftsLanguage
    }
  }

  datatype OrderItem = OrderItem(column: string, direction: string, nulls: string)
  datatype Request = Request(where: Where, select: seq<string>, order: seq<OrderItem>, limit: int, offset: int)

  /** `ts_rank(column, plainto_tsquery('language', $holder))` */
  datatype Rank = Rank(column: string, language: string, holder: nat)

  datatype OrderKey = ByColumn(name: string) | ByRank(rank: Rank)
  datatype OrderPart = OrderPart(key: OrderKey, direction: string, nulls: string)

  /** `None` for the columns is `*`; an empty condition is no WHERE clause. */
  datatype Statement =
    | Select(ranks: seq<Rank>, columns: Option<seq<string>>, table: string, where: seq<Token>,
             order: seq<OrderPart>, limit: Option<int>, offset: Option<int>)
    | Count(table: string, where: seq<Token>)
    | DeleteFrom(table: string, where: seq<Token>)
    | UpdateSet(table: string, setColumns: seq<string>, holders: seq<nat>, where: seq<Token>)

  function Qualified(schemaName: string, t: Table): string {
    if schemaName != "" && schemaName != "public" then schemaName + "." + t.name else t.name
  }

  function Terms(fs: seq<Fts>): (r: seq<string>)
    ensures |r| == |fs|
  {
    seq(|fs|, k requires 0 <= k < |fs| => fs[k].term)
  }

  // ----- SELECT

  function OrderKeyOf(item: OrderItem, q: Where, language: string): OrderKey {
    if item.column == "_rank" && q.fts != [] then ByRank(Rank(q.fts[0].column, language, 1)) else ByColumn(item.column)
  }

  /** The order the request asks for: by a column, or by the rank of the first search, which is bound to `$1`. */
  ghost predicate OrdersBy(parts: seq<OrderPart>, order: seq<OrderItem>, q: Where, language: string) {
    && |parts| == |order|
    && forall k :: 0 <= k < |order| ==>
         && parts[k].direction == order[k].direction && parts[k].nulls == order[k].nulls
         && match parts[k].key
            case ByColumn(name) => name == order[k].column && (name == "_rank" ==> q.fts == [])
            case ByRank(rank) =>
              order[k].column == "_rank" && q.fts != [] && rank == Rank(q.fts[0].column, language, 1)
  }

  method BuildOrderBy(order: seq<OrderItem>, q: Where, language: string) returns (parts: seq<OrderPart>)
    ensures OrdersBy(parts, order, q, language)
  {
    parts := [];
    for k := 0 to |order|
      invariant |parts| == k
      invariant forall j :: 0 <= j < k ==>
                  parts[j] == OrderPart(OrderKeyOf(order[j], q, language), order[j].direction, order[j].nulls)
    {
      parts := parts + [OrderPart(OrderKeyOf(order[k], q, language), order[k].direction, order[k].nulls)];
    }
  }

  /** The rank of the k-th text search is printed before the earlier ones and bound to its own term. */
  ghost predicate RanksFor(ranks: seq<Rank>, fs: seq<Fts>, language: string) {
    && |ranks| == |fs|
    && forall j :: 0 <= j < |ranks| ==> ranks[j] == Rank(fs[|fs| - 1 - j].column, language, |fs| - j)
  }

  method BuildRanks(fs: seq<Fts>, language: string, argIdx: Counter) returns (ranks: seq<Rank>, args: seq<string>)
    requires argIdx.n == 1
    modifies argIdx
    ensures argIdx.n == |fs| + 1 && args == Terms(fs) && RanksFor(ranks, fs, language)
  {
    ranks, args := [], [];
    for k := 0 to |fs|
      invariant argIdx.n == k + 1 && args == Terms(fs[..k]) && RanksFor(ranks, fs[..k], language)
    {
      assert fs[..k + 1] == fs[..k] + [fs[k]];
      ranks := [Rank(fs[k].column, language, argIdx.n)] + ranks;
      args := args + [fs[k].term];
      argIdx.n := argIdx.n + 1;
    }
    assert fs[..|fs|] == fs;
  }

  method CheckColumns(t: Table, columns: seq<string>) returns (unknown: Option<string>)
    ensures unknown.None? <==> forall c :: c in columns ==> c in t.columns
    ensures unknown.Some? ==> unknown.value in columns && unknown.value !in t.columns
  {
    for k := 0 to |columns|
      invariant forall j :: 0 <= j < k ==> columns[j] in t.columns
    {
      if columns[k] !in t.columns {
        return Some(columns[k]);
      }
    }
    return None;
  }

  lemma EmptyTextHasNoArgs(q: Where, language: string, i: nat)
    requires PrintWhere(q, language, i).Ok? && PrintWhere(q, language, i).value.tokens == []
    ensures PrintWhere(q, language, i).value.args == []
  {
    WhereNumbered(q, language, i);
    assert |Numbers(i, |PrintWhere(q, language, i).value.args|)| == 0;
  }

  method BuildSelect(t: Table, schemaName: string, request: Request)
    returns (r: Result<(Statement, seq<string>), Fault>)
    ensures r.Ok? <==> (forall c :: c in request.select ==> c in t.columns)
                       && PrintWhere(request.where, t.Language(), |request.where.fts| + 1).Ok?
    ensures r.Ok? ==>
              var (sql, args) := r.value;
              var q, m := request.where, |request.where.fts|;
              var where := PrintWhere(q, t.Language(), m + 1).value;
              && sql.Select? && sql.table == Qualified(schemaName, t) && sql.where == where.tokens
              && sql.table == (if schemaName in {"", "public"} then t.name else schemaName + "." + t.name)
              && args == Terms(q.fts) + where.args
              && sql.columns == (if request.select == [] then None else Some(request.select))
              && RanksFor(sql.ranks, q.fts, t.Language())
              && OrdersBy(sql.order, request.order, q, t.Language())
              && sql.limit == (if request.limit >= 0 then Some(request.limit) else None)
              && sql.offset == (if request.offset > 0 then Some(request.offset) else None)
  {
    var unknown := CheckColumns(t, request.select);
    if unknown.Some? {
      return Err(UnknownColumn(unknown.value));
    }
    var argIdx := new Counter();
    var ranks, args := BuildRanks(request.where.fts, t.Language(), argIdx);
    var where := BuildWhere(request.where, t.Language(), argIdx);
    if where.Err? {
      return Err(where.fault);
    }
    if where.value.tokens != [] {
      args := args + where.value.args;
    } else {
      EmptyTextHasNoArgs(request.where, t.Language(), |request.where.fts| + 1);
    }
    var order := BuildOrderBy(request.order, request.where, t.Language());
    var sql := Select(ranks, if request.select == [] then None else Some(request.select), Qualified(schemaName, t),
                      where.value.tokens, order,
                      if request.limit >= 0 then Some(request.limit) else None,
                      if request.offset > 0 then Some(request.offset) else None);
    return Ok((sql, args));
  }

  method BuildCount(t: Table, schemaName: string, q: Where) returns (r: Result<(Statement, seq<string>), Fault>)
    ensures var where := PrintWhere(q, t.Language(), 1);
            r == if where.Err? then Err(where.fault)
                 else Ok((Count(Qualified(schemaName, t), where.value.tokens), where.value.args))
  {
    var argIdx := new Counter();
    var where := BuildWhere(q, t.Language(), argIdx);
    if where.Err? {
      return Err(where.fault);
    }
    var args: seq<string> := [];
    if where.value.tokens != [] {
      args := args + where.value.args;
    } else {
      EmptyTextHasNoArgs(q, t.Language(), 1);
    }
    assert args == where.value.args;
    return Ok((Count(Qualified(schemaName, t), where.value.tokens), args));
  }

  method BuildDelete(t: Table, schemaName: string, q: Where) returns (r: Result<(Statement, seq<string>), Fault>)
    ensures var where := PrintWhere(q, t.Language(), 1);
            r == if where.Err? then Err(where.fault)
                 else Ok((DeleteFrom(Qualified(schemaName, t), where.value.tokens), where.value.args))
  {
    var argIdx := new Counter();
    var where := BuildWhere(q, t.Language(), argIdx);
    if where.Err? {
      return Err(where.fault);
    }
    return Ok((DeleteFrom(Qualified(schemaName, t), where.value.tokens), where.value.args));
  }

  /** The SET list of a PATCH, one column at a time in whatever order the map yields them. */
  method BuildSets(t: Table, body: map<string, string>, argIdx: Counter)
    returns (unknown: Option<string>, columns: seq<string>, holders: seq<nat>, args: seq<string>)
    requires argIdx.n == 1
    modifies argIdx
    ensures unknown.None? <==> body.Keys <= t.columns
    ensures unknown.None? ==> Aligned(body, columns, holders, args) && argIdx.n == |columns| + 1
  {
    columns, holders, args := [], [], [];
    var left := body.Keys;
    ghost var done: map<string, string> := map[];
    while left != {}
      invariant left <= body.Keys && done.Keys == body.Keys - left && done.Keys <= t.columns
      invariant forall c :: c in done ==> done[c] == body[c]
      invariant argIdx.n == |columns| + 1 && Aligned(done, columns, holders, args)
      decreases left
    {
      var c :| c in left;
      if c !in t.columns {
        return Some(c), columns, holders, args;
      }
      AlignedGrows(done, columns, holders, args, c, body[c]);
      done := done[c := body[c]];
      columns, holders, args := columns + [c], holders + [argIdx.n], args + [body[c]];
      argIdx.n := argIdx.n + 1;
      left := left - {c};
    }
    assert done == body;
    return None, columns, holders, args;
  }

  /**
   A PATCH: set arguments first, then the filter's arguments on the same counter. Its builder has no table, which
   only a text search asks for: there the code panics, once the other conditions are built.
   */
  method HandlePatch(t: Table, table: string, body: map<string, string>, q: Where)
    returns (r: Result<(Statement, seq<string>), Fault>)
    ensures r.Ok? <==> body != map[] && body.Keys <= t.columns && q.fts == []
                       && PrintWhere(q, t.Language(), |body| + 1).Ok?
    ensures r.Ok? ==>
              var (sql, args) := r.value;
              var where := PrintWhere(q, t.Language(), |body| + 1).value;
              && sql.UpdateSet? && sql.table == table && sql.where == where.tokens
              && |args| == |body| + |where.args| && args[|body|..] == where.args
              && Aligned(body, sql.setColumns, sql.holders, args[..|body|])
    ensures r == Err(NoColumns) <==> body == map[]
    ensures r == Err(NilTable) <==> body != map[] && body.Keys <= t.columns && q.fts != []
                                    && PrintWhere(q.(fts := []), t.Language(), |body| + 1).Ok?
  {
    hide PrintWhere;
    var argIdx := new Counter();
    var unknown, columns, holders, setArgs := BuildSets(t, body, argIdx);
    if unknown.Some? {
      return Err(UnknownColumn(unknown.value));
    }
    AlignedCounts(body, columns, holders, setArgs);
    if columns == [] {
      assert forall c :: c !in body;
      return Err(NoColumns);
    }
    assert columns[0] in body;
    var where := BuildWhere(q.(fts := []), t.Language(), argIdx);
    if where.Err? {
      FaultIsOfAValue(q.(fts := []), t.Language(), |body| + 1);
      return Err(where.fault);
    }
    if q.fts != [] {
      return Err(NilTable);
    }
    var args := setArgs + where.value.args;
    assert args[..|body|] == setArgs;
    return Ok((UpdateSet(table, columns, holders, where.value.tokens), args));
  }

  lemma {:induction false} FilterFaults(fs: seq<Filter>, i: nat)
    ensures PrintFilters(fs, i).Err? ==> PrintFilters(fs, i).fault.InvalidIsValue?
  {
    if fs != [] && PrintFilter(fs[0], i).Ok? {
      FilterFaults(fs[1..], PrintFilter(fs[0], i).value.next);
    }
  }

  lemma {:induction false} GroupFaults(ls: seq<Logical>, i: nat)
    ensures PrintLogicals(ls, i).Err? ==> PrintLogicals(ls, i).fault.InvalidIsValue?
    decreases ls
  {
    if ls != [] {
      FilterFaults(ls[0].filters, i);
      var filters := PrintFilters(ls[0].filters, i);
      if filters.Ok? {
        GroupFaults(ls[0].logicals, filters.value.next);
      }
      var first := PrintLogical(ls[0], i);
      if first.Ok? {
        GroupFaults(ls[1..], first.value.next);
      }
    }
  }

  /** The only fault of printing is an IS value. */
  lemma FaultIsOfAValue(q: Where, language: string, i: nat)
    ensures PrintWhere(q, language, i).Err? ==> PrintWhere(q, language, i).fault.InvalidIsValue?
  {
    FilterFaults(q.filters, i);
    if PrintFilters(q.filters, i).Ok? {
      GroupFaults(q.logicals, PrintFilters(q.filters, i).value.next);
    }
  }

  // ----- alignment and agreement

  /** Ranks, the WHERE text and the arguments of a SELECT, as `BuildSelect` returns them. */
  ghost predicate SelectFor(sql: Statement, args: seq<string>, q: Where, language: string) {
    && sql.Select? && RanksFor(sql.ranks, q.fts, language)
    && PrintWhere(q, language, |q.fts| + 1).Ok?
    && sql.where == PrintWhere(q, language, |q.fts| + 1).value.tokens
    && args == Terms(q.fts) + PrintWhere(q, language, |q.fts| + 1).value.args
  }

  /** The rank shows search `n`, and its placeholder `n` is bound to the term of that search. */
  ghost predicate RankIsBound(r: Rank, n: int, args: seq<string>, fs: seq<Fts>) {
    1 <= n <= |fs| && n <= |args| && r.holder == n && r.column == fs[n - 1].column && args[n - 1] == fs[n - 1].term
  }

  /**
   In a SELECT the rank placeholders and the WHERE placeholders are exactly 1 to the number of arguments, each
   once; each rank is bound to its own search term, so the `$1` of an ORDER BY on the rank is the first term;
   and the WHERE text means the filters under these arguments.
   */
  lemma SelectIsAligned(sql: Statement, args: seq<string>, q: Where, language: string, w: World)
    requires SelectFor(sql, args, q, language)
    ensures forall j :: 0 <= j < |q.fts| ==> RankIsBound(sql.ranks[j], |q.fts| - j, args, q.fts)
    ensures q.fts != [] ==> args[0] == q.fts[0].term
    ensures Numbers(1, |q.fts|) + Holders(sql.where) == Numbers(1, |args|)
    ensures sql.where != [] && GoodWhere(q) ==>
              ReadWhere(sql.where).Some? && Eval(ReadWhere(sql.where).value, w, args) == WhereMeans(q, language, w)
  {
    hide PrintWhere;
    var p := PrintWhere(q, language, |q.fts| + 1).value;
    assert args[|q.fts|..] == p.args;
    PatchIsAligned(args, |q.fts|, q, language, w);
    forall k | 0 <= k < |q.fts| ensures args[k] == q.fts[k].term {
      assert args[k] == Terms(q.fts)[k];
    }
  }

  // ----- the rows that count, delete and select choose

  /** The tables of the database, by the text that names them in a statement. */
  type Tables = map<string, seq<World>>

  /** A row is chosen when the condition is absent, or readable and true of it. */
  ghost predicate Picks(where: seq<Token>, args: seq<string>, w: World) {
    where == [] || (ReadWhere(where).Some? && Eval(ReadWhere(where).value, w, args) == True)
  }

  /**
   Which rows the printed text picks, for every request that prints: all of them when it prints nothing, otherwise
   those the filters are true of, if the text can be read at all.
   */
  lemma PicksIff(q: Where, language: string, i: nat, w: World, args: seq<string>)
    requires PrintWhere(q, language, i).Ok? && BoundFrom(args, i, PrintWhere(q, language, i).value.args)
    ensures Picks(PrintWhere(q, language, i).value.tokens, args, w)
            <==> PrintsNothing(q) || (GoodWhere(q) && WhereMeans(q, language, w) == True)
  {
    WhereIsFaithful(q, language, i, w, args);
  }

  /**
   So the statement picks a row exactly when the filters are true of it, but for a lone empty group that is not an
   empty conjunction, where it picks every row, and for text that cannot be read, where it picks none.
   */
  lemma PicksRightlyIff(q: Where, language: string, i: nat, w: World, args: seq<string>)
    requires PrintWhere(q, language, i).Ok? && BoundFrom(args, i, PrintWhere(q, language, i).value.args)
    ensures (Picks(PrintWhere(q, language, i).value.tokens, args, w) <==> WhereMeans(q, language, w) == True)
            <==> if PrintsNothing(q) then q.logicals == [] || q.logicals[0].op.AllOf?
                 else GoodWhere(q) || WhereMeans(q, language, w) != True
  {
    PicksIff(q, language, i, w, args);
    if PrintsNothing(q) {
      if q.logicals == [] {
        assert FiltersMean([], w) + LogicalsMean([], w) + FtsListMeans([], language, w) == [];
      } else {
        LoneEmptyGroupIsDropped(q.logicals[0].op, language, w);
        assert q.logicals == [Logical(q.logicals[0].op, [], [])];
        assert q == Where([], [Logical(q.logicals[0].op, [], [])], []);
      }
    }
  }

  ghost function Picked(rows: seq<World>, where: seq<Token>, args: seq<string>): seq<World> {
    if rows == [] then []
    else (if Picks(where, args, rows[0]) then [rows[0]] else []) + Picked(rows[1..], where, args)
  }

  ghost function Chosen(db: Tables, table: string, where: seq<Token>, args: seq<string>): seq<World> {
    if table in db then Picked(db[table], where, args) else []
  }

  lemma SamePick(sql: Statement, args: seq<string>, q: Where, language: string, w: World)
    requires SelectFor(sql, args, q, language)
    ensures var p := PrintWhere(q, language, 1);
            p.Ok? && (Picks(sql.where, args, w) <==> Picks(p.value.tokens, p.value.args, w))
  {
    var m := |q.fts|;
    PrintWhereAnywhere(q, language, 1, m + 1);
    var p := PrintWhere(q, language, 1).value;
    assert BoundFrom(args, m + 1, PrintWhere(q, language, m + 1).value.args);
    assert BoundFrom(p.args, 1, p.args);
    WhereIsFaithful(q, language, m + 1, w, args);
    WhereIsFaithful(q, language, 1, w, p.args);
  }

  lemma {:induction false} SamePicked(rows: seq<World>, sql: Statement, args: seq<string>, q: Where, language: string)
    requires SelectFor(sql, args, q, language)
    ensures var p := PrintWhere(q, language, 1);
            p.Ok? && Picked(rows, sql.where, args) == Picked(rows, p.value.tokens, p.value.args)
  {
    hide Picks;
    hide PrintWhere;
    PrintWhereAnywhere(q, language, 1, |q.fts| + 1);
    if rows != [] {
      SamePick(sql, args, q, language, rows[0]);
      SamePicked(rows[1..], sql, args, q, language);
    }
  }

  /** The count is built without a schema name; it reads the table of the select exactly for the public schema. */
  lemma SameTableIff(t: Table, schemaName: string)
    ensures Qualified("", t) == Qualified(schemaName, t) <==> schemaName in {"", "public"}
  {
    if schemaName !in {"", "public"} {
      assert |Qualified(schemaName, t)| == |schemaName| + 1 + |t.name|;
    }
  }

  /**
   A delete chooses the rows an unlimited select without embeds returns, and so does the count of a table in the
   public schema.
   */
  lemma SameRows(t: Table, schemaName: string, db: Tables, sql: Statement, args: seq<string>, q: Where,
                 language: string)
    requires SelectFor(sql, args, q, language) && sql.table == Qualified(schemaName, t)
    ensures var p := PrintWhere(q, language, 1);
            && p.Ok?
            && Chosen(db, Qualified(schemaName, t), p.value.tokens, p.value.args)
               == Chosen(db, sql.table, sql.where, args)
            && (schemaName in {"", "public"} ==>
                  Chosen(db, Qualified("", t), p.value.tokens, p.value.args) == Chosen(db, sql.table, sql.where, args))
  {
    hide Picked;
    hide PrintWhere;
    SameTableIff(t, schemaName);
    SamePicked(if sql.table in db then db[sql.table] else [], sql, args, q, language);
  }

  /**
   The count agrees with the select on every database exactly when the table is in the public schema or no row can
   ever meet the condition. Elsewhere it counts another table.
   */
  lemma CountAgreesIff(t: Table, schemaName: string, sql: Statement, args: seq<string>, q: Where, language: string)
    requires SelectFor(sql, args, q, language) && sql.table == Qualified(schemaName, t)
    ensures var p := PrintWhere(q, language, 1);
            && p.Ok?
            && ((forall db: Tables :: |Chosen(db, Qualified("", t), p.value.tokens, p.value.args)|
                                      == |Chosen(db, sql.table, sql.where, args)|)
                <==> schemaName in {"", "public"} || forall w: World :: !Picks(p.value.tokens, p.value.args, w))
  {
    hide PrintWhere;
    hide Picks;
    SamePicked([], sql, args, q, language);
    var p := PrintWhere(q, language, 1).value;
    SameTableIff(t, schemaName);
    forall db: Tables
      ensures |Chosen(db, Qualified("", t), p.tokens, p.args)| == |Chosen(db, sql.table, sql.where, args)|
              || !(schemaName in {"", "public"} || forall w: World :: !Picks(p.tokens, p.args, w)) {
      SameRows(t, schemaName, db, sql, args, q, language);
      if forall w: World :: !Picks(p.tokens, p.args, w) {
        NothingPicked(if sql.table in db then db[sql.table] else [], p.tokens, p.args);
        NothingPicked(if Qualified("", t) in db then db[Qualified("", t)] else [], p.tokens, p.args);
      }
    }
    if schemaName !in {"", "public"} && exists w: World :: Picks(p.tokens, p.args, w) {
      var w: World :| Picks(p.tokens, p.args, w);
      var db: Tables := map[sql.table := [w]];
      assert Picked([w][1..], p.tokens, p.args) == [];
      assert Picked([w], p.tokens, p.args) == [w];
      SameRows(t, schemaName, db, sql, args, q, language);
      assert |Chosen(db, Qualified("", t), p.tokens, p.args)| != |Chosen(db, sql.table, sql.where, args)|;
    }
  }

  lemma {:induction false} NothingPicked(rows: seq<World>, where: seq<Token>, args: seq<string>)
    requires forall w: World :: !Picks(where, args, w)
    ensures Picked(rows, where, args) == []
  {
    hide Picks;
    if rows != [] {
      NothingPicked(rows[1..], where, args);
    }
  }

  /** A PATCH binds its columns and its filter at once: the WHERE text means the filters under all the arguments. */
  lemma PatchIsAligned(args: seq<string>, sets: nat, q: Where, language: string, w: World)
    requires PrintWhere(q, language, sets + 1).Ok?
    requires |args| == sets + |PrintWhere(q, language, sets + 1).value.args|
    requires args[sets..] == PrintWhere(q, language, sets + 1).value.args
    ensures var p := PrintWhere(q, language, sets + 1).value;
            && Numbers(1, sets) + Holders(p.tokens) == Numbers(1, |args|)
            && (p.tokens != [] && GoodWhere(q) ==>
                  ReadWhere(p.tokens).Some? && Eval(ReadWhere(p.tokens).value, w, args) == WhereMeans(q, language, w))
  {
    var p := PrintWhere(q, language, sets + 1).value;
    WhereNumbered(q, language, sets + 1);
    NumbersSplit(1, sets, |p.args|);
    assert BoundFrom(args, sets + 1, p.args);
    WhereIsFaithful(q, language, sets + 1, w, args);
  }

  // ----- the order of the parsed conditions

  lemma {:induction false} All3Is(ts: seq<Truth>)
    ensures All3(ts) == if False in ts then False else if Unknown in ts then Unknown else True
  {
    if ts != [] {
      All3Is(ts[1..]);
    }
  }

  lemma {:induction false} LogicalsMeanAt(ls: seq<Logical>, w: World, k: nat)
    requires k < |ls|
    ensures LogicalsMean(ls, w)[k] == LogicalMeans(ls[k], w)
  {
    if k > 0 {
      LogicalsMeanAt(ls[1..], w, k - 1);
    }
  }

  function Truths(q: Where, language: string, w: World): seq<Truth> {
    FiltersMean(q.filters, w) + LogicalsMean(q.logicals, w) + FtsListMeans(q.fts, language, w)
  }

  lemma TruthsCovered(a: Where, b: Where, language: string, w: World, t: Truth)
    requires (forall f :: f in a.filters ==> f in b.filters) && (forall l :: l in a.logicals ==> l in b.logicals)
    requires forall f :: f in a.fts ==> f in b.fts
    requires t in Truths(a, language, w)
    ensures t in Truths(b, language, w)
  {
    var fa, la, ta := FiltersMean(a.filters, w), LogicalsMean(a.logicals, w), FtsListMeans(a.fts, language, w);
    var fb, lb, tb := FiltersMean(b.filters, w), LogicalsMean(b.logicals, w), FtsListMeans(b.fts, language, w);
    if t in fa {
      var k :| 0 <= k < |fa| && fa[k] == t;
      assert a.filters[k] in b.filters;
      var j :| 0 <= j < |b.filters| && b.filters[j] == a.filters[k];
      assert fb[j] == t;
    } else if t in la {
      var k :| 0 <= k < |la| && la[k] == t;
      LogicalsMeanAt(a.logicals, w, k);
      assert a.logicals[k] in b.logicals;
      var j :| 0 <= j < |b.logicals| && b.logicals[j] == a.logicals[k];
      LogicalsMeanAt(b.logicals, w, j);
      assert lb[j] == t;
    } else {
      var k :| 0 <= k < |ta| && ta[k] == t;
      assert a.fts[k] in b.fts;
      var j :| 0 <= j < |b.fts| && b.fts[j] == a.fts[k];
      assert tb[j] == t;
    }
  }

  /** The same filters, groups and searches in any order are one condition. */
  ghost predicate SameConditions(a: Where, b: Where) {
    && (forall f :: f in a.filters <==> f in b.filters)
    && (forall l :: l in a.logicals <==> l in b.logicals)
    && (forall f :: f in a.fts <==> f in b.fts)
  }

  /** Whatever order the query map was walked in, the request means the same. */
  lemma OrderDoesNotMatter(a: Where, b: Where, language: string, w: World)
    requires SameConditions(a, b)
    ensures WhereMeans(a, language, w) == WhereMeans(b, language, w)
  {
    All3Is(Truths(a, language, w));
    All3Is(Truths(b, language, w));
    forall t ensures t in Truths(a, language, w) <==> t in Truths(b, language, w) {
      if t in Truths(a, language, w) {
        TruthsCovered(a, b, language, w, t);
      }
      if t in Truths(b, language, w) {
        TruthsCovered(b, a, language, w, t);
      }
    }
  }
}
