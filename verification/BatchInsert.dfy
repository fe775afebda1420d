/**
 POST: the multi-row INSERT built from a JSON body, its placeholders and arguments, and the ON CONFLICT clause of an
 upsert.
 */
module BatchInsert {
  import opened Rows
  import opened Text
  import opened Wrappers

  type Body = map<string, Value>

  datatype Conflict =
    | NoClause
    | Ignore
    | DoNothing(target: seq<string>)
    | DoUpdate(target: seq<string>, sets: seq<string>)

  /** INSERT INTO t (columns) VALUES tuples ON CONFLICT ..., with the arguments for its placeholders. */
  datatype Insert = Insert(columns: seq<string>, tuples: seq<seq<nat>>, args: seq<Value>, conflict: Conflict)

  datatype Fault = EmptyArray | InvalidColumn(column: string) | NoColumns

  datatype Preference = MergeDuplicates | IgnoreDuplicates | Plain

  // ----- specification

  function Cell(row: Body, column: string): Value {
    if column in row then row[column] else Null
  }

  function RowArgs(row: Body, columns: seq<string>): seq<Value> {
    seq(|columns|, c requires 0 <= c < |columns| => Cell(row, columns[c]))
  }

  function AllArgs(rows: seq<Body>, columns: seq<string>): (args: seq<Value>)
    ensures |args| == |rows| * |columns|
  {
    if rows == [] then []
    else
      assert (|rows| - 1) * |columns| + |columns| == |rows| * |columns|;
      AllArgs(rows[..|rows| - 1], columns) + RowArgs(rows[|rows| - 1], columns)
  }

  function Tuple(r: nat, width: nat): seq<nat> {
    seq(width, c requires 0 <= c < width => r * width + c + 1)
  }

  function Tuples(count: nat, width: nat): seq<seq<nat>> {
    seq(count, r requires 0 <= r < count => Tuple(r, width))
  }

  /** The columns outside the conflict target, in order. */
  function Outside(columns: seq<string>, target: seq<string>): seq<string> {
    if columns == [] then []
    else
      Outside(columns[..|columns| - 1], target)
      + (if columns[|columns| - 1] in target then [] else [columns[|columns| - 1]])
  }

  /** strings.Split(s, ",") */
  function SplitCommas(s: string): seq<string>
    decreases |s|
  {
    var comma := Index(s, ',');
    if comma == |s| then [s] else [s[..comma]] + SplitCommas(s[comma + 1..])
  }

  function After(columns: seq<string>, rest: Result<seq<string>, Fault>): Result<seq<string>, Fault> {
    if rest.Ok? then Ok(columns + rest.value) else rest
  }

  lemma AfterAfter(columns: seq<string>, column: string, rest: Result<seq<string>, Fault>)
    ensures After(columns, After([column], rest)) == After(columns + [column], rest)
  {
    if rest.Ok? {
      assert columns + ([column] + rest.value) == (columns + [column]) + rest.value;
    }
  }

  /** The columns an `on_conflict` list names; blanks are skipped and the first unknown name is the fault. */
  function Named(parts: seq<string>, known: set<string>): Result<seq<string>, Fault> {
    if parts == [] then Ok([])
    else
      var column := TrimSpace(parts[0]);
      if column == "" then Named(parts[1..], known)
      else if column !in known then Err(InvalidColumn(column))
      else After([column], Named(parts[1..], known))
  }

  // ----- the layout

  lemma {:induction false} RowsDoNotOverlap(r: nat, n: nat, c: nat, width: nat)
    requires c < width
    ensures r < n ==> r * width + c < n * width
    decreases n
  {
    if r < n {
      RowsDoNotOverlap(r, n - 1, c, width);
      assert n * width == (n - 1) * width + width;
    }
  }

  lemma {:induction false} ArgAt(rows: seq<Body>, columns: seq<string>, r: nat, c: nat)
    requires r < |rows| && c < |columns|
    ensures r * |columns| + c < |rows| * |columns|
    ensures AllArgs(rows, columns)[r * |columns| + c] == Cell(rows[r], columns[c])
    decreases |rows|
  {
    var n := |rows| - 1;
    RowsDoNotOverlap(r, |rows|, c, |columns|);
    RowsDoNotOverlap(r, n, c, |columns|);
    var before, last := AllArgs(rows[..n], columns), RowArgs(rows[n], columns);
    assert AllArgs(rows, columns) == before + last && |before| == n * |columns|;
    if r == n {
      assert (before + last)[|before| + c] == last[c];
    } else {
      ArgAt(rows[..n], columns, r, c);
    }
  }

  /** The values of an object for the columns of the statement, null where it has none. */
  function Item(columns: seq<string>, given: Body): Body {
    map c | c in columns :: if c in given then given[c] else Null
  }

  ghost predicate LaidOut(insert: Insert, rows: seq<Body>) {
    && insert.tuples == Tuples(|rows|, |insert.columns|)
    && insert.args == AllArgs(rows, insert.columns)
    && (forall i, j :: 0 <= i < j < |insert.columns| ==> insert.columns[i] != insert.columns[j])
  }

  /** The row that a tuple of placeholders denotes. */
  function RowOf(insert: Insert, r: nat): Body
    requires r < |insert.tuples| && |insert.tuples[r]| == |insert.columns|
    requires forall c :: 0 <= c < |insert.columns| ==> 1 <= insert.tuples[r][c] <= |insert.args|
    requires forall i, j :: 0 <= i < j < |insert.columns| ==> insert.columns[i] != insert.columns[j]
  {
    map c | 0 <= c < |insert.columns| :: insert.columns[c] := insert.args[insert.tuples[r][c] - 1]
  }

  /**
   Each tuple denotes its object: the columns of the first object, null where this object has none; its other
   columns are dropped. Every argument is bound by exactly one placeholder.
   */
  lemma TupleDenotesItsRow(insert: Insert, rows: seq<Body>, r: nat)
    requires LaidOut(insert, rows) && r < |rows|
    ensures |insert.tuples[r]| == |insert.columns|
    ensures forall c :: 0 <= c < |insert.columns| ==> 1 <= insert.tuples[r][c] <= |insert.args|
    ensures RowOf(insert, r).Keys == (set c | c in insert.columns)
    ensures forall column :: column in insert.columns ==> RowOf(insert, r)[column] == Cell(rows[r], column)
  {
    forall c | 0 <= c < |insert.columns|
      ensures 1 <= insert.tuples[r][c] <= |insert.args|
      ensures insert.args[insert.tuples[r][c] - 1] == Cell(rows[r], insert.columns[c]) {
      ArgAt(rows, insert.columns, r, c);
    }
    var row := RowOf(insert, r);
    forall column | column in insert.columns ensures column in row && row[column] == Cell(rows[r], column) {
      var c :| 0 <= c < |insert.columns| && insert.columns[c] == column;
      assert row[insert.columns[c]] == insert.args[insert.tuples[r][c] - 1];
    }
  }

  /** So the row inserted is the object's values for the columns of the statement. */
  lemma StatementInserts(insert: Insert, rows: seq<Body>, r: nat)
    requires LaidOut(insert, rows) && r < |rows|
    ensures |insert.tuples[r]| == |insert.columns|
    ensures forall c :: 0 <= c < |insert.columns| ==> 1 <= insert.tuples[r][c] <= |insert.args|
    ensures RowOf(insert, r) == Item(insert.columns, rows[r])
  {
    TupleDenotesItsRow(insert, rows, r);
    hide RowOf;
    hide Tuples;
    hide AllArgs;
  }

  /** Placeholder k stands in exactly one place, in row (k-1)/width at column (k-1)%width. */
  lemma EveryArgumentIsBoundOnce(insert: Insert, rows: seq<Body>, k: nat, r: nat, c: nat)
    requires LaidOut(insert, rows) && 1 <= k <= |insert.args| && r < |rows| && c < |insert.columns|
    ensures insert.tuples[r][c] == k <==> r == (k - 1) / |insert.columns| && c == (k - 1) % |insert.columns|
  {
    var width := |insert.columns|;
    if insert.tuples[r][c] == k {
      assert k - 1 == r * width + c;
      DivisionIsUnique(k - 1, r, c, width);
    }
  }

  lemma DivisionIsUnique(n: nat, q: nat, m: nat, d: nat)
    requires m < d && n == q * d + m
    ensures q == n / d && m == n % d
  {
    RowsDoNotOverlap(q, n / d, m, d);
    RowsDoNotOverlap(n / d, q, n % d, d);
    assert n == (n / d) * d + n % d;
  }

  // ----- the conflict clause

  /** An upsert over this conflict target: it sets the inserted columns outside the target, or does nothing. */
  ghost predicate UpsertsOn(insert: Insert, target: seq<string>) {
    && target != []
    && match insert.conflict
       case DoUpdate(t, sets) =>
         && t == target && sets != []
         && (forall c :: c in sets <==> c in insert.columns && c !in target)
         && (forall i, j :: 0 <= i < j < |sets| ==> sets[i] != sets[j])
       case DoNothing(t) => t == target && forall c :: c in insert.columns ==> c in target
       case NoClause => false
       case Ignore => false
  }

  ghost predicate PlainName(c: string) {
    c != "" && TrimSpace(c) == c && ',' !in c
  }

  /** An `on_conflict` list of known columns. */
  ghost predicate PlainNames(names: seq<string>, known: set<string>) {
    names != [] && forall i :: 0 <= i < |names| ==> PlainName(names[i]) && names[i] in known
  }

  predicate UnknownName(part: string, known: set<string>) {
    TrimSpace(part) != "" && TrimSpace(part) !in known
  }

  /** The ON CONFLICT clause a request asks for: the target is the list it names, or the primary key. */
  ghost predicate ConflictFor(insert: Insert, known: set<string>, pk: string, prefer: Preference, onConflict: string) {
    match prefer
    case Plain => insert.conflict == NoClause
    case IgnoreDuplicates => insert.conflict == Ignore
    case MergeDuplicates =>
      && (onConflict == "" && pk == "" ==> insert.conflict == NoClause)
      && (onConflict == "" && pk != "" ==> UpsertsOn(insert, [pk]))
      && (onConflict != "" ==> NamesTarget(insert, onConflict))
      && (forall names :: PlainNames(names, known) && onConflict == JoinCommas(names) ==> UpsertsOn(insert, names))
  }

  /** The target is made of the names between the commas, spaces around them and empty ones aside. */
  ghost predicate NamesTarget(insert: Insert, onConflict: string) {
    if forall part :: part in SplitCommas(onConflict) ==> TrimSpace(part) == "" then insert.conflict == NoClause
    else exists target ::
      && UpsertsOn(insert, target)
      && forall c :: c in target <==> c != "" && exists part :: part in SplitCommas(onConflict) && TrimSpace(part) == c
  }

  lemma {:induction false} OutsideMembers(columns: seq<string>, target: seq<string>, c: string)
    ensures c in Outside(columns, target) <==> c in columns && c !in target
  {
    if columns != [] {
      var n := |columns| - 1;
      OutsideMembers(columns[..n], target, c);
      assert columns == columns[..n] + [columns[n]];
    }
  }

  /** The SET list keeps the order of the columns and names each once. */
  lemma {:induction false} OutsideKeepsOrder(columns: seq<string>, target: seq<string>) returns (at: seq<nat>)
    ensures |at| == |Outside(columns, target)|
    ensures forall i :: 0 <= i < |at| ==> at[i] < |columns| && columns[at[i]] == Outside(columns, target)[i]
    ensures forall i, j :: 0 <= i < j < |at| ==> at[i] < at[j]
  {
    if columns == [] {
      at := [];
    } else {
      var n := |columns| - 1;
      at := OutsideKeepsOrder(columns[..n], target);
      if columns[n] !in target {
        at := at + [n];
      }
    }
  }

  /** The clause as the handler puts it together. */
  ghost predicate ClauseOver(insert: Insert, target: seq<string>) {
    var sets := Outside(insert.columns, target);
    insert.conflict ==
    if target == [] then NoClause else if sets == [] then DoNothing(target) else DoUpdate(target, sets)
  }

  lemma ClauseUpserts(insert: Insert, target: seq<string>)
    requires forall i, j :: 0 <= i < j < |insert.columns| ==> insert.columns[i] != insert.columns[j]
    requires ClauseOver(insert, target) && target != []
    ensures UpsertsOn(insert, target)
  {
    var sets := Outside(insert.columns, target);
    forall c ensures c in sets <==> c in insert.columns && c !in target {
      OutsideMembers(insert.columns, target, c);
    }
    var at := OutsideKeepsOrder(insert.columns, target);
    hide Outside;
    assert forall c :: c in insert.columns && c !in target ==> sets != [];
  }

  lemma {:induction false} JoinedNamesSplit(names: seq<string>)
    requires names != [] && forall i :: 0 <= i < |names| ==> ',' !in names[i]
    ensures SplitCommas(JoinCommas(names)) == names
  {
    var s := JoinCommas(names);
    if |names| == 1 {
      assert Index(s, ',') == |s|;
    } else {
      assert s[..|names[0]|] == names[0] && s[|names[0]|] == ',';
      IndexIs(s, ',', |names[0]|);
      assert s[|names[0]| + 1..] == JoinCommas(names[1..]);
      JoinedNamesSplit(names[1..]);
    }
  }

  lemma {:induction false} NamedReadsNames(names: seq<string>, known: set<string>)
    requires forall i :: 0 <= i < |names| ==> PlainName(names[i]) && names[i] in known
    ensures Named(names, known) == Ok(names)
  {
    hide TrimSpace;
    if names != [] {
      assert PlainName(names[0]);
      NamedReadsNames(names[1..], known);
      assert [names[0]] + names[1..] == names;
    }
  }

  /** The target of an `on_conflict` list, or the unknown name in it. */
  lemma {:induction false} NamedIs(parts: seq<string>, known: set<string>)
    ensures Named(parts, known).Err? ==>
              Named(parts, known).fault.InvalidColumn? && Named(parts, known).fault.column !in known
    ensures Named(parts, known).Err? <==> exists part :: part in parts && UnknownName(part, known)
    ensures Named(parts, known).Ok? ==>
              forall c :: c in Named(parts, known).value <==>
                c != "" && exists part :: part in parts && TrimSpace(part) == c
  {
    hide TrimSpace;
    if parts != [] {
      NamedIs(parts[1..], known);
      assert forall part :: part in parts <==> part == parts[0] || part in parts[1..];
      var rest := Named(parts[1..], known);
      if rest.Err? {
        var part :| part in parts[1..] && UnknownName(part, known);
        assert part in parts;
      }
      assert UnknownName(parts[0], known) ==> parts[0] in parts;
    }
  }

  lemma BlankNamesNothing(known: set<string>)
    ensures SplitCommas("") == [""] && !UnknownName("", known)
  {
  }

  /** An `on_conflict` list of known columns is read back as the names, in the same order. */
  lemma OnConflictRoundTrips(names: seq<string>, known: set<string>)
    requires PlainNames(names, known)
    ensures JoinCommas(names) != "" && Named(SplitCommas(JoinCommas(names)), known) == Ok(names)
  {
    assert PlainName(names[0]);
    JoinedNamesSplit(names);
    NamedReadsNames(names, known);
  }

  lemma ClauseIsRight(insert: Insert, target: seq<string>, known: set<string>, pk: string, onConflict: string)
    requires forall i, j :: 0 <= i < j < |insert.columns| ==> insert.columns[i] != insert.columns[j]
    requires if onConflict != "" then Named(SplitCommas(onConflict), known) == Ok(target)
             else target == if pk != "" then [pk] else []
    requires ClauseOver(insert, target)
    ensures ConflictFor(insert, known, pk, MergeDuplicates, onConflict)
  {
    hide TrimSpace;
    if target != [] {
      ClauseUpserts(insert, target);
    }
    hide UpsertsOn;
    if onConflict != "" {
      NamedIs(SplitCommas(onConflict), known);
      assert forall c :: c in target ==> c != "";
      assert target != [] ==> target[0] in target;
    }
    forall names | PlainNames(names, known) && onConflict == JoinCommas(names) ensures UpsertsOn(insert, names) {
      OnConflictRoundTrips(names, known);
      assert names == target;
    }
  }

  // ----- the handler

  /** The columns are those of the first object, in the order the map yields them; all must be known. */
  method FirstColumns(row: Body, known: set<string>) returns (r: Result<seq<string>, Fault>)
    ensures r.Err? <==> row == map[] || exists c :: c in row && c !in known
    ensures r.Err? ==>
              if row == map[] then r.fault == NoColumns
              else r.fault.InvalidColumn? && r.fault.column in row && r.fault.column !in known
    ensures r.Ok? ==> forall c :: c in r.value <==> c in row
    ensures r.Ok? ==> forall i, j :: 0 <= i < j < |r.value| ==> r.value[i] != r.value[j]
  {
    var columns: seq<string> := [];
    var left := row.Keys;
    while left != {}
      invariant left <= row.Keys
      invariant forall c :: c in columns <==> c in row && c !in left
      invariant forall i, j :: 0 <= i < j < |columns| ==> columns[i] != columns[j]
      invariant forall c :: c in columns ==> c in known
      decreases left
    {
      var c :| c in left;
      if c !in known {
        return Err(InvalidColumn(c));
      }
      columns := columns + [c];
      left := left - {c};
    }
    if columns == [] {
      assert forall c :: c !in row;
      return Err(NoColumns);
    }
    assert columns[0] in row;
    return Ok(columns);
  }

  method CollectArgs(rows: seq<Body>, columns: seq<string>) returns (args: seq<Value>)
    ensures args == AllArgs(rows, columns)
  {
    args := [];
    for r := 0 to |rows|
      invariant args == AllArgs(rows[..r], columns)
    {
      var row := rows[r];
      for c := 0 to |columns|
        invariant args == AllArgs(rows[..r], columns) + RowArgs(row, columns[..c])
      {
        if columns[c] !in row {
          args := args + [Null];
        } else {
          args := args + [row[columns[c]]];
        }
      }
      assert columns[..|columns|] == columns;
      assert rows[..r + 1][..r] == rows[..r];
    }
    assert rows[..|rows|] == rows;
  }

  method CollectTuples(count: nat, width: nat) returns (tuples: seq<seq<nat>>)
    ensures tuples == Tuples(count, width)
  {
    tuples := [];
    var argIdx := 1;
    for r := 0 to count
      invariant tuples == Tuples(r, width)
      invariant argIdx == r * width + 1
    {
      var tuple: seq<nat> := [];
      for c := 0 to width
        invariant argIdx == r * width + c + 1
        invariant |tuple| == c && forall k :: 0 <= k < c ==> tuple[k] == Tuple(r, width)[k]
      {
        tuple := tuple + [argIdx];
        argIdx := argIdx + 1;
      }
      assert tuple == Tuple(r, width);
      tuples := tuples + [tuple];
    }
  }

  method CollectSets(columns: seq<string>, target: seq<string>) returns (sets: seq<string>)
    ensures sets == Outside(columns, target)
  {
    sets := [];
    for i := 0 to |columns|
      invariant sets == Outside(columns[..i], target)
    {
      var isConflict := false;
      var j := 0;
      while j < |target| && !isConflict
        invariant 0 <= j <= |target|
        invariant isConflict <==> columns[i] in target[..j]
      {
        assert target[..j + 1] == target[..j] + [target[j]];
        isConflict := columns[i] == target[j];
        j := j + 1;
      }
      assert isConflict <==> columns[i] in target by {
        assert target[..|target|] == target;
      }
      if !isConflict {
        sets := sets + [columns[i]];
      }
      assert columns[..i + 1][..i] == columns[..i];
    }
    assert columns[..|columns|] == columns;
  }

  method CollectTarget(parts: seq<string>, known: set<string>) returns (r: Result<seq<string>, Fault>)
    ensures r == Named(parts, known)
  {
    hide TrimSpace;
    var columns: seq<string> := [];
    var i := 0;
    assert parts[i..] == parts;
    assert Named(parts, known).Ok? ==> columns + Named(parts, known).value == Named(parts, known).value;
    while i < |parts|
      invariant 0 <= i <= |parts|
      invariant Named(parts, known) == After(columns, Named(parts[i..], known))
    {
      var column := TrimSpace(parts[i]);
      assert parts[i..][1..] == parts[i + 1..];
      if column != "" {
        if column !in known {
          return Err(InvalidColumn(column));
        }
        AfterAfter(columns, column, Named(parts[i + 1..], known));
        columns := columns + [column];
      }
      i := i + 1;
    }
    assert columns + [] == columns;
    return Ok(columns);
  }

  ghost predicate Built(insert: Insert, rows: seq<Body>, known: set<string>, pk: string, prefer: Preference,
                        onConflict: string) {
    && rows != [] && (forall c :: c in insert.columns <==> c in rows[0])
    && LaidOut(insert, rows)
    && ConflictFor(insert, known, pk, prefer, onConflict)
  }

  /** HandlePost from the decoded body to the statement. */
  method BuildInsert(rows: seq<Body>, known: set<string>, pk: string, prefer: Preference, onConflict: string)
    returns (r: Result<Insert, Fault>)
    ensures r.Ok? ==> Built(r.value, rows, known, pk, prefer, onConflict)
    ensures r.Err? <==>
            || rows == [] || rows[0] == map[] || (exists c :: c in rows[0] && c !in known)
            || (prefer == MergeDuplicates && exists part :: part in SplitCommas(onConflict) && UnknownName(part, known))
    ensures rows == [] ==> r == Err(EmptyArray)
    ensures rows != [] && rows[0] == map[] ==> r == Err(NoColumns)
    ensures r.Err? && rows != [] && rows[0] != map[] ==> r.fault.InvalidColumn? && r.fault.column !in known
  {
    BlankNamesNothing(known);
    hide UnknownName;
    hide SplitCommas;
    hide Named;
    hide Outside;
    hide AllArgs;
    hide Tuples;
    hide UpsertsOn;
    hide NamesTarget;
    if rows == [] {
      return Err(EmptyArray);
    }
    var columns :- FirstColumns(rows[0], known);
    var args := CollectArgs(rows, columns);
    var tuples := CollectTuples(|rows|, |columns|);
    var conflict := NoClause;
    if prefer.IgnoreDuplicates? {
      conflict := Ignore;
    } else if prefer.MergeDuplicates? {
      var target: seq<string> := [];
      NamedIs(SplitCommas(onConflict), known);
      if onConflict != "" {
        target :- CollectTarget(SplitCommas(onConflict), known);
      } else if pk != "" {
        target := [pk];
      }
      if target != [] {
        var sets := CollectSets(columns, target);
        conflict := if sets == [] then DoNothing(target) else DoUpdate(target, sets);
      }
      ClauseIsRight(Insert.Insert(columns, tuples, args, conflict), target, known, pk, onConflict);
    }
    return Ok(Insert.Insert(columns, tuples, args, conflict));
  }

  // ----- what the statement does to the table

  /** Two rows that a unique constraint on these columns does not let stand side by side. */
  predicate Agree(a: Body, b: Body, unique: seq<string>) {
    forall c | c in unique :: c in a && c in b && a[c] == b[c] && a[c] != Null
  }

  /** At most one stored row stands in the way of the new one, and it has the columns of the statement. */
  ghost predicate InTheWay(table: seq<Body>, i: nat, row: Body, unique: seq<string>) {
    && i < |table| && Agree(table[i], row, unique) && row.Keys <= table[i].Keys
    && forall j :: 0 <= j < |table| && j != i ==> !Agree(table[j], row, unique)
  }

  /** ON CONFLICT ... DO UPDATE SET c = EXCLUDED.c for each c listed: what becomes of the stored row. */
  function Resolve(sets: seq<string>, stored: Body, row: Body): Body {
    map c | c in stored :: if c in sets && c in row then row[c] else stored[c]
  }

  /**
   PostgreSQL's INSERT of one row into a table with one unique constraint, `None` for a duplicate key. The clause
   applies when the stored row agrees with the new one on the very columns it names (section "INSERT" of the manual).
   */
  ghost function Executed(conflict: Conflict, table: seq<Body>, row: Body, unique: seq<string>): Option<seq<Body>> {
    if i: nat :| i < |table| && Agree(table[i], row, unique) then
      match conflict
      case NoClause => None
      case Ignore => Some(table)
      case DoNothing(target) => if target == unique then Some(table) else None
      case DoUpdate(target, sets) =>
        if target == unique then Some(table[i := Resolve(sets, table[i], row)]) else None
    else Some(table + [row])
  }

  /** The one row in the way is the one the clause is applied to. */
  lemma ExecutedOver(conflict: Conflict, table: seq<Body>, row: Body, unique: seq<string>, i: nat)
    requires InTheWay(table, i, row, unique)
    ensures Executed(conflict, table, row, unique) ==
            match conflict
            case NoClause => None
            case Ignore => Some(table)
            case DoNothing(target) => if target == unique then Some(table) else None
            case DoUpdate(target, sets) =>
              if target == unique then Some(table[i := Resolve(sets, table[i], row)]) else None
  {
    hide Agree;
    hide Resolve;
  }

  /**
   A POST with upsert over a stored row that agrees with the object in the conflict target: every inserted column
   takes its new value and every other column keeps the stored one, also when nothing is left to set. The target is
   the primary key, or the columns that `on_conflict` lists.
   */
  lemma UpsertMerges(insert: Insert, rows: seq<Body>, known: set<string>, pk: string, onConflict: string,
                     target: seq<string>, r: nat, table: seq<Body>, i: nat)
    requires Built(insert, rows, known, pk, MergeDuplicates, onConflict) && r < |rows|
    requires if onConflict == "" then pk != "" && target == [pk]
             else PlainNames(target, known) && onConflict == JoinCommas(target)
    requires InTheWay(table, i, Item(insert.columns, rows[r]), target)
    ensures Executed(insert.conflict, table, Item(insert.columns, rows[r]), target)
            == Some(table[i := table[i] + Item(insert.columns, rows[r])])
  {
    var row := Item(insert.columns, rows[r]);
    assert UpsertsOn(insert, target);
    hide ConflictFor;
    hide LaidOut;
    ExecutedOver(insert.conflict, table, row, target, i);
    hide Executed;
    if insert.conflict.DoUpdate? {
      assert Resolve(insert.conflict.sets, table[i], row) == table[i] + row;
    } else {
      assert table[i] + row == table[i];
      assert table[i := table[i]] == table;
    }
  }

  /** Without a preference such a row is a duplicate key, and so it is with an upsert that has no target. */
  lemma OtherwiseRefused(insert: Insert, rows: seq<Body>, known: set<string>, pk: string, prefer: Preference,
                         onConflict: string, unique: seq<string>, r: nat, table: seq<Body>, i: nat)
    requires Built(insert, rows, known, pk, prefer, onConflict) && r < |rows|
    requires InTheWay(table, i, Item(insert.columns, rows[r]), unique)
    ensures prefer.Plain? || (prefer.MergeDuplicates? && onConflict == "" && pk == "") ==>
              Executed(insert.conflict, table, Item(insert.columns, rows[r]), unique).None?
    ensures prefer.IgnoreDuplicates? ==>
              Executed(insert.conflict, table, Item(insert.columns, rows[r]), unique) == Some(table)
  {
    ExecutedOver(insert.conflict, table, Item(insert.columns, rows[r]), unique, i);
    hide Executed;
    hide LaidOut;
  }
}
