/**
 What the operators of a request mean for the values of a row. One table says what each wire word asks of a value,
 another what PostgreSQL makes of each operator of the printed text; parsing and printing lead from one to the other.
 */
module Operators {
  import opened Wrappers
  import opened Text
  import opened Sql
  import opened Filters
  import opened Printer
  import opened Parser
  import opened Meaning
  import opened Faithful
  import opened RoundTrip
  import opened WireMeaning
  import opened Statements
  import opened QueryText

  /** A column value as the operators see it; a span runs from `lo` to just below `hi`. */
  datatype Cell =
    | Null
    | Whole(n: int)
    | Truth(b: bool)
    | Chars(s: string)
    | Tags(members: set<string>)
    | Span(lo: int, hi: int)

  /**
   The parts of the database that are left open: how a column reads the text of a value, regular expressions with
   and without regard to letter case, and text search.
   */
  datatype Database = Database(
    read: (string, string) -> Cell,
    regex: (string, string) -> bool,
    caseless: (string, string) -> bool,
    search: (Cell, string, string) -> bool)

  type Cells = map<string, Cell>

  function At(row: Cells, column: string): Cell {
    if column in row then row[column] else Null
  }

  // ----- relations between two values

  /** In the order of the column: numbers by size, text by its characters. */
  predicate Below(a: Cell, b: Cell) {
    (a.Whole? && b.Whole? && a.n < b.n) || (a.Chars? && b.Chars? && Precedes(a.s, b.s))
  }

  predicate Precedes(s: string, t: string) {
    t != "" && (s == "" || s[0] < t[0] || (s[0] == t[0] && Precedes(s[1..], t[1..])))
  }

  /** A LIKE pattern: `%` for any text, `_` for any character, and a backslash takes the next character as it is. */
  predicate Fits(s: string, pattern: string)
    decreases |pattern|, |s|
  {
    if pattern == "" then s == ""
    else if pattern[0] == '%' then Fits(s, pattern[1..]) || (s != "" && Fits(s[1..], pattern))
    else if pattern[0] == '\\' && |pattern| > 1 then s != "" && s[0] == pattern[1] && Fits(s[1..], pattern[2..])
    else s != "" && (pattern[0] == '_' || s[0] == pattern[0]) && Fits(s[1..], pattern[1..])
  }

  predicate Holds(a: Cell, b: Cell) {
    (a.Tags? && b.Tags? && b.members <= a.members) || (a.Span? && b.Span? && a.lo <= b.lo && b.hi <= a.hi)
  }

  predicate Meet(a: Cell, b: Cell) {
    (a.Tags? && b.Tags? && a.members * b.members != {}) || (a.Span? && b.Span? && a.lo < b.hi && b.lo < a.hi)
  }

  // ----- the printed text

  /** PostgreSQL's operators (sections 9.2, 9.7, 9.19 and 9.20 of its manual) on two values that are not NULL. */
  predicate Related(symbol: string, x: Cell, v: Cell, db: Database) {
    match symbol
    case "=" => x == v
    case "<>" => x != v
    case "<" => Below(x, v)
    case ">" => Below(v, x)
    case "<=" => x == v || Below(x, v)
    case ">=" => x == v || Below(v, x)
    case "LIKE" => x.Chars? && v.Chars? && Fits(x.s, v.s)
    case "ILIKE" => x.Chars? && v.Chars? && Fits(Lower(x.s), Lower(v.s))
    case "~" => x.Chars? && v.Chars? && db.regex(x.s, v.s)
    case "~*" => x.Chars? && v.Chars? && db.caseless(x.s, v.s)
    case "@>" => Holds(x, v)
    case "<@" => Holds(v, x)
    case "&&" => Meet(x, v)
    case "-|-" => x.Span? && v.Span? && (x.hi == v.lo || v.hi == x.lo)
    case "<<" => x.Span? && v.Span? && x.hi <= v.lo
    case ">>" => x.Span? && v.Span? && v.hi <= x.lo
    case "&<" => x.Span? && v.Span? && x.hi <= v.hi
    case "&>" => x.Span? && v.Span? && v.lo <= x.lo
    case _ => false
  }

  predicate Tested(what: string, x: Cell) {
    match what
    case "NULL" => x.Null?
    case "TRUE" => x == Cell.Truth(true)
    case "FALSE" => x == Cell.Truth(false)
    case _ => false
  }

  function Answer(x: Cell, v: Cell, related: bool): Sql.Truth {
    if x.Null? || v.Null? then Unknown else if related then True else False
  }

  /** A row of the database, as the conditions of the printed text see it. */
  function RowWorld(row: Cells, db: Database): World {
    World(
      (column, symbol, text) =>
        Answer(At(row, column), db.read(column, text),
               Related(symbol, At(row, column), db.read(column, text), db)),
      (column, language, term) =>
        if At(row, column).Null? then Unknown else if db.search(At(row, column), language, term) then True else False,
      (column, what) => Tested(what, At(row, column)))
  }

  // ----- the words of a request

  /** What `column=<word>.<value>` asks of the column's value `x`, when its text stands for `v`. */
  predicate Asks(word: string, x: Cell, v: Cell, db: Database) {
    match word
    case "eq" => x == v
    case "neq" => x != v
    case "gt" => Below(v, x)
    case "gte" => Below(v, x) || x == v
    case "lt" => Below(x, v)
    case "lte" => Below(x, v) || x == v
    case "like" => x.Chars? && v.Chars? && Fits(x.s, v.s)
    case "ilike" => x.Chars? && v.Chars? && Fits(Lower(x.s), Lower(v.s))
    case "match" => x.Chars? && v.Chars? && db.regex(x.s, v.s)
    case "imatch" => x.Chars? && v.Chars? && db.caseless(x.s, v.s)
    case "cs" => Holds(x, v)
    case "cd" => Holds(v, x)
    case "ov" => Meet(x, v)
    case "adj" => x.Span? && v.Span? && (x.hi == v.lo || v.hi == x.lo)
    case "sl" => x.Span? && v.Span? && x.hi <= v.lo
    case "sr" => x.Span? && v.Span? && v.hi <= x.lo
    case "nsr" => x.Span? && v.Span? && x.hi <= v.hi
    case "nsl" => x.Span? && v.Span? && v.lo <= x.lo
    case _ => false
  }

  /** `x` is one of the values, by SQL's rules for NULL. */
  ghost function OneOf(x: Cell, vs: set<Cell>): Sql.Truth {
    if vs == {} then False
    else if !x.Null? && x in vs then True
    else if x.Null? || Cell.Null in vs then Unknown
    else False
  }

  /** What a filter of the request asks of the row: a comparison, a list or a test. */
  ghost function Wanted(column: string, word: string, text: string, row: Cells, db: Database): Sql.Truth {
    var x := At(row, column);
    if word == "is" then
      if || (Lower(text) == "null" && x.Null?)
         || (Lower(text) == "true" && x == Cell.Truth(true))
         || (Lower(text) == "false" && x == Cell.Truth(false)) then True else False
    else if word == "in" then OneOf(x, set value | value in InValues(text) :: db.read(column, value))
    else Answer(x, db.read(column, text), Asks(word, x, db.read(column, text), db))
  }

  lemma OneMore(x: Cell, v: Cell, vs: set<Cell>)
    ensures OneOf(x, {v} + vs) == Or3(Answer(x, v, x == v), OneOf(x, vs))
  {
    assert v in {v} + vs;
  }

  lemma {:induction false} MemberIsOneOf(row: Cells, db: Database, column: string, values: seq<string>)
    ensures Member(RowWorld(row, db), column, values)
            == OneOf(At(row, column), set value | value in values :: db.read(column, value))
  {
    if values != [] {
      MemberIsOneOf(row, db, column, values[1..]);
      var first := db.read(column, values[0]);
      var rest := set value | value in values[1..] :: db.read(column, value);
      assert (set value | value in values :: db.read(column, value)) == {first} + rest by {
        assert forall value :: value in values <==> value == values[0] || value in values[1..];
      }
      OneMore(At(row, column), first, rest);
      hide OneOf;
      assert RowWorld(row, db).compare(column, "=", values[0])
          == Answer(At(row, column), first, At(row, column) == first);
    }
  }

  lemma ComparisonAsks(op: Operator, x: Cell, v: Cell, db: Database)
    requires !op.Is? && !op.Among?
    ensures Related(Symbol(op), x, v, db) <==> Asks(OperatorText(op), x, v, db)
  {
  }

  lemma WordIsComparison(op: Operator)
    ensures OperatorText(op) == "is" <==> op.Is?
    ensures OperatorText(op) == "in" <==> op.Among?
  {
  }

  lemma TestAsks(text: string, x: Cell)
    ensures IsWord(text).Some? && Tested(IsWord(text).value, x) <==>
            || (Lower(text) == "null" && x.Null?)
            || (Lower(text) == "true" && x == Cell.Truth(true))
            || (Lower(text) == "false" && x == Cell.Truth(false))
  {
  }

  /** A filter means for a row what its word asks of the row. */
  lemma FilterAsks(f: Filter, row: Cells, db: Database)
    ensures FilterMeans(f, RowWorld(row, db))
            == Negated(f.negate, Wanted(f.column, OperatorText(f.operator), f.value, row, db))
  {
    hide Asks;
    hide Related;
    hide InValues;
    hide OneOf;
    if f.operator.Is? {
      TestAsks(f.value, At(row, f.column));
    } else if f.operator.Among? {
      MemberIsOneOf(row, db, f.column, InValues(f.value));
    } else {
      WordIsComparison(f.operator);
      ComparisonAsks(f.operator, At(row, f.column), db.read(f.column, f.value), db);
    }
  }

  /** An IS value other than NULL, TRUE and FALSE, in any letter case, is refused. */
  lemma OtherTestsAreRefused(f: Filter, i: nat)
    ensures PrintFilter(f, i).Err? <==> f.operator.Is? && Lower(f.value) !in {"null", "true", "false"}
  {
    hide InValues;
    hide Symbol;
  }

  // ----- from the request to the rows

  const WORDS := {"eq", "neq", "gt", "gte", "lt", "lte", "like", "ilike", "in", "is", "match", "imatch", "cs", "cd",
                  "ov", "adj", "sl", "sr", "nsr", "nsl"}

  lemma WordsRead(word: string)
    ensures ReadOperator(word).Some? <==> word in WORDS
    ensures ReadOperator(word).Some? ==> OperatorText(ReadOperator(word).value) == word
  {
  }

  lemma StartsWithWord(text: string, word: string)
    requires word in WORDS && HasPrefix(text, word + ".")
    ensures Index(text, '.') == |word| && text[..|word|] == word && word != ""
  {
    assert '.' !in word;
    assert text[..|word|] == (word + ".")[..|word|];
    assert text[|word|] == (word + ".")[|word|];
    IndexIs(text, '.', |word|);
  }

  lemma StartsSo(text: string, word: string)
    requires Index(text, '.') == |word| < |text| && text[..|word|] == word
    ensures HasPrefix(text, word + ".")
  {
  }

  /** `column=text` asks for equality with the whole text exactly when it starts with no word and holds no modifier. */
  lemma BareValueIsEqualityIff(column: string, text: string, columns: set<string>)
    requires column in columns
    ensures ParseFilter(column, text, false, columns) == Ok(Filter(column, Eq, text, false, "")) <==>
            && !HasPrefix(text, "not.")
            && CutModifier(text) == (text, "")
            && forall word :: word in WORDS ==> !HasPrefix(text, word + ".")
  {
    var dot := Index(text, '.');
    WordsRead(text[..dot]);
    if word :| word in WORDS && HasPrefix(text, word + ".") {
      StartsWithWord(text, word);
    } else if 0 < dot < |text| && text[..dot] in WORDS {
      StartsSo(text, text[..dot]);
    }
    hide ReadOperator;
    hide OperatorText;
    hide Index;
  }

  /** `f` is the one condition of the request. */
  ghost predicate Only(f: Filter, q: Where) {
    q.filters != [] && q.logicals == [] && q.fts == [] && forall g :: g in q.filters ==> g == f
  }

  lemma FirstIsIn<T>(s: seq<T>)
    ensures s != [] ==> s[0] in s
  {
  }

  lemma OneKeyParses(key: string, value: string, f: Filter, columns: set<string>, q: Where)
    requires ParseKey(key, value, columns) == Ok(OneFilter(f)) && Parsed(map[key := value], columns, q)
    ensures Only(f, q)
  {
    hide ParseKey;
    assert f in q.filters by {
      assert key in map[key := value];
    }
    FirstIsIn(q.logicals);
    FirstIsIn(q.fts);
  }

  lemma PlainKeyParses(f: Filter, columns: set<string>)
    requires Writable(Plain(f), columns)
    ensures ParseKey(f.column, FilterText(f), columns) == Ok(OneFilter(f))
  {
    TopFilterReads(f, false, columns);
    hide ParseFilter;
    hide FilterText;
  }

  lemma OneFilterMeans(f: Filter, q: Where, language: string, w: World)
    requires Only(f, q)
    ensures WhereMeans(q, language, w) == FilterMeans(f, w)
    ensures (GoodWhere(q) <==> GoodFilter(f)) && !PrintsNothing(q)
  {
    hide FilterMeans;
    var ts := FiltersMean(q.filters, w) + LogicalsMean([], w) + FtsListMeans([], language, w);
    All3Is(ts);
    FirstIsIn(q.filters);
    assert ts[0] == FilterMeans(f, w);
    assert forall k :: 0 <= k < |q.filters| ==> q.filters[k] in q.filters;
    assert ts == FiltersMean(q.filters, w);
    assert forall t :: t in ts ==> t == FilterMeans(f, w);
  }

  /**
   The request `column=[not.]word.text`, parsed, printed and read by the database, picks exactly the rows whose value
   is as the word asks, or as it does not ask, by SQL's rules for NULL. A list must have values.
   */
  lemma RequestPicksIff(column: string, negated: bool, word: string, text: string, columns: set<string>, q: Where,
                        language: string, i: nat, args: seq<string>, row: Cells, db: Database)
    requires column in columns && column !in RESERVED_KEYS && !HasPrefix(column, "_not.")
    requires word in WORDS && CutModifier(word + "." + text) == (word + "." + text, "")
    requires Parsed(map[column := (if negated then "not." else "") + word + "." + text], columns, q)
    requires PrintWhere(q, language, i).Ok? && BoundFrom(args, i, PrintWhere(q, language, i).value.args)
    ensures Picks(PrintWhere(q, language, i).value.tokens, args, RowWorld(row, db)) <==>
            && (word == "in" ==> InValues(text) != [])
            && Wanted(column, word, text, row, db) == if negated then False else True
  {
    WordsRead(word);
    var f := Filter(column, ReadOperator(word).value, text, negated, "");
    WordIsComparison(f.operator);
    PlainKeyParses(f, columns);
    hide *;
    OneKeyParses(column, FilterText(f), f, columns, q);
    OneFilterMeans(f, q, language, RowWorld(row, db));
    FilterAsks(f, row, db);
    PicksIff(q, language, i, RowWorld(row, db), args);
  }
}
