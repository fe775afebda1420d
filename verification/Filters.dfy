/** The parsed filters of a request, and what they mean for a row, independent of any SQL text. */
module Filters {
  import opened Wrappers
  import opened Sql
  import opened Text

  datatype Operator =
    | Eq | Neq | Gt | Gte | Lt | Lte | Like | Ilike | Among | Is | Regex | IRegex
    | Contains | Contained | Overlaps | Adjacent | StrictlyLeft | StrictlyRight | NotStrictlyLeft | NotStrictlyRight

  /** The SQL operator; IN and IS are printed otherwise and would fall back to equality. */
  function Symbol(op: Operator): string {
    match op
    case Eq => "="
    case Neq => "<>"
    case Gt => ">"
    case Gte => ">="
    case Lt => "<"
    case Lte => "<="
    case Like => "LIKE"
    case Ilike => "ILIKE"
    case Regex => "~"
    case IRegex => "~*"
    case Contains => "@>"
    case Contained => "<@"
    case Overlaps => "&&"
    case Adjacent => "-|-"
    case StrictlyLeft => "<<"
    case StrictlyRight => ">>"
    case NotStrictlyLeft => "&<"
    case NotStrictlyRight => "&>"
    case Among => "="
    case Is => "="
  }

  datatype Filter = Filter(column: string, operator: Operator, value: string, negate: bool, modifier: string)
  datatype LogicalOp = AllOf | AnyOf | NoneOf
  datatype Logical = Logical(op: LogicalOp, filters: seq<Filter>, logicals: seq<Logical>)
  datatype Fts = Fts(column: string, term: string, negate: bool)
  datatype Where = Where(filters: seq<Filter>, logicals: seq<Logical>, fts: seq<Fts>)

  // ----- values of IN and IS

  /** The splitting loop of an IN list. A quote raises the depth for good, and is dropped. */
  function SplitIn(s: string, depth: nat, current: string): seq<string> {
    if s == [] then
      if current == [] then [] else [TrimSpace(current)]
    else if s[0] == '"' then SplitIn(s[1..], depth + 1, current)
    else if s[0] == ',' && depth == 0 then [TrimSpace(current)] + SplitIn(s[1..], 0, "")
    else SplitIn(s[1..], depth, current + [s[0]])
  }

  function InValues(value: string): seq<string> {
    SplitIn(TrimParens(value), 0, "")
  }

  /** NULL, TRUE or FALSE in any letter case. */
  function IsWord(value: string): Option<string> {
    var v := Lower(value);
    if v == "null" then Some("NULL")
    else if v == "true" then Some("TRUE")
    else if v == "false" then Some("FALSE")
    else None
  }

  // ----- meaning

  function Negated(negate: bool, t: Truth): Truth {
    if negate then Not3(t) else t
  }

  function FilterMeans(f: Filter, w: World): Truth {
    Negated(f.negate,
      if f.operator.Is? then
        if IsWord(f.value).Some? && w.test(f.column, IsWord(f.value).value) then True else False
      else if f.operator.Among? then Member(w, f.column, InValues(f.value))
      else w.compare(f.column, Symbol(f.operator), f.value))
  }

  function FtsMeans(f: Fts, language: string, w: World): Truth {
    Negated(f.negate, w.matches(f.column, language, f.term))
  }

  function All3(ts: seq<Truth>): Truth {
    if ts == [] then True else And3(ts[0], All3(ts[1..]))
  }

  function Any3(ts: seq<Truth>): Truth {
    if ts == [] then False else Or3(ts[0], Any3(ts[1..]))
  }

  function FiltersMean(fs: seq<Filter>, w: World): (ts: seq<Truth>)
    ensures |ts| == |fs|
  {
    seq(|fs|, i requires 0 <= i < |fs| => FilterMeans(fs[i], w))
  }

  function GroupMeans(op: LogicalOp, parts: seq<Truth>): Truth {
    match op
    case AllOf => All3(parts)
    case AnyOf => Any3(parts)
    case NoneOf => Not3(All3(parts))
  }

  function LogicalMeans(l: Logical, w: World): Truth
    decreases l, 1
  {
    GroupMeans(l.op, FiltersMean(l.filters, w) + LogicalsMean(l.logicals, w))
  }

  function LogicalsMean(ls: seq<Logical>, w: World): (ts: seq<Truth>)
    ensures |ts| == |ls|
    decreases ls, 0
  {
    if ls == [] then [] else [LogicalMeans(ls[0], w)] + LogicalsMean(ls[1..], w)
  }

  function FtsListMeans(fs: seq<Fts>, language: string, w: World): (ts: seq<Truth>)
    ensures |ts| == |fs|
  {
    seq(|fs|, i requires 0 <= i < |fs| => FtsMeans(fs[i], language, w))
  }

  /** The condition of a whole request: all its filters, groups and text searches. */
  function WhereMeans(q: Where, language: string, w: World): Truth {
    All3(FiltersMean(q.filters, w) + LogicalsMean(q.logicals, w) + FtsListMeans(q.fts, language, w))
  }
}
