/** The wire syntax of filters, parsed as the repository does it, with its quirks. */
module Parser {
  import opened Wrappers
  import opened Text
  import opened Filters

  datatype Fault =
    | UnknownColumn(column: string)
    | InvalidCondition(text: string)
    | InvalidOperator(text: string)
    | InvalidSearch(text: string)

  function OperatorText(op: Operator): string {
    match op
    case Eq => "eq"
    case Neq => "neq"
    case Gt => "gt"
    case Gte => "gte"
    case Lt => "lt"
    case Lte => "lte"
    case Like => "like"
    case Ilike => "ilike"
    case Among => "in"
    case Is => "is"
    case Regex => "match"
    case IRegex => "imatch"
    case Contains => "cs"
    case Contained => "cd"
    case Overlaps => "ov"
    case Adjacent => "adj"
    case StrictlyLeft => "sl"
    case StrictlyRight => "sr"
    case NotStrictlyLeft => "nsr"
    case NotStrictlyRight => "nsl"
  }

  function ReadOperator(s: string): Option<Operator> {
    if s == "eq" then Some(Eq) else if s == "neq" then Some(Neq)
    else if s == "gt" then Some(Gt) else if s == "gte" then Some(Gte)
    else if s == "lt" then Some(Lt) else if s == "lte" then Some(Lte)
    else if s == "like" then Some(Like) else if s == "ilike" then Some(Ilike)
    else if s == "in" then Some(Among) else if s == "is" then Some(Is)
    else if s == "match" then Some(Regex) else if s == "imatch" then Some(IRegex)
    else if s == "cs" then Some(Contains) else if s == "cd" then Some(Contained)
    else if s == "ov" then Some(Overlaps) else if s == "adj" then Some(Adjacent)
    else if s == "sl" then Some(StrictlyLeft) else if s == "sr" then Some(StrictlyRight)
    else if s == "nsr" then Some(NotStrictlyLeft) else if s == "nsl" then Some(NotStrictlyRight)
    else None
  }

  const NOT_DOT := "not."

  // ----- groups

  /** The splitting loop: commas at depth zero separate, and the depth may go below zero. */
  function Split(s: string, depth: int, current: string): (parts: seq<string>)
    ensures forall k :: 0 <= k < |parts| ==> |parts[k]| <= |current| + |s|
  {
    if s == [] then
      if current == [] then [] else [current]
    else if s[0] == '(' then Split(s[1..], depth + 1, current + [s[0]])
    else if s[0] == ')' then Split(s[1..], depth - 1, current + [s[0]])
    else if s[0] == ',' && depth == 0 then [current] + Split(s[1..], 0, "")
    else Split(s[1..], depth, current + [s[0]])
  }

  function ParseCondition(text: string, columns: set<string>): Result<Filter, Fault> {
    var negate := HasPrefix(text, NOT_DOT);
    var cond := if negate then text[4..] else text;
    if '.' !in cond then Err(InvalidCondition(cond))
    else
      var col, rest := BeforeDot(cond), AfterDot(cond);
      if col !in columns then Err(UnknownColumn(col))
      else if '.' !in rest then Ok(Filter(col, Eq, rest, negate, ""))
      else
        var op := ReadOperator(BeforeDot(rest));
        if op.None? then Err(InvalidOperator(BeforeDot(rest)))
        else Ok(Filter(col, op.value, AfterDot(rest), negate, ""))
  }

  /** The text of a negated subgroup, after `not.or.` or `not.and.`. */
  function SubgroupText(part: string): (r: Option<string>)
    ensures r.Some? ==> |r.value| < |part|
  {
    if !HasPrefix(part, NOT_DOT) then None
    else
      var inner := part[4..];
      if '.' in inner && (BeforeDot(inner) == "or" || BeforeDot(inner) == "and") then Some(AfterDot(inner)) else None
  }

  datatype Members = Members(filters: seq<Filter>, logicals: seq<Logical>)

  function ParseLogical(op: LogicalOp, text: string, columns: set<string>): Result<Logical, Fault>
    decreases |text|, 1, 0
  {
    var members :- ParseParts(Split(TrimParens(text), 0, ""), columns, |text|);
    Ok(Logical(op, members.filters, members.logicals))
  }

  /** The conditions of a group. A subgroup is negated and forgets whether it said `or` or `and`. */
  function ParseParts(parts: seq<string>, columns: set<string>, bound: nat): Result<Members, Fault>
    requires forall k :: 0 <= k < |parts| ==> |parts[k]| <= bound
    decreases bound, 0, |parts|
  {
    if parts == [] then Ok(Members([], []))
    else
      var part := TrimSpace(parts[0]);
      if part == "" then ParseParts(parts[1..], columns, bound)
      else if SubgroupText(part).Some? then
        var group :- ParseLogical(NoneOf, SubgroupText(part).value, columns);
        var rest :- ParseParts(parts[1..], columns, bound);
        Ok(Members(rest.filters, [group] + rest.logicals))
      else
        var filter :- ParseCondition(part, columns);
        var rest :- ParseParts(parts[1..], columns, bound);
        Ok(Members([filter] + rest.filters, rest.logicals))
  }

  // ----- conditions on one column, and text search

  /** Removes `(any)` or `(all)` when the first parenthesis holds it. */
  function CutModifier(value: string): (string, string) {
    var open, close := Index(value, '('), Index(value, ')');
    if 0 < open < close < |value| && (value[open + 1..close] == "any" || value[open + 1..close] == "all")
    then (value[..open] + value[close + 1..], value[open + 1..close])
    else (value, "")
  }

  function ParseFilter(column: string, text: string, negate: bool, columns: set<string>): Result<Filter, Fault> {
    if column !in columns then Err(UnknownColumn(column))
    else
      var negated := HasPrefix(text, NOT_DOT);
      var (value, modifier) := CutModifier(if negated then text[4..] else text);
      var dot := Index(value, '.');
      if 0 < dot < |value| && ReadOperator(value[..dot]).Some? then
        Ok(Filter(column, ReadOperator(value[..dot]).value, value[dot + 1..], negate != negated, modifier))
      else Ok(Filter(column, Eq, value, negate != negated, modifier))
  }

  function ParseFts(text: string, columns: set<string>): Result<Fts, Fault> {
    var negate := HasPrefix(text, NOT_DOT);
    var value := if negate then text[4..] else text;
    if '.' !in value || BeforeDot(value) == "" then Err(InvalidSearch(value))
    else if BeforeDot(value) !in columns then Err(UnknownColumn(BeforeDot(value)))
    else Ok(Fts(BeforeDot(value), AfterDot(value), negate))
  }

  // ----- a whole query

  datatype Condition = NoCondition | OneFilter(filter: Filter) | OneGroup(group: Logical) | OneSearch(search: Fts)

  const NOT_KEY := "_not."

  /** What one key of the query contributes to the condition. */
  function ParseKey(key: string, value: string, columns: set<string>): Result<Condition, Fault> {
    if key in {"_select", "_order", "_limit", "_offset", "_count"} then Ok(NoCondition)
    else if key == "_or" || key == "_and" then
      var group :- ParseLogical(if key == "_or" then AnyOf else AllOf, value, columns);
      Ok(OneGroup(group))
    else if key == "_fts" then
      var search :- ParseFts(value, columns);
      Ok(OneSearch(search))
    else if HasPrefix(key, NOT_KEY) then
      var subkey := key[5..];
      if subkey == "or" || subkey == "and" then
        var group :- ParseLogical(NoneOf, value, columns);
        Ok(OneGroup(group))
      else
        var filter :- ParseFilter(subkey, value, true, columns);
        Ok(OneFilter(filter))
    else
      var filter :- ParseFilter(key, value, false, columns);
      Ok(OneFilter(filter))
  }

  /** `q` holds what the keys of the query contribute, in some order. */
  ghost predicate Parsed(pairs: map<string, string>, columns: set<string>, q: Where) {
    && (forall k :: k in pairs ==> ParseKey(k, pairs[k], columns).Ok?)
    && (forall f :: f in q.filters <==> exists k :: k in pairs && ParseKey(k, pairs[k], columns) == Ok(OneFilter(f)))
    && (forall g :: g in q.logicals <==> exists k :: k in pairs && ParseKey(k, pairs[k], columns) == Ok(OneGroup(g)))
    && (forall f :: f in q.fts <==> exists k :: k in pairs && ParseKey(k, pairs[k], columns) == Ok(OneSearch(f)))
  }

  // ----- the loops

  lemma SplitStep(s: string, i: nat, depth: int, current: string)
    requires i < |s|
    ensures Split(s[i..], depth, current) ==
            if s[i] == '(' then Split(s[i + 1..], depth + 1, current + [s[i]])
            else if s[i] == ')' then Split(s[i + 1..], depth - 1, current + [s[i]])
            else if s[i] == ',' && depth == 0 then [current] + Split(s[i + 1..], 0, "")
            else Split(s[i + 1..], depth, current + [s[i]])
  {
    assert s[i..][1..] == s[i + 1..];
  }

  method SplitLogicalConditions(s: string) returns (parts: seq<string>)
    ensures parts == Split(s, 0, "")
  {
    parts := [];
    var depth, current, i := 0, "", 0;
    assert s[0..] == s;
    while i < |s|
      invariant 0 <= i <= |s|
      invariant parts + Split(s[i..], depth, current) == Split(s, 0, "")
    {
      SplitStep(s, i, depth, current);
      if s[i] == '(' {
        depth := depth + 1;
        current := current + [s[i]];
      } else if s[i] == ')' {
        depth := depth - 1;
        current := current + [s[i]];
      } else if s[i] == ',' && depth == 0 {
        parts := parts + [current];
        current := "";
      } else {
        current := current + [s[i]];
      }
      i := i + 1;
    }
    if current != [] {
      parts := parts + [current];
    }
  }

  function Gathered(done: Members, rest: Result<Members, Fault>): Result<Members, Fault> {
    if rest.Err? then rest else Ok(Members(done.filters + rest.value.filters, done.logicals + rest.value.logicals))
  }

  lemma PartsStep(done: Members, parts: seq<string>, i: nat, columns: set<string>, bound: nat)
    requires i < |parts| && forall k :: 0 <= k < |parts| ==> |parts[k]| <= bound
    ensures var part := TrimSpace(parts[i]);
            var rest := ParseParts(parts[i + 1..], columns, bound);
            Gathered(done, ParseParts(parts[i..], columns, bound)) ==
            if part == "" then Gathered(done, rest)
            else if SubgroupText(part).Some? then
              var group := ParseLogical(NoneOf, SubgroupText(part).value, columns);
              if group.Err? then Err(group.fault)
              else Gathered(Members(done.filters, done.logicals + [group.value]), rest)
            else
              var filter := ParseCondition(part, columns);
              if filter.Err? then Err(filter.fault)
              else Gathered(Members(done.filters + [filter.value], done.logicals), rest)
  {
    hide ParseCondition;
    hide SubgroupText;
    hide TrimSpace;
    assert parts[i..][1..] == parts[i + 1..];
    var rest := ParseParts(parts[i + 1..], columns, bound);
    var part := TrimSpace(parts[i]);
    if rest.Ok? && part != "" {
      if SubgroupText(part).Some? {
        var group := ParseLogical(NoneOf, SubgroupText(part).value, columns);
        if group.Ok? {
          assert done.logicals + ([group.value] + rest.value.logicals)
              == done.logicals + [group.value] + rest.value.logicals;
        }
      } else {
        var filter := ParseCondition(part, columns);
        if filter.Ok? {
          assert done.filters + ([filter.value] + rest.value.filters)
              == done.filters + [filter.value] + rest.value.filters;
        }
      }
    }
  }

  method ParseLogicalFilter(op: LogicalOp, text: string, columns: set<string>) returns (r: Result<Logical, Fault>)
    ensures r == ParseLogical(op, text, columns)
    decreases |text|
  {
    hide TrimParens;
    hide ParseCondition;
    hide SubgroupText;
    hide TrimSpace;
    var parts := SplitLogicalConditions(TrimParens(text));
    ghost var whole := ParseParts(parts, columns, |text|);
    var filters: seq<Filter>, logicals: seq<Logical> := [], [];
    var i := 0;
    assert parts[0..] == parts;
    assert whole.Ok? ==> [] + whole.value.filters == whole.value.filters;
    assert whole.Ok? ==> [] + whole.value.logicals == whole.value.logicals;
    while i < |parts|
      invariant 0 <= i <= |parts|
      invariant whole == Gathered(Members(filters, logicals), ParseParts(parts[i..], columns, |text|))
    {
      PartsStep(Members(filters, logicals), parts, i, columns, |text|);
      var part := TrimSpace(parts[i]);
      if part != "" {
        if SubgroupText(part).Some? {
          var group := ParseLogicalFilter(NoneOf, SubgroupText(part).value, columns);
          if group.Err? {
            return Err(group.fault);
          }
          logicals := logicals + [group.value];
        } else {
          var filter := ParseCondition(part, columns);
          if filter.Err? {
            return Err(filter.fault);
          }
          filters := filters + [filter.value];
        }
      }
      i := i + 1;
    }
    assert filters + [] == filters && logicals + [] == logicals;
    return Ok(Logical(op, filters, logicals));
  }

  /** Walks the query map in whatever order it yields its keys. */
  method Parse(pairs: map<string, string>, columns: set<string>) returns (r: Result<Where, Fault>)
    ensures r.Ok? <==> forall k :: k in pairs ==> ParseKey(k, pairs[k], columns).Ok?
    ensures r.Ok? ==> Parsed(pairs, columns, r.value)
  {
    var q := Where([], [], []);
    var left := pairs.Keys;
    ghost var done: map<string, string> := map[];
    while left != {}
      invariant left <= pairs.Keys && done.Keys == pairs.Keys - left
      invariant forall k :: k in done ==> done[k] == pairs[k]
      invariant Parsed(done, columns, q)
      decreases left
    {
      var k :| k in left;
      var c := ParseKey(k, pairs[k], columns);
      if c.Err? {
        return Err(c.fault);
      }
      var grown := match c.value
        case NoCondition => q
        case OneFilter(f) => q.(filters := q.filters + [f])
        case OneGroup(g) => q.(logicals := q.logicals + [g])
        case OneSearch(f) => q.(fts := q.fts + [f]);
      ParsedGrows(done, columns, q, k, pairs[k], grown);
      q := grown;
      done := done[k := pairs[k]];
      left := left - {k};
    }
    assert done == pairs;
    return Ok(q);
  }

  lemma ParsedGrows(done: map<string, string>, columns: set<string>, q: Where, key: string, value: string, grown: Where)
    requires Parsed(done, columns, q) && key !in done && ParseKey(key, value, columns).Ok?
    requires grown == match ParseKey(key, value, columns).value
                      case NoCondition => q
                      case OneFilter(f) => q.(filters := q.filters + [f])
                      case OneGroup(g) => q.(logicals := q.logicals + [g])
                      case OneSearch(f) => q.(fts := q.fts + [f])
    ensures Parsed(done[key := value], columns, grown)
  {
    hide ParseKey;
    var more := done[key := value];
    var c := ParseKey(key, value, columns);
    assert key in more;
    assert forall k :: k in more ==> k == key || (k in done && more[k] == done[k]);
    forall f ensures (exists k :: k in more && ParseKey(k, more[k], columns) == Ok(OneFilter(f))) <==>
                     || c == Ok(OneFilter(f))
                     || exists k :: k in done && ParseKey(k, done[k], columns) == Ok(OneFilter(f)) {
      assert forall k :: k in done ==> k in more;
    }
    forall g ensures (exists k :: k in more && ParseKey(k, more[k], columns) == Ok(OneGroup(g))) <==>
                     c == Ok(OneGroup(g)) || exists k :: k in done && ParseKey(k, done[k], columns) == Ok(OneGroup(g)) {
      assert forall k :: k in done ==> k in more;
    }
    forall f ensures (exists k :: k in more && ParseKey(k, more[k], columns) == Ok(OneSearch(f))) <==>
                     || c == Ok(OneSearch(f))
                     || exists k :: k in done && ParseKey(k, done[k], columns) == Ok(OneSearch(f)) {
      assert forall k :: k in done ==> k in more;
    }
  }
}
