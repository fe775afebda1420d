/** A whole query, from the conditions a client writes under each key to what the parsed request means. */
module QueryText {
  import opened Wrappers
  import opened Text
  import opened Sql
  import opened Filters
  import opened Parser
  import opened RoundTrip
  import opened WireMeaning
  import opened Statements

  /** What one key of the query is to ask for. */
  datatype Entry =
    | Plain(filter: Filter)
    | Negative(filter: Filter)
    | AnyOfThem(members: Members)
    | AllOfThem(members: Members)
    | NotAnyOfThem(members: Members)
    | NotAllOfThem(members: Members)
    | Search(fts: Fts)
    | Setting(key: string, value: string)

  function KeyOf(e: Entry): string {
    match e
    case Plain(f) => f.column
    case Negative(f) => "_not." + f.column
    case AnyOfThem(_) => "_or"
    case AllOfThem(_) => "_and"
    case NotAnyOfThem(_) => "_not.or"
    case NotAllOfThem(_) => "_not.and"
    case Search(_) => "_fts"
    case Setting(key, _) => key
  }

  function FilterText(f: Filter): string {
    (if f.negate then "not." else "") + OperatorText(f.operator) + "." + f.value
  }

  function TextOf(e: Entry): string {
    match e
    case Plain(f) => FilterText(f)
    case Negative(f) => FilterText(f)
    case AnyOfThem(m) => WireLogical(Logical(AnyOf, m.filters, m.logicals))
    case AllOfThem(m) => WireLogical(Logical(AllOf, m.filters, m.logicals))
    case NotAnyOfThem(m) => WireLogical(Logical(AnyOf, m.filters, m.logicals))
    case NotAllOfThem(m) => WireLogical(Logical(AllOf, m.filters, m.logicals))
    case Search(f) => (if f.negate then "not." else "") + (f.column + "." + f.term)
    case Setting(_, value) => value
  }

  function QueryMap(es: seq<Entry>): map<string, string> {
    if es == [] then map[] else QueryMap(es[1..])[KeyOf(es[0]) := TextOf(es[0])]
  }

  /** Keys that say how to answer, not which rows. */
  const SETTINGS := {"_select", "_order", "_limit", "_offset", "_count"}

  /** Keys that do not name a column. */
  const RESERVED_KEYS := SETTINGS + {"_or", "_and", "_fts"}

  ghost predicate Writable(e: Entry, columns: set<string>) {
    match e
    case Plain(f) =>
      && f.column in columns && f.modifier == "" && FreeOfModifier(f)
      && f.column !in RESERVED_KEYS && !HasPrefix(f.column, "_not.")
    case Negative(f) =>
      f.column in columns && f.modifier == "" && FreeOfModifier(f) && f.column != "or" && f.column != "and"
    case Search(f) =>
      f.column in columns && f.column != "" && '.' !in f.column && (!f.negate ==> f.column != "not")
    case Setting(key, _) => key in SETTINGS
    case AnyOfThem(m) => LegalLogical(Logical(AnyOf, m.filters, m.logicals), columns)
    case AllOfThem(m) => LegalLogical(Logical(AllOf, m.filters, m.logicals), columns)
    case NotAnyOfThem(m) => LegalLogical(Logical(AnyOf, m.filters, m.logicals), columns)
    case NotAllOfThem(m) => LegalLogical(Logical(AllOf, m.filters, m.logicals), columns)
  }

  /** Every condition can be written, and no key is written twice. */
  ghost predicate AllWritable(es: seq<Entry>, columns: set<string>) {
    && (forall i :: 0 <= i < |es| ==> Writable(es[i], columns))
    && (forall i, j :: 0 <= i < j < |es| ==> KeyOf(es[i]) != KeyOf(es[j]))
  }

  // ----- meaning

  function MembersMean(m: Members, w: World): seq<Truth> {
    FiltersMean(m.filters, w) + LogicalsMean(m.logicals, w)
  }

  function EntryMeans(e: Entry, language: string, w: World): Truth {
    match e
    case Plain(f) => FilterMeans(f, w)
    case Negative(f) => Not3(FilterMeans(f, w))
    case AnyOfThem(m) => Any3(MembersMean(m, w))
    case AllOfThem(m) => All3(MembersMean(m, w))
    case NotAnyOfThem(m) => Not3(All3(MembersMean(m, w)))
    case NotAllOfThem(m) => Not3(All3(MembersMean(m, w)))
    case Search(f) => FtsMeans(f, language, w)
    case Setting(_, _) => True
  }

  function EntriesMean(es: seq<Entry>, language: string, w: World): (ts: seq<Truth>)
    ensures |ts| == |es|
  {
    seq(|es|, i requires 0 <= i < |es| => EntryMeans(es[i], language, w))
  }

  function ConditionMeans(c: Condition, language: string, w: World): Truth {
    match c
    case NoCondition => True
    case OneFilter(f) => FilterMeans(f, w)
    case OneGroup(g) => LogicalMeans(g, w)
    case OneSearch(f) => FtsMeans(f, language, w)
  }

  // ----- the same tree means the same

  lemma {:induction false} SameFiltersMean(fs: seq<Filter>, gs: seq<Filter>, w: World)
    requires SameFilters(fs, gs)
    ensures FiltersMean(gs, w) == FiltersMean(fs, w)
  {
    hide InValues;
    hide IsWord;
    forall i | 0 <= i < |fs| ensures FilterMeans(gs[i], w) == FilterMeans(fs[i], w) {
      assert SameFilter(fs[i], gs[i]);
    }
  }

  lemma {:induction false} SameLogicalMeans(a: Logical, b: Logical, w: World)
    requires SameLogical(a, b)
    ensures LogicalMeans(b, w) == LogicalMeans(a, w)
    ensures LogicalsMean(b.logicals, w) == LogicalsMean(a.logicals, w)
    ensures FiltersMean(b.filters, w) == FiltersMean(a.filters, w)
    decreases a, 1
  {
    SameFiltersMean(a.filters, b.filters, w);
    SameLogicalsMean(a.logicals, b.logicals, w);
  }

  lemma {:induction false} SameLogicalsMean(a: seq<Logical>, b: seq<Logical>, w: World)
    requires SameLogicals(a, b)
    ensures LogicalsMean(b, w) == LogicalsMean(a, w)
    decreases a, 0
  {
    if a != [] && b != [] {
      SameLogicalMeans(a[0], b[0], w);
      SameLogicalsMean(a[1..], b[1..], w);
    }
  }

  // ----- one key

  lemma MembersRead(wire: LogicalOp, op: LogicalOp, m: Members, columns: set<string>, w: World)
    requires LegalLogical(Logical(wire, m.filters, m.logicals), columns)
    ensures var r := ParseLogical(op, WireLogical(Logical(wire, m.filters, m.logicals)), columns);
            r.Ok? && LogicalMeans(r.value, w) == GroupMeans(op, MembersMean(m, w))
  {
    var l := Logical(wire, m.filters, m.logicals);
    WireRoundTrips(l, columns);
    SameLogicalMeans(l, ParseLogical(wire, WireLogical(l), columns).value, w);
    hide LogicalsMean;
    hide FiltersMean;
    hide WireLogical;
  }

  lemma NegatedText(text: string, negate: bool)
    requires BeforeDot(text) != "not" || negate
    ensures var whole := (if negate then "not." else "") + text;
            && (HasPrefix(whole, NOT_DOT) <==> negate)
            && (if negate then whole[4..] else whole) == text
  {
    PrefixedByNot(text);
    if negate {
      assert ("not." + text)[..4] == NOT_DOT;
    } else {
      assert "" + text == text;
    }
  }

  lemma SearchParses(whole: string, text: string, f: Fts, columns: set<string>)
    requires (HasPrefix(whole, NOT_DOT) <==> f.negate) && text == if f.negate then whole[4..] else whole
    requires '.' in text && BeforeDot(text) == f.column && AfterDot(text) == f.term
    requires f.column in columns && f.column != ""
    ensures ParseFts(whole, columns) == Ok(f)
  {
    hide BeforeDot;
    hide AfterDot;
  }

  lemma SearchReads(f: Fts, columns: set<string>)
    requires Writable(Search(f), columns)
    ensures ParseFts(TextOf(Search(f)), columns) == Ok(f)
  {
    var text := f.column + "." + f.term;
    DotAt(f.column, f.term);
    hide BeforeDot;
    hide AfterDot;
    NegatedText(text, f.negate);
    hide HasPrefix;
    hide ParseFts;
    SearchParses((if f.negate then "not." else "") + text, text, f, columns);
  }

  lemma TopFilterReads(f: Filter, outer: bool, columns: set<string>)
    requires f.column in columns && f.modifier == "" && FreeOfModifier(f)
    ensures ParseFilter(f.column, FilterText(f), outer, columns) == Ok(f.(negate := f.negate != outer))
  {
    hide ParseFilter;
    TopFilterRoundTrips(f, outer, columns);
  }

  lemma NegativeKey(column: string)
    ensures var key := "_not." + column;
            && key !in RESERVED_KEYS && HasPrefix(key, NOT_KEY) && key[5..] == column
  {
    var key := "_not." + column;
    assert key[1] == 'n' && key[..5] == NOT_KEY;
  }

  /** Each key is parsed to a condition that means what was written under it. */
  ghost predicate ReadsAs(e: Entry, columns: set<string>, language: string, w: World) {
    var c := ParseKey(KeyOf(e), TextOf(e), columns);
    c.Ok? && ConditionMeans(c.value, language, w) == EntryMeans(e, language, w)
  }

  lemma GroupEntryReads(e: Entry, columns: set<string>, language: string, w: World)
    requires Writable(e, columns) && !e.Plain? && !e.Negative? && !e.Search? && !e.Setting?
    ensures ReadsAs(e, columns, language, w)
  {
    hide WireLogical;
    hide ParseLogical;
    hide LegalLogical;
    hide LogicalMeans;
    hide MembersMean;
    var wire := if e.AnyOfThem? || e.NotAnyOfThem? then AnyOf else AllOf;
    var op := if e.AnyOfThem? then AnyOf else if e.AllOfThem? then AllOf else NoneOf;
    MembersRead(wire, op, e.members, columns, w);
    NegativeKey("or");
    NegativeKey("and");
    var text := WireLogical(Logical(wire, e.members.filters, e.members.logicals));
    assert TextOf(e) == text;
    assert ParseKey(KeyOf(e), text, columns) == Ok(OneGroup(ParseLogical(op, text, columns).value));
    assert EntryMeans(e, language, w) == GroupMeans(op, MembersMean(e.members, w));
  }

  lemma EntryReads(e: Entry, columns: set<string>, language: string, w: World)
    requires Writable(e, columns)
    ensures ReadsAs(e, columns, language, w)
  {
    hide ParseLogical;
    hide ParseFts;
    hide ParseFilter;
    hide FilterText;
    if e.Plain? {
      TopFilterReads(e.filter, false, columns);
    } else if e.Negative? {
      var f := e.filter;
      TopFilterReads(f, true, columns);
      NegativeKey(f.column);
      assert FilterMeans(f.(negate := !f.negate), w) == Not3(FilterMeans(f, w));
    } else if e.Search? {
      SearchReads(e.fts, columns);
    } else if e.Setting? {
      assert ParseKey(e.key, e.value, columns) == Ok(NoCondition);
    } else {
      GroupEntryReads(e, columns, language, w);
    }
  }

  // ----- the whole query

  lemma {:induction false} QueryMapKeys(es: seq<Entry>, columns: set<string>)
    requires AllWritable(es, columns)
    ensures forall k :: k in QueryMap(es) ==> exists i :: 0 <= i < |es| && KeyOf(es[i]) == k
    ensures forall i :: 0 <= i < |es| ==> KeyOf(es[i]) in QueryMap(es) && QueryMap(es)[KeyOf(es[i])] == TextOf(es[i])
  {
    hide Writable;
    hide KeyOf;
    hide TextOf;
    if es != [] {
      assert forall i :: 0 < i < |es| ==> es[i] == es[1..][i - 1];
      QueryMapKeys(es[1..], columns);
      forall k | k in QueryMap(es) ensures exists i :: 0 <= i < |es| && KeyOf(es[i]) == k {
        if k != KeyOf(es[0]) {
          var i :| 0 <= i < |es[1..]| && KeyOf(es[1..][i]) == k;
          assert KeyOf(es[i + 1]) == k;
        }
      }
    }
  }

  /** A condition of the parsed request, of whatever kind. */
  ghost predicate HasCondition(q: Where, c: Condition) {
    match c
    case NoCondition => false
    case OneFilter(f) => f in q.filters
    case OneGroup(g) => g in q.logicals
    case OneSearch(f) => f in q.fts
  }

  lemma TruthIsOfCondition(q: Where, language: string, w: World, t: Truth) returns (c: Condition)
    requires t in Statements.Truths(q, language, w)
    ensures HasCondition(q, c) && ConditionMeans(c, language, w) == t
  {
    hide FilterMeans;
    hide FtsMeans;
    hide LogicalMeans;
    var fs, ls, ts := FiltersMean(q.filters, w), LogicalsMean(q.logicals, w), FtsListMeans(q.fts, language, w);
    if t in fs {
      var k :| 0 <= k < |fs| && fs[k] == t;
      c := OneFilter(q.filters[k]);
    } else if t in ls {
      var k :| 0 <= k < |ls| && ls[k] == t;
      LogicalsMeanAt(q.logicals, w, k);
      c := OneGroup(q.logicals[k]);
    } else {
      var k :| 0 <= k < |ts| && ts[k] == t;
      c := OneSearch(q.fts[k]);
    }
  }

  lemma ConditionHasTruth(q: Where, language: string, w: World, c: Condition)
    requires HasCondition(q, c)
    ensures ConditionMeans(c, language, w) in Statements.Truths(q, language, w)
  {
    hide FilterMeans;
    hide FtsMeans;
    hide LogicalMeans;
    var fs, ls, ts := FiltersMean(q.filters, w), LogicalsMean(q.logicals, w), FtsListMeans(q.fts, language, w);
    match c
    case OneFilter(f) =>
      var k :| 0 <= k < |q.filters| && q.filters[k] == f;
      assert fs[k] == FilterMeans(f, w);
    case OneGroup(g) =>
      var k :| 0 <= k < |q.logicals| && q.logicals[k] == g;
      LogicalsMeanAt(q.logicals, w, k);
      assert ls[k] == LogicalMeans(g, w);
    case OneSearch(f) =>
      var k :| 0 <= k < |q.fts| && q.fts[k] == f;
      assert ts[k] == FtsMeans(f, language, w);
  }

  lemma ConditionIsOfKey(pairs: map<string, string>, columns: set<string>, q: Where, c: Condition)
    requires Parsed(pairs, columns, q) && !c.NoCondition?
    ensures HasCondition(q, c) <==> exists k :: k in pairs && ParseKey(k, pairs[k], columns) == Ok(c)
  {
    hide ParseKey;
  }

  /**
   A query written key by key parses, and in whatever order the map is walked the parsed request means the
   conjunction of what was written: a disjunction under `_or`, a conjunction under `_and`, the negation of a
   conjunction under `_not.or` and `_not.and`, the negated filter under `_not.<column>`, the filter or the search
   itself under `<column>` and `_fts`, and nothing under the keys that say how to answer.
   */
  lemma QueryMeans(es: seq<Entry>, columns: set<string>, q: Where, language: string, w: World)
    requires AllWritable(es, columns)
    ensures forall k :: k in QueryMap(es) ==> ParseKey(k, QueryMap(es)[k], columns).Ok?
    ensures Parsed(QueryMap(es), columns, q) ==> WhereMeans(q, language, w) == All3(EntriesMean(es, language, w))
  {
    var pairs := QueryMap(es);
    QueryMapKeys(es, columns);
    forall i | 0 <= i < |es| ensures ReadsAs(es[i], columns, language, w) {
      EntryReads(es[i], columns, language, w);
    }
    hide ParseKey;
    hide QueryMap;
    hide KeyOf;
    hide TextOf;
    hide Writable;
    if Parsed(pairs, columns, q) {
      var expected := EntriesMean(es, language, w);
      forall t | t != True ensures t in Statements.Truths(q, language, w) <==> t in expected {
        if t in Statements.Truths(q, language, w) {
          TruthIsWritten(es, pairs, columns, q, language, w, t);
        }
        if i :| 0 <= i < |es| && expected[i] == t {
          var c := ParseKey(KeyOf(es[i]), TextOf(es[i]), columns).value;
          ConditionIsOfKey(pairs, columns, q, c);
          ConditionHasTruth(q, language, w, c);
        }
      }
      All3Is(expected);
      All3Is(Statements.Truths(q, language, w));
    }
  }

  lemma TruthIsWritten(es: seq<Entry>, pairs: map<string, string>, columns: set<string>, q: Where, language: string,
                       w: World, t: Truth)
    requires forall k :: k in pairs ==> exists i :: 0 <= i < |es| && KeyOf(es[i]) == k
    requires forall i :: 0 <= i < |es| ==> KeyOf(es[i]) in pairs && pairs[KeyOf(es[i])] == TextOf(es[i])
    requires forall i :: 0 <= i < |es| ==> ReadsAs(es[i], columns, language, w)
    requires Parsed(pairs, columns, q) && t in Statements.Truths(q, language, w)
    ensures t in EntriesMean(es, language, w)
  {
    var c := TruthIsOfCondition(q, language, w, t);
    ConditionIsOfKey(pairs, columns, q, c);
    var k :| k in pairs && ParseKey(k, pairs[k], columns) == Ok(c);
    var i :| 0 <= i < |es| && KeyOf(es[i]) == k;
    assert EntriesMean(es, language, w)[i] == t;
  }

  // ----- what no query can do

  /** A filter on a column of the table, with a modifier that the statement may show. */
  predicate Safe(f: Filter, columns: set<string>) {
    f.column in columns && f.modifier in {"", "any", "all"}
  }

  predicate SafeLogical(l: Logical, columns: set<string>)
    decreases l, 1
  {
    (forall f | f in l.filters :: Safe(f, columns)) && SafeLogicals(l.logicals, columns)
  }

  predicate SafeLogicals(ls: seq<Logical>, columns: set<string>)
    decreases ls, 0
  {
    ls == [] || (SafeLogical(ls[0], columns) && SafeLogicals(ls[1..], columns))
  }

  predicate SafeMembers(m: Members, columns: set<string>) {
    (forall f | f in m.filters :: Safe(f, columns)) && SafeLogicals(m.logicals, columns)
  }

  lemma OneMoreIsSafe(m: Members, columns: set<string>)
    requires SafeMembers(m, columns)
    ensures forall f :: Safe(f, columns) ==> SafeMembers(Members([f] + m.filters, m.logicals), columns)
    ensures forall g :: SafeLogical(g, columns) ==> SafeMembers(Members(m.filters, [g] + m.logicals), columns)
  {
    hide SafeLogical;
    hide Safe;
    forall g | SafeLogical(g, columns) ensures SafeLogicals([g] + m.logicals, columns) {
      assert ([g] + m.logicals)[1..] == m.logicals;
    }
  }

  lemma ConditionIsSafe(text: string, columns: set<string>)
    ensures ParseCondition(text, columns).Ok? ==> Safe(ParseCondition(text, columns).value, columns)
  {
  }

  lemma {:induction false} GroupIsSafe(op: LogicalOp, text: string, columns: set<string>)
    ensures var r := ParseLogical(op, text, columns);
            r.Ok? ==> r.value.op == op && SafeLogical(r.value, columns)
    decreases |text|, 1, 0
  {
    hide TrimParens;
    hide Split;
    hide SafeLogicals;
    hide Safe;
    PartsAreSafe(Split(TrimParens(text), 0, ""), columns, |text|);
  }

  /** What the first part of a group adds to the others. */
  lemma FirstPart(parts: seq<string>, columns: set<string>, bound: nat)
    requires parts != [] && forall k :: 0 <= k < |parts| ==> |parts[k]| <= bound
    requires ParseParts(parts, columns, bound).Ok?
    ensures ParseParts(parts[1..], columns, bound).Ok?
    ensures var m, rest := ParseParts(parts, columns, bound).value, ParseParts(parts[1..], columns, bound).value;
            var part := TrimSpace(parts[0]);
            var sub := SubgroupText(part);
            if part == "" then m == rest
            else if sub.Some? then
              var group := ParseLogical(NoneOf, sub.value, columns);
              group.Ok? && m == Members(rest.filters, [group.value] + rest.logicals)
            else
              var filter := ParseCondition(part, columns);
              filter.Ok? && m == Members([filter.value] + rest.filters, rest.logicals)
  {
    hide TrimSpace;
    hide SubgroupText;
    hide ParseCondition;
  }

  lemma {:induction false} PartsAreSafe(parts: seq<string>, columns: set<string>, bound: nat)
    requires forall k :: 0 <= k < |parts| ==> |parts[k]| <= bound
    ensures ParseParts(parts, columns, bound).Ok? ==> SafeMembers(ParseParts(parts, columns, bound).value, columns)
    decreases bound, 0, |parts|
  {
    if parts != [] && ParseParts(parts, columns, bound).Ok? {
      FirstPart(parts, columns, bound);
      hide ParseParts;
      hide ParseLogical;
      PartsAreSafe(parts[1..], columns, bound);
      OneMoreIsSafe(ParseParts(parts[1..], columns, bound).value, columns);
      hide SafeMembers;
      hide SafeLogical;
      hide Safe;
      var part := TrimSpace(parts[0]);
      if part != "" {
        if SubgroupText(part).Some? {
          GroupIsSafe(NoneOf, SubgroupText(part).value, columns);
        } else {
          ConditionIsSafe(part, columns);
        }
      }
      hide *;
    }
  }

  /** Whatever the query says, the parsed request names only columns of the table, at any depth. */
  lemma ParsedIsSafe(pairs: map<string, string>, columns: set<string>, q: Where)
    requires Parsed(pairs, columns, q)
    ensures forall f :: f in q.filters ==> Safe(f, columns)
    ensures forall g :: g in q.logicals ==> SafeLogical(g, columns)
    ensures forall f :: f in q.fts ==> f.column in columns
  {
    forall k | k in pairs ensures KeyIsSafe(ParseKey(k, pairs[k], columns).value, columns) {
      KeyParsesSafely(k, pairs[k], columns);
    }
    hide ParseKey;
    hide SafeLogical;
  }

  predicate KeyIsSafe(c: Condition, columns: set<string>) {
    match c
    case NoCondition => true
    case OneFilter(f) => Safe(f, columns)
    case OneGroup(g) => SafeLogical(g, columns)
    case OneSearch(f) => f.column in columns
  }

  lemma KeyParsesSafely(key: string, value: string, columns: set<string>)
    requires ParseKey(key, value, columns).Ok?
    ensures KeyIsSafe(ParseKey(key, value, columns).value, columns)
  {
    GroupIsSafe(AnyOf, value, columns);
    GroupIsSafe(AllOf, value, columns);
    GroupIsSafe(NoneOf, value, columns);
    hide ParseLogical;
    hide SafeLogical;
    hide Index;
  }

  // ----- the modifier of a filter

  /** A filter's text with a word in parentheses behind its operator. */
  ghost predicate Modified(text: string, word: string, bare: string) {
    exists op: string, rest: string ::
      op != "" && !(exists c :: c in op && IsParen(c)) && text == op + "(" + word + ")" + rest && bare == op + rest
  }

  lemma ParensAt(op: string, word: string, rest: string)
    requires (forall c :: c in op ==> !IsParen(c)) && (forall c :: c in word ==> !IsParen(c))
    ensures var text := op + "(" + word + ")" + rest;
            && Index(text, '(') == |op| && Index(text, ')') == |op| + 1 + |word|
            && text[..|op|] == op && text[|op| + 1..|op| + 1 + |word|] == word && text[|op| + 1 + |word| + 1..] == rest
  {
    var text := op + "(" + word + ")" + rest;
    assert text == op + ("(" + word + ")" + rest);
    assert text[..|op|] == op && text[|op|] == '(';
    IndexIs(text, '(', |op|);
    var n := |op| + 1 + |word|;
    assert text[..n] == op + "(" + word && text[n] == ')';
    assert ')' !in text[..n];
    IndexIs(text, ')', n);
  }

  lemma CutIsModified(text: string)
    ensures var (bare, word) := CutModifier(text);
            if word == "" then bare == text else word in {"any", "all"} && Modified(text, word, bare)
  {
    var (bare, word) := CutModifier(text);
    if word != "" {
      var open, close := Index(text, '('), Index(text, ')');
      var op, rest := text[..open], text[close + 1..];
      assert text == op + "(" + word + ")" + rest;
      forall c | c in op ensures !IsParen(c) {
        assert c in text[..open] && c in text[..close];
      }
    }
  }

  lemma ModifiedIsCut(text: string, word: string, bare: string)
    requires word in {"any", "all"} && Modified(text, word, bare)
    ensures CutModifier(text) == (bare, word)
  {
    var op: string, rest: string :|
      op != "" && !(exists c :: c in op && IsParen(c)) && text == op + "(" + word + ")" + rest && bare == op + rest;
    ParensAt(op, word, rest);
    hide Index;
  }

  /** The modifier is `any` or `all` in the first parentheses, and behind something; nothing else is cut. */
  lemma ModifierIsCutIff(text: string, bare: string, word: string)
    requires word != ""
    ensures CutModifier(text) == (bare, word) <==> word in {"any", "all"} && Modified(text, word, bare)
    ensures CutModifier(text).1 == "" ==> CutModifier(text).0 == text
  {
    CutIsModified(text);
    if word in {"any", "all"} && Modified(text, word, bare) {
      ModifiedIsCut(text, word, bare);
    }
    hide CutModifier;
    hide Modified;
  }
}
