/** From the wire text of a request to what it selects. */
module WireMeaning {
  import opened Wrappers
  import opened Sql
  import opened Text
  import opened Filters
  import opened Printer
  import opened Parser
  import opened RoundTrip
  import opened Statements

  // ----- the same tree prints the same SQL

  lemma SameFilterPrints(f: Filter, g: Filter, i: nat)
    requires SameFilter(f, g)
    ensures PrintFilter(g, i) == PrintFilter(f, i)
  {
    hide InValues;
    hide IsWord;
  }

  lemma {:induction false} SameFiltersPrint(fs: seq<Filter>, gs: seq<Filter>, i: nat)
    requires SameFilters(fs, gs)
    ensures PrintFilters(gs, i) == PrintFilters(fs, i)
  {
    if fs != [] {
      SameFilterPrints(fs[0], gs[0], i);
      hide PrintFilter;
      hide SameFilter;
      var first := PrintFilter(fs[0], i);
      if first.Ok? {
        SameFiltersPrint(fs[1..], gs[1..], first.value.next);
      }
    }
  }

  lemma {:induction false} SameLogicalPrints(a: Logical, b: Logical, i: nat)
    requires SameLogical(a, b)
    ensures PrintLogical(b, i) == PrintLogical(a, i)
    decreases a, 1
  {
    SameFiltersPrint(a.filters, b.filters, i);
    var filters := PrintFilters(a.filters, i);
    if filters.Ok? {
      SameLogicalsPrint(a.logicals, b.logicals, filters.value.next);
    }
  }

  lemma {:induction false} SameLogicalsPrint(a: seq<Logical>, b: seq<Logical>, i: nat)
    requires SameLogicals(a, b)
    ensures PrintLogicals(b, i) == PrintLogicals(a, i)
    decreases a, 0
  {
    if a != [] && b != [] {
      SameLogicalPrints(a[0], b[0], i);
      hide PrintLogical;
      var first := PrintLogical(a[0], i);
      if first.Ok? {
        SameLogicalsPrint(a[1..], b[1..], first.value.next);
      }
    }
  }

  /** A legal group sent over the wire compiles to the SQL, arguments and numbering of the group itself. */
  lemma WireCompilesFaithfully(l: Logical, columns: set<string>, i: nat)
    requires LegalLogical(l, columns)
    ensures var r := ParseLogical(l.op, WireLogical(l), columns);
            r.Ok? && PrintLogical(r.value, i) == PrintLogical(l, i)
  {
    WireRoundTrips(l, columns);
    SameLogicalPrints(l, ParseLogical(l.op, WireLogical(l), columns).value, i);
  }

  // ----- one column filter

  /** The value of a top-level filter must not hold a modifier in its first parenthesis. */
  predicate FreeOfModifier(f: Filter) {
    var text := OperatorText(f.operator) + "." + f.value;
    CutModifier(text) == (text, "")
  }

  lemma FilterTextReads(f: Filter, word: string, text: string, outer: bool, columns: set<string>)
    requires f.column in columns && f.modifier == "" && ReadOperator(word) == Some(f.operator)
    requires '.' !in word && word != "" && word != "not"
    requires text == word + "." + f.value && CutModifier(text) == (text, "")
    ensures ParseFilter(f.column, if f.negate then NOT_DOT + text else text, outer, columns)
            == Ok(f.(negate := f.negate != outer))
  {
    hide ReadOperator;
    hide CutModifier;
    assert text[..|word|] == word && text[|word| + 1..] == f.value;
    IndexIs(text, '.', |word|);
    DotAt(word, f.value);
    PrefixedByNot(text);
    hide Index;
    hide BeforeDot;
    assert (NOT_DOT + text)[4..] == text;
  }

  /** `column=[not.]op.value` parses back to the filter, and under `_not.column` to its negation. */
  lemma TopFilterRoundTrips(f: Filter, outer: bool, columns: set<string>)
    requires f.column in columns && f.modifier == "" && FreeOfModifier(f)
    ensures ParseFilter(f.column, (if f.negate then NOT_DOT else "") + OperatorText(f.operator) + "." + f.value, outer,
                        columns)
            == Ok(f.(negate := f.negate != outer))
  {
    hide OperatorText;
    hide ReadOperator;
    hide CutModifier;
    hide ParseFilter;
    OperatorTextReads(f.operator);
    OperatorIsNotNot(f.operator);
    var text := OperatorText(f.operator) + "." + f.value;
    FilterTextReads(f, OperatorText(f.operator), text, outer, columns);
    assert (if f.negate then NOT_DOT else "") + OperatorText(f.operator) + "." + f.value
           == if f.negate then NOT_DOT + text else text;
  }

  lemma OperatorIsNotNot(op: Operator)
    ensures OperatorText(op) != "not" && OperatorText(op) != ""
  {
  }

  // ----- the query map

  lemma ParsedOneWay(pairs: map<string, string>, columns: set<string>, a: Where, b: Where)
    requires Parsed(pairs, columns, a) && Parsed(pairs, columns, b)
    ensures SameConditions(a, b)
  {
    hide ParseKey;
  }

  /** Whatever order the query map is walked in, the parsed request means the same for every row. */
  lemma MapOrderDoesNotMatter(pairs: map<string, string>, columns: set<string>, a: Where, b: Where,
                              language: string, w: World)
    requires Parsed(pairs, columns, a) && Parsed(pairs, columns, b)
    ensures WhereMeans(a, language, w) == WhereMeans(b, language, w)
  {
    ParsedOneWay(pairs, columns, a, b);
    OrderDoesNotMatter(a, b, language, w);
  }

  // ----- negated groups

  /** A negated group parses the same whether it says `or` or `and`, as a subgroup and as a query key. */
  lemma NegatedGroupForgetsItsWord(text: string, columns: set<string>)
    ensures SubgroupText("not.or." + text) == SubgroupText("not.and." + text) == Some(text)
    ensures ParseKey("_not.or", text, columns) == ParseKey("_not.and", text, columns)
  {
    hide ParseLogical;
    SubgroupReads(text);
    assert "_not.or"[5..] == "or" && "_not.and"[5..] == "and";
    assert "_not.or"[..5] == NOT_KEY && "_not.and"[..5] == NOT_KEY;
    assert "_not.or"[1] != 'o' && "_not.or"[1] != 'a' && "_not.and"[1] != 'a';
  }

  lemma {:induction false} AnyIs(ts: seq<Truth>)
    ensures Any3(ts) == if True in ts then True else if Unknown in ts then Unknown else False
  {
    if ts != [] {
      AnyIs(ts[1..]);
    }
  }

  /**
   So `not.or.(...)` means "not all", not "none". The two agree on a row exactly when the members of the group
   all have one and the same truth there; for a single member that is always so.
   */
  lemma {:induction false} NegatedOrAgreesIff(parts: seq<Truth>)
    ensures GroupMeans(NoneOf, parts) == Not3(Any3(parts)) <==>
            parts != [] && forall k :: 0 <= k < |parts| ==> parts[k] == parts[0]
  {
    All3Is(parts);
    AnyIs(parts);
    if parts != [] {
      assert parts[0] in parts;
      if k :| 0 <= k < |parts| && parts[k] != parts[0] {
        assert parts[k] in parts;
      }
    }
  }

  function Truths(fs: seq<Filter>, ls: seq<Logical>, w: World): (ts: seq<Truth>)
    ensures |ts| == |fs| + |ls|
  {
    FiltersMean(fs, w) + LogicalsMean(ls, w)
  }

  /** On this row `not.or` means what its words say. */
  predicate MeansNone(fs: seq<Filter>, ls: seq<Logical>, w: World) {
    LogicalMeans(Logical(NoneOf, fs, ls), w) == Not3(LogicalMeans(Logical(AnyOf, fs, ls), w))
  }

  /** It does so on every row exactly for the groups whose members all mean the same; a single member always does. */
  lemma NegatedOrAlwaysAgreesIff(fs: seq<Filter>, ls: seq<Logical>)
    ensures (forall w: World :: MeansNone(fs, ls, w)) <==>
            |fs| + |ls| > 0
            && forall w: World, k :: 0 <= k < |fs| + |ls| ==> Truths(fs, ls, w)[k] == Truths(fs, ls, w)[0]
  {
    forall w: World ensures MeansNone(fs, ls, w) <==>
        |fs| + |ls| > 0 && forall k :: 0 <= k < |fs| + |ls| ==> Truths(fs, ls, w)[k] == Truths(fs, ls, w)[0] {
      NegatedOrAgreesIff(Truths(fs, ls, w));
    }
    var anywhere := World((c, s, v) => True, (c, l, t) => True, (c, v) => true);
    assert MeansNone(fs, ls, anywhere) ==> |fs| + |ls| > 0;
  }

  /** A comparison with one placeholder. */
  predicate Compares(f: Filter) {
    !f.operator.Is? && !f.operator.Among?
  }

  predicate SameComparison(f: Filter, g: Filter) {
    f.column == g.column && Symbol(f.operator) == Symbol(g.operator) && f.value == g.value && f.negate == g.negate
  }

  /** Two comparisons mean the same on every row only when they are the same. */
  lemma ComparisonsDiffer(f: Filter, g: Filter) returns (w: World)
    requires Compares(f) && Compares(g) && !SameComparison(f, g)
    ensures FilterMeans(f, w) != FilterMeans(g, w)
  {
    var (column, symbol, value) := (f.column, Symbol(f.operator), f.value);
    w := World((c, s, v) => if c == column && s == symbol && v == value then True else Unknown,
               (c, l, t) => True, (c, v) => true);
    assert w.compare(column, symbol, value) == True;
  }

  /** So for a group of comparisons, `not.or` means what it says exactly when they are all one and the same. */
  lemma NegatedOrOfComparisonsIff(fs: seq<Filter>)
    requires forall k :: 0 <= k < |fs| ==> Compares(fs[k])
    ensures (forall w: World :: MeansNone(fs, [], w)) <==>
            fs != [] && forall k :: 0 <= k < |fs| ==> SameComparison(fs[k], fs[0])
  {
    NegatedOrAlwaysAgreesIff(fs, []);
    forall w: World, k | 0 <= k < |fs| ensures Truths(fs, [], w)[k] == FilterMeans(fs[k], w) {
      assert Truths(fs, [], w)[k] == FiltersMean(fs, w)[k];
    }
    if k :| 0 <= k < |fs| && !SameComparison(fs[k], fs[0]) {
      var w := ComparisonsDiffer(fs[k], fs[0]);
      assert Truths(fs, [], w)[k] != Truths(fs, [], w)[0];
    }
  }
}
