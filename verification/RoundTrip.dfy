/**
 The wire text of a group parses back to the group. Trimming takes closing parentheses off at every level of
 nesting, so the innermost text arrives without some of its own; what is left still parses to the same tree.
 */
module RoundTrip {
  import opened Wrappers
  import opened Sql
  import opened Text
  import opened Filters
  import opened Parser
  import opened Splitting

  // ----- the wire text

  function WireFilter(f: Filter): string {
    (if f.negate then NOT_DOT else "") + f.column + "." + OperatorText(f.operator) + "." + f.value
  }

  function WireFilters(fs: seq<Filter>): (r: seq<string>)
    ensures |r| == |fs|
  {
    if fs == [] then [] else [WireFilter(fs[0])] + WireFilters(fs[1..])
  }

  const SUBGROUP := "not.and."

  /** A parenthesised group; its subgroups are printed as `not.and.(...)`. */
  function WireLogical(l: Logical): string
    decreases l, 1
  {
    "(" + JoinCommas(WireFilters(l.filters) + WireLogicals(l.logicals)) + ")"
  }

  function WireLogicals(ls: seq<Logical>): (r: seq<string>)
    ensures |r| == |ls|
    decreases ls, 0
  {
    if ls == [] then [] else [SUBGROUP + WireLogical(ls[0])] + WireLogicals(ls[1..])
  }

  function Items(l: Logical): seq<string> {
    WireFilters(l.filters) + WireLogicals(l.logicals)
  }

  // ----- what can be written

  predicate IsBar(c: char) {
    c == '.' || c == ',' || IsParen(c)
  }

  predicate LegalColumn(col: string) {
    && (forall i :: 0 <= i < |col| ==> !IsBar(col[i]))
    && (col != "" ==> !IsSpace(col[0]))
  }

  ghost predicate LegalValue(f: Filter) {
    if f.operator.Among? then
      exists values :: CleanValues(values) && f.value == "(" + JoinCommas(values) + ")"
    else
      && (forall i :: 0 <= i < |f.value| ==> f.value[i] != ',' && !IsParen(f.value[i]))
      && (f.value != "" ==> !IsSpace(f.value[|f.value| - 1]))
  }

  /** A leaf that the wire syntax can carry: it must not read as a negation or as a subgroup. */
  ghost predicate LegalFilter(f: Filter, columns: set<string>) {
    && f.column in columns && f.modifier == ""
    && LegalColumn(f.column) && LegalValue(f)
    && (if f.negate then f.column != "and" && f.column != "or" else f.column != "not")
  }

  ghost predicate LegalLogical(l: Logical, columns: set<string>)
    decreases l, 1
  {
    (forall k :: 0 <= k < |l.filters| ==> LegalFilter(l.filters[k], columns)) && LegalSubgroups(l.logicals, columns)
  }

  ghost predicate LegalSubgroups(ls: seq<Logical>, columns: set<string>)
    decreases ls, 0
  {
    ls == [] || (ls[0].op.NoneOf? && LegalLogical(ls[0], columns) && LegalSubgroups(ls[1..], columns))
  }

  // ----- items: the texts between the commas

  ghost predicate Closed(s: string) {
    Depth(s) == 0 && forall i :: 0 <= i <= |s| ==> Depth(s[..i]) >= 0
  }

  predicate Flat(s: string) {
    forall i :: 0 <= i < |s| ==> s[i] != ',' && !IsParen(s[i])
  }

  function Trimmed(s: string): string {
    TrimRight(s, IsParen)
  }

  ghost predicate Item(x: string) {
    && Closed(x) && !HasTopComma(x)
    && x != "" && !IsSpace(x[0]) && !IsParen(x[0])
    && Trimmed(x) != "" && !IsSpace(Trimmed(x)[|Trimmed(x)| - 1])
  }

  ghost predicate AllItems(xs: seq<string>) {
    forall k :: 0 <= k < |xs| ==> Item(xs[k])
  }

  lemma {:induction false} FlatDepth(s: string)
    requires Flat(s)
    ensures Depth(s) == 0
  {
    if s != "" {
      FlatDepth(s[..|s| - 1]);
    }
  }

  lemma FlatIsClosed(s: string)
    requires Flat(s)
    ensures Closed(s) && !HasTopComma(s)
  {
    FlatDepth(s);
    forall i | 0 <= i <= |s| ensures Depth(s[..i]) == 0 {
      FlatDepth(s[..i]);
    }
  }

  lemma ClosedConcat(a: string, b: string)
    requires Closed(a) && Closed(b)
    ensures Closed(a + b)
  {
    DepthConcat(a, b);
    forall i | 0 <= i <= |a + b| ensures Depth((a + b)[..i]) >= 0 {
      if i <= |a| {
        assert (a + b)[..i] == a[..i];
      } else {
        assert (a + b)[..i] == a + b[..i - |a|];
        DepthConcat(a, b[..i - |a|]);
      }
    }
  }

  lemma {:induction false} JoinIsClosed(xs: seq<string>)
    requires AllItems(xs)
    ensures Closed(JoinCommas(xs))
  {
    if xs == [] {
      FlatIsClosed("");
    } else if |xs| > 1 {
      JoinIsClosed(xs[1..]);
      ClosedComma(xs[0], JoinCommas(xs[1..]));
    }
  }

  lemma ClosedComma(a: string, b: string)
    requires Closed(a) && Closed(b)
    ensures Closed(a + "," + b)
  {
    assert Closed(",") by {
      DepthSnoc("", ',');
      assert "" + [','] == ",";
      assert forall i :: 0 <= i <= 1 ==> ","[..i] == "" || ","[..i] == ",";
    }
    ClosedConcat(a, ",");
    ClosedConcat(a + ",", b);
  }

  /** Text in parentheses is below depth zero throughout. */
  lemma WrappedIsClosed(head: string, body: string)
    requires Flat(head) && Closed(body)
    ensures Closed(head + "(" + body + ")") && !HasTopComma(head + "(" + body + ")")
  {
    var all := head + "(" + body + ")";
    FlatIsClosed(head);
    DepthSnoc(head, '(');
    DepthConcat(head + "(", body);
    DepthSnoc(head + "(" + body, ')');
    forall i | 0 <= i <= |all|
      ensures Depth(all[..i]) >= 0 && (|head| < i < |all| ==> Depth(all[..i]) > 0) {
      if i <= |head| {
        assert all[..i] == head[..i];
      } else if i < |all| {
        assert all[..i] == head + "(" + body[..i - |head| - 1];
        DepthConcat(head + "(", body[..i - |head| - 1]);
      } else {
        assert all[..i] == all;
      }
    }
    assert forall i :: 0 <= i < |head| ==> all[i] == head[i];
    forall i | 0 <= i < |all| && all[i] == ',' ensures Depth(all[..i]) != 0 {
      assert i > |head|;
    }
  }

  lemma {:induction false} TrimmedConcat(a: string, b: string)
    ensures Trimmed(a + b) == if Trimmed(b) == "" then Trimmed(a) else a + Trimmed(b)
    decreases |b|
  {
    if b == "" {
      assert a + b == a;
    } else if IsParen(b[|b| - 1]) {
      assert (a + b)[..|a + b| - 1] == a + b[..|b| - 1];
      TrimmedConcat(a, b[..|b| - 1]);
    }
  }

  lemma TrimmedKeeps(s: string)
    requires s == "" || !IsParen(s[|s| - 1])
    ensures Trimmed(s) == s
  {
  }

  lemma PrefixHasNoTopComma(s: string, p: string)
    requires p <= s && !HasTopComma(s)
    ensures !HasTopComma(p)
  {
    forall i | 0 <= i < |p| && p[i] == ',' ensures Depth(p[..i]) != 0 {
      assert s[i] == ',' && s[..i] == p[..i];
    }
  }

  function TrimLast(xs: seq<string>): (r: seq<string>)
    ensures |r| == |xs|
  {
    if xs == [] then [] else xs[|xs| - 1 := Trimmed(xs[|xs| - 1])]
  }

  lemma OneItem(x: string)
    requires Item(x)
    ensures Split(Trimmed(x), 0, "") == [Trimmed(x)]
  {
    PrefixHasNoTopComma(x, Trimmed(x));
    SplitOne(Trimmed(x));
  }

  lemma ItemThenMore(x: string, rest: string)
    requires Item(x) && Trimmed(rest) != ""
    ensures Trimmed(x + "," + rest) == x + "," + Trimmed(rest)
    ensures Split(Trimmed(x + "," + rest), 0, "") == [x] + Split(Trimmed(rest), 0, "")
  {
    TrimmedConcat(x + ",", rest);
    SplitHead(x, Trimmed(rest));
  }

  /** Trimming the joined items only shortens the last one, and what remains splits into the same items. */
  lemma {:induction false} TrimmedJoinSplits(xs: seq<string>)
    requires xs != [] && AllItems(xs)
    ensures JoinCommas(xs) != "" && !IsParen(JoinCommas(xs)[0])
    ensures Trimmed(JoinCommas(xs)) != ""
    ensures Trimmed(JoinCommas(xs))[|Trimmed(JoinCommas(xs))| - 1]
            == TrimLast(xs)[|xs| - 1][|TrimLast(xs)[|xs| - 1]| - 1]
    ensures Split(Trimmed(JoinCommas(xs)), 0, "") == TrimLast(xs)
  {
    hide Trimmed;
    hide Split;
    hide Item;
    hide TrimRight;
    if |xs| == 1 {
      OneItem(xs[0]);
    } else {
      TrimmedJoinSplits(xs[1..]);
      ItemThenMore(xs[0], JoinCommas(xs[1..]));
      assert TrimLast(xs) == [xs[0]] + TrimLast(xs[1..]);
    }
    assert Item(xs[0]) && Item(xs[|xs| - 1]);
    ItemShape(xs[0]);
    ItemShape(xs[|xs| - 1]);
  }

  lemma ItemShape(x: string)
    requires Item(x)
    ensures x != "" && !IsParen(x[0]) && !IsSpace(x[0])
    ensures Trimmed(x) != "" && Trimmed(x)[0] == x[0] && !IsSpace(Trimmed(x)[|Trimmed(x)| - 1])
  {
  }

  // ----- the texts of filters

  lemma OperatorTextReads(op: Operator)
    ensures ReadOperator(OperatorText(op)) == Some(op)
    ensures Flat(OperatorText(op)) && '.' !in OperatorText(op)
  {
  }

  /** Everything of a leaf's text before its value. */
  function Head(f: Filter): string {
    (if f.negate then NOT_DOT else "") + f.column + "." + OperatorText(f.operator) + "."
  }

  lemma HeadIsFlat(f: Filter)
    requires LegalColumn(f.column)
    ensures Flat(Head(f)) && Head(f) != "" && Head(f)[|Head(f)| - 1] == '.'
    ensures !IsSpace(Head(f)[0]) && !IsParen(Head(f)[0])
  {
    OperatorTextReads(f.operator);
    var negation := if f.negate then NOT_DOT else "";
    assert Flat(negation);
    assert Flat(f.column) by {
      assert forall i :: 0 <= i < |f.column| ==> !IsBar(f.column[i]);
    }
    FlatConcat(negation, f.column);
    FlatConcat(negation + f.column, ".");
    FlatConcat(negation + f.column + ".", OperatorText(f.operator));
    FlatConcat(negation + f.column + "." + OperatorText(f.operator), ".");
    if f.negate {
      assert Head(f)[0] == 'n';
    } else if f.column == "" {
      assert Head(f)[0] == '.';
    } else {
      assert Head(f)[0] == f.column[0];
    }
  }

  lemma FlatConcat(a: string, b: string)
    requires Flat(a) && Flat(b)
    ensures Flat(a + b)
  {
  }

  predicate RemainsOf(values: seq<string>, v: string) {
    v == "(" + JoinCommas(values) + ")" || v == "(" + JoinCommas(values) || (values == [] && v == "")
  }

  /** The values that may be left of a leaf's value: all of it, or an IN list without its closing parenthesis. */
  ghost predicate LeftOf(f: Filter, v: string) {
    if f.operator.Among? then
      exists values :: CleanValues(values) && f.value == "(" + JoinCommas(values) + ")" && RemainsOf(values, v)
    else v == f.value
  }

  lemma LeftGivesValues(f: Filter, v: string)
    requires f.operator.Among? && LeftOf(f, v)
    ensures InValues(v) == InValues(f.value)
  {
    hide InValues;
    hide JoinCommas;
    hide CleanValues;
    var values :| CleanValues(values) && f.value == "(" + JoinCommas(values) + ")" && RemainsOf(values, v);
    InListInverts(values, ")");
    InListInverts(values, "");
    assert "(" + JoinCommas(values) + "" == "(" + JoinCommas(values);
    EmptyInList();
  }

  lemma EmptyInList()
    ensures InValues("") == []
  {
  }

  lemma {:induction false} JoinEndsInValue(values: seq<string>)
    requires values != [] && CleanValues(values)
    ensures JoinCommas(values) != "" && !IsSpace(JoinCommas(values)[|JoinCommas(values)| - 1])
  {
    hide CleanValue;
    if |values| == 1 {
      CleanEndsTight(values[0]);
    } else {
      JoinEndsInValue(values[1..]);
    }
  }

  lemma CleanEndsTight(v: string)
    requires CleanValue(v)
    ensures v != "" && !IsSpace(v[|v| - 1])
  {
    assert TrimRight(TrimLeft(v, IsSpace), IsSpace) == v;
  }

  lemma InListTrims(h: string, values: seq<string>)
    requires h != "" && h[|h| - 1] == '.' && CleanValues(values)
    ensures var t := Trimmed(h + "(" + JoinCommas(values) + ")");
            && t == h + (if values == [] then "" else "(" + JoinCommas(values))
            && !IsSpace(t[|t| - 1])
  {
    var j := JoinCommas(values);
    hide JoinCommas;
    hide CleanValues;
    TrimmedConcat(h + "(" + j, ")");
    assert Trimmed(")") == Trimmed("");
    if values == [] {
      JoinOfNone();
      TrimmedConcat(h, "(");
      assert h + "(" + j == h + "(";
      assert Trimmed("(") == Trimmed("");
      TrimmedKeeps(h);
      assert h + "" == h;
    } else {
      JoinEndsInValue(values);
      JoinHasNoParens(values);
      assert (h + "(" + j)[|h + "(" + j| - 1] == j[|j| - 1];
      TrimmedKeeps(h + "(" + j);
      assert h + "(" + j == h + ("(" + j);
    }
  }

  lemma InFilterIsItem(f: Filter, values: seq<string>)
    requires LegalColumn(f.column) && CleanValues(values) && f.value == "(" + JoinCommas(values) + ")"
    requires f.operator.Among?
    ensures Item(WireFilter(f))
    ensures exists v :: LeftOf(f, v) && Trimmed(WireFilter(f)) == Head(f) + v
  {
    var h, j := Head(f), JoinCommas(values);
    hide Head;
    hide JoinCommas;
    hide CleanValues;
    hide LegalColumn;
    HeadIsFlat(f);
    InListIsClosed(values);
    WrappedIsClosed(h, j);
    WireIsHeadAndValue(f);
    assert WireFilter(f) == h + "(" + j + ")";
    InListTrims(h, values);
    var v := if values == [] then "" else "(" + j;
    assert RemainsOf(values, v);
    assert LeftOf(f, v);
    assert WireFilter(f)[0] == h[0];
  }

  lemma JoinOfNone()
    ensures JoinCommas([]) == ""
  {
  }

  lemma WireIsHeadAndValue(f: Filter)
    ensures WireFilter(f) == Head(f) + f.value
  {
  }

  lemma {:induction false} InListIsClosed(values: seq<string>)
    requires CleanValues(values)
    ensures Closed(JoinCommas(values))
  {
    hide CleanValue;
    if values == [] {
      FlatIsClosed("");
    } else {
      CleanIsClosed(values[0]);
      if |values| > 1 {
        InListIsClosed(values[1..]);
        ClosedComma(values[0], JoinCommas(values[1..]));
      }
    }
  }

  lemma CleanIsClosed(v: string)
    requires CleanValue(v)
    ensures Closed(v)
  {
    assert forall i :: 0 <= i < |v| ==> !Reserved(v[i]);
    FlatIsClosed(v);
  }

  lemma PlainFilterIsItem(f: Filter)
    requires LegalColumn(f.column) && LegalValue(f) && !f.operator.Among?
    ensures Item(WireFilter(f)) && Trimmed(WireFilter(f)) == WireFilter(f) == Head(f) + f.value
  {
    hide Head;
    HeadIsFlat(f);
    WireIsHeadAndValue(f);
    FlatConcat(Head(f), f.value);
    FlatIsClosed(WireFilter(f));
    if f.value != "" {
      assert WireFilter(f)[|WireFilter(f)| - 1] == f.value[|f.value| - 1];
    }
    TrimmedKeeps(WireFilter(f));
  }

  lemma FilterIsItem(f: Filter)
    requires LegalColumn(f.column) && LegalValue(f)
    ensures Item(WireFilter(f))
    ensures exists v :: LeftOf(f, v) && Trimmed(WireFilter(f)) == Head(f) + v
    ensures LeftOf(f, f.value) && WireFilter(f) == Head(f) + f.value
  {
    WireIsHeadAndValue(f);
    if f.operator.Among? {
      var values :| CleanValues(values) && f.value == "(" + JoinCommas(values) + ")";
      InFilterIsItem(f, values);
      assert RemainsOf(values, f.value);
    } else {
      PlainFilterIsItem(f);
    }
  }

  // ----- parsing a leaf

  /** The same leaf, an IN list up to its closing parenthesis. */
  predicate SameFilter(f: Filter, g: Filter) {
    && g.column == f.column && g.operator == f.operator && g.negate == f.negate && g.modifier == f.modifier
    && (if f.operator.Among? then InValues(g.value) == InValues(f.value) else g.value == f.value)
  }

  lemma DotAt(a: string, b: string)
    requires '.' !in a
    ensures '.' in a + "." + b && BeforeDot(a + "." + b) == a && AfterDot(a + "." + b) == b
  {
    var s := a + "." + b;
    assert s[..|a|] == a;
    IndexIs(s, '.', |a|);
    assert s[|a| + 1..] == b;
  }

  /** The text of a leaf after its negation. */
  function Bare(f: Filter, v: string): string {
    f.column + "." + (OperatorText(f.operator) + "." + v)
  }

  lemma BareReads(f: Filter, v: string)
    requires LegalColumn(f.column)
    ensures var cond, rest := Bare(f, v), OperatorText(f.operator) + "." + v;
            && '.' in cond && BeforeDot(cond) == f.column && AfterDot(cond) == rest
            && '.' in rest && ReadOperator(BeforeDot(rest)) == Some(f.operator) && AfterDot(rest) == v
  {
    OperatorTextReads(f.operator);
    hide OperatorText;
    hide ReadOperator;
    assert '.' !in f.column by {
      assert forall i :: 0 <= i < |f.column| ==> !IsBar(f.column[i]);
    }
    DotAt(f.column, OperatorText(f.operator) + "." + v);
    DotAt(OperatorText(f.operator), v);
  }

  lemma PrefixedByNot(text: string)
    ensures HasPrefix(text, NOT_DOT) ==> BeforeDot(text) == "not"
  {
    if HasPrefix(text, NOT_DOT) {
      assert text[..4] == NOT_DOT;
      IndexIs(text, '.', 3);
      assert text[..3] == "not";
    }
  }

  lemma NegationReads(f: Filter, v: string)
    requires LegalColumn(f.column) && (!f.negate ==> f.column != "not")
    ensures HasPrefix(Head(f) + v, NOT_DOT) <==> f.negate
    ensures f.negate ==> (Head(f) + v)[4..] == Bare(f, v)
    ensures !f.negate ==> Head(f) + v == Bare(f, v)
  {
    hide OperatorText;
    var text := Head(f) + v;
    if f.negate {
      assert text == NOT_DOT + Bare(f, v);
    } else {
      assert text == Bare(f, v);
      BareReads(f, v);
      PrefixedByNot(text);
    }
  }

  lemma LeafParses(f: Filter, v: string, columns: set<string>)
    requires LegalFilter(f, columns)
    ensures ParseCondition(Head(f) + v, columns) == Ok(f.(value := v))
    ensures SubgroupText(Head(f) + v).None?
  {
    BareReads(f, v);
    NegationReads(f, v);
    hide OperatorText;
    hide ReadOperator;
    hide BeforeDot;
    hide AfterDot;
    hide LegalValue;
    hide LegalColumn;
    hide Head;
    hide Bare;
    hide HasPrefix;
  }

  lemma TrimSpaceKeeps(s: string)
    requires s != "" && !IsSpace(s[0]) && !IsSpace(s[|s| - 1])
    ensures TrimSpace(s) == s
  {
  }

  /** A leaf's text, whole or trimmed, parses to the leaf. */
  lemma LeafRoundTrips(f: Filter, y: string, columns: set<string>)
    requires LegalFilter(f, columns) && (y == WireFilter(f) || y == Trimmed(WireFilter(f)))
    ensures TrimSpace(y) == y && y != "" && SubgroupText(y).None?
    ensures ParseCondition(y, columns).Ok? && SameFilter(f, ParseCondition(y, columns).value)
  {
    FilterIsItem(f);
    var v :| LeftOf(f, v) && y == Head(f) + v;
    LeafParses(f, v, columns);
    if f.operator.Among? {
      LeftGivesValues(f, v);
    }
    WireEndsTight(f);
    TrimSpaceKeeps(y);
  }

  lemma WireEndsTight(f: Filter)
    requires LegalColumn(f.column) && LegalValue(f)
    ensures var x := WireFilter(f);
            && x != "" && !IsSpace(x[0]) && !IsSpace(x[|x| - 1])
            && Trimmed(x) != "" && !IsSpace(Trimmed(x)[0]) && !IsSpace(Trimmed(x)[|Trimmed(x)| - 1])
  {
    FilterIsItem(f);
    ItemShape(WireFilter(f));
    ItemEndsTight(WireFilter(f));
  }

  lemma ItemEndsTight(x: string)
    requires Item(x)
    ensures !IsSpace(x[|x| - 1])
  {
    if !IsParen(x[|x| - 1]) {
      TrimmedKeeps(x);
    }
  }

  // ----- groups

  predicate SameFilters(a: seq<Filter>, b: seq<Filter>) {
    |a| == |b| && forall k :: 0 <= k < |a| ==> SameFilter(a[k], b[k])
  }

  /** The same tree, IN lists up to their closing parentheses. */
  predicate SameLogical(a: Logical, b: Logical)
    decreases a, 1
  {
    a.op == b.op && SameFilters(a.filters, b.filters) && SameLogicals(a.logicals, b.logicals)
  }

  predicate SameLogicals(a: seq<Logical>, b: seq<Logical>)
    decreases a, 0
  {
    if a == [] || b == [] then a == b else SameLogical(a[0], b[0]) && SameLogicals(a[1..], b[1..])
  }

  /** What trimming leaves of a group's text. */
  function Core(l: Logical): string {
    Trimmed(JoinCommas(Items(l)))
  }

  lemma {:induction false} ItemsAreItems(l: Logical, columns: set<string>)
    requires LegalLogical(l, columns)
    ensures AllItems(Items(l))
    decreases l, 1
  {
    FilterItems(l.filters, columns);
    GroupItems(l.logicals, columns);
  }

  lemma {:induction false} FilterItems(fs: seq<Filter>, columns: set<string>)
    requires forall k :: 0 <= k < |fs| ==> LegalFilter(fs[k], columns)
    ensures AllItems(WireFilters(fs))
  {
    hide Item;
    hide WireFilter;
    if fs != [] {
      FilterIsItem(fs[0]);
      FilterItems(fs[1..], columns);
    }
  }

  lemma {:induction false} GroupItems(ls: seq<Logical>, columns: set<string>)
    requires LegalSubgroups(ls, columns)
    ensures AllItems(WireLogicals(ls))
    decreases ls, 0
  {
    hide Item;
    if ls != [] {
      ItemsAreItems(ls[0], columns);
      GroupIsItem(ls[0]);
      GroupItems(ls[1..], columns);
    }
  }

  /** Both the whole text of a group and its trimmed form come down to the same core. */
  lemma CoreIsLeft(l: Logical)
    requires AllItems(Items(l))
    ensures TrimParens(WireLogical(l)) == Core(l) && TrimParens(Trimmed(WireLogical(l))) == Core(l)
    ensures Core(l) == "" ==> Trimmed(WireLogical(l)) == ""
    ensures Core(l) != "" ==> Trimmed(WireLogical(l)) == "(" + Core(l)
    ensures Core(l) == "" <==> Items(l) == []
  {
    var items := Items(l);
    var j := JoinCommas(items);
    assert WireLogical(l) == "(" + j + ")";
    if items == [] {
      assert "(" + j + ")" == "()";
      EmptyGroupTrims();
    } else {
      TrimmedJoinSplits(items);
      WrapTrims(j);
    }
  }

  lemma EmptyGroupTrims()
    ensures TrimParens("()") == "" && Trimmed("()") == "" && TrimParens("") == "" && Trimmed("") == ""
  {
    TrimRightAll("", "()", IsParen);
    TrimLeftAll("()", "", IsParen);
    assert "()" + "" == "()" == "" + "()";
  }

  lemma OpenTrims(s: string)
    requires s != "" && !IsParen(s[0])
    ensures TrimLeft("(" + s, IsParen) == s
  {
    TrimLeftAll("(", s, IsParen);
  }

  lemma CloseTrims(s: string)
    ensures Trimmed(s + ")") == Trimmed(s)
  {
    TrimRightAll(s, ")", IsParen);
  }

  lemma WrapTrims(j: string)
    requires j != "" && !IsParen(j[0]) && Trimmed(j) != ""
    ensures TrimParens("(" + j + ")") == Trimmed(j)
    ensures Trimmed("(" + j + ")") == "(" + Trimmed(j)
    ensures TrimParens("(" + Trimmed(j)) == Trimmed(j)
  {
    var t := Trimmed(j);
    assert t[0] == j[0];
    assert !IsParen(t[|t| - 1]);
    hide TrimRight;
    hide TrimLeft;
    assert "(" + j + ")" == "(" + (j + ")");
    OpenTrims(j + ")");
    CloseTrims(j);
    TrimmedConcat("(", j);
    CloseTrims("(" + j);
    OpenTrims(t);
    TrimmedKeeps(t);
  }

  lemma SubgroupShape(j: string)
    requires Closed(j)
    ensures var x := SUBGROUP + "(" + j + ")";
            Closed(x) && !HasTopComma(x) && x != "" && !IsSpace(x[0]) && !IsParen(x[0])
  {
    WrappedIsClosed(SUBGROUP, j);
    assert (SUBGROUP + "(" + j + ")")[0] == 'n';
  }

  lemma SubgroupTrims(l: Logical)
    requires AllItems(Items(l))
    ensures var t := Trimmed(SUBGROUP + WireLogical(l));
            t == SUBGROUP + Trimmed(WireLogical(l)) && !IsSpace(t[|t| - 1])
  {
    var w := WireLogical(l);
    assert SUBGROUP[|SUBGROUP| - 1] == '.' && !IsSpace('.') && !IsParen('.');
    TrimmedKeeps(SUBGROUP);
    hide IsSpace;
    hide WireLogical;
    hide AllItems;
    hide Items;
    hide Core;
    hide TrimRight;
    CoreIsLeft(l);
    TrimmedConcat(SUBGROUP, w);
    if Items(l) != [] {
      CoreEndsTight(l);
      var t, core := SUBGROUP + ("(" + Core(l)), Core(l);
      assert t[|t| - 1] == core[|core| - 1];
    } else {
      assert SUBGROUP + "" == SUBGROUP;
    }
  }

  lemma CoreEndsTight(l: Logical)
    requires AllItems(Items(l)) && Items(l) != []
    ensures Core(l) != "" && !IsSpace(Core(l)[|Core(l)| - 1])
  {
    var items := Items(l);
    TrimmedJoinSplits(items);
    ItemShape(items[|items| - 1]);
  }

  lemma GroupIsItem(l: Logical)
    requires AllItems(Items(l))
    ensures Item(SUBGROUP + WireLogical(l))
    ensures Trimmed(SUBGROUP + WireLogical(l)) == SUBGROUP + Trimmed(WireLogical(l))
  {
    hide Depth;
    var j := JoinCommas(Items(l));
    JoinIsClosed(Items(l));
    SubgroupShape(j);
    assert SUBGROUP + WireLogical(l) == SUBGROUP + "(" + j + ")";
    SubgroupTrims(l);
  }

  lemma SubgroupReads(z: string)
    ensures SubgroupText(SUBGROUP + z) == Some(z)
    ensures SubgroupText("not.or." + z) == Some(z)
  {
    var y := SUBGROUP + z;
    assert y[..4] == NOT_DOT && y[4..] == "and" + "." + z;
    DotAt("and", z);
    var x := "not.or." + z;
    assert x[..4] == NOT_DOT && x[4..] == "or" + "." + z;
    DotAt("or", z);
  }

  /** The pieces of a group's text: its leaves and subgroups, whole, or trimmed when they come last. */
  ghost predicate FilterParts(fs: seq<Filter>, parts: seq<string>) {
    |parts| == |fs|
    && forall k :: 0 <= k < |fs| ==> parts[k] == WireFilter(fs[k]) || parts[k] == Trimmed(WireFilter(fs[k]))
  }

  ghost predicate GroupParts(ls: seq<Logical>, parts: seq<string>) {
    |parts| == |ls| && forall k :: 0 <= k < |ls| ==> GroupPart(ls[k], parts[k])
  }

  ghost predicate GroupPart(l: Logical, part: string) {
    part == SUBGROUP + WireLogical(l) || part == SUBGROUP + Trimmed(WireLogical(l))
  }

  lemma {:induction false} WireAt(fs: seq<Filter>, ls: seq<Logical>)
    ensures forall k :: 0 <= k < |fs| ==> WireFilters(fs)[k] == WireFilter(fs[k])
    ensures forall k :: 0 <= k < |ls| ==> WireLogicals(ls)[k] == SUBGROUP + WireLogical(ls[k])
    decreases |fs| + |ls|
  {
    hide WireFilter;
    if fs != [] {
      WireAt(fs[1..], ls);
    } else if ls != [] {
      WireAt(fs, ls[1..]);
    }
  }

  lemma TrimmedItemsAreParts(l: Logical)
    requires AllItems(Items(l)) && forall k :: 0 <= k < |l.logicals| ==> AllItems(Items(l.logicals[k]))
    ensures FilterParts(l.filters, TrimLast(Items(l))[..|l.filters|])
    ensures GroupParts(l.logicals, TrimLast(Items(l))[|l.filters|..])
  {
    hide Trimmed;
    hide WireFilters;
    WireAt(l.filters, l.logicals);
    var items, n := Items(l), |l.filters|;
    hide WireFilter;
    hide WireLogical;
    hide TrimRight;
    var groups := TrimLast(items)[n..];
    forall k | 0 <= k < |l.logicals| ensures GroupPart(l.logicals[k], groups[k]) {
      assert items[n + k] == WireLogicals(l.logicals)[k];
      assert groups[k] == TrimLast(items)[n + k];
      GroupIsItem(l.logicals[k]);
    }
    var leaves := TrimLast(items)[..n];
    forall k | 0 <= k < n
      ensures leaves[k] == WireFilter(l.filters[k]) || leaves[k] == Trimmed(WireFilter(l.filters[k])) {
      assert items[k] == WireFilters(l.filters)[k];
    }
  }

  lemma {:induction false} SubgroupsHaveItems(ls: seq<Logical>, columns: set<string>)
    requires LegalSubgroups(ls, columns)
    ensures forall k :: 0 <= k < |ls| ==> ls[k].op.NoneOf? && LegalLogical(ls[k], columns) && AllItems(Items(ls[k]))
  {
    if ls != [] {
      ItemsAreItems(ls[0], columns);
      SubgroupsHaveItems(ls[1..], columns);
      assert forall k :: 0 < k < |ls| ==> ls[k] == ls[1..][k - 1];
    }
  }

  /** Any text that trims down to the core of a legal group parses to that group. */
  lemma {:induction false} CoreParses(l: Logical, text: string, columns: set<string>)
    requires LegalLogical(l, columns) && TrimParens(text) == Core(l)
    ensures var r := ParseLogical(l.op, text, columns);
            r.Ok? && SameLogical(l, r.value)
    decreases l, 1
  {
    var parts, n := CorePieces(l, text, columns);
    hide LegalFilter;
    hide LegalSubgroups;
    hide FilterParts;
    hide GroupParts;
    hide ParseParts;
    hide SameFilters;
    hide SameLogicals;
    hide Split;
    hide TrimParens;
    hide Core;
    PartsParse(l.filters, l.logicals, parts[..n], parts[n..], columns, |text|);
  }

  lemma SubgroupsAreLegal(l: Logical, columns: set<string>)
    requires LegalLogical(l, columns)
    ensures LegalSubgroups(l.logicals, columns)
  {
    hide LegalFilter;
    hide LegalSubgroups;
  }

  lemma PiecesAreWithin(text: string)
    ensures Within(Split(TrimParens(text), 0, ""), |text|)
  {
  }

  lemma CorePieces(l: Logical, text: string, columns: set<string>) returns (parts: seq<string>, n: nat)
    requires LegalLogical(l, columns) && TrimParens(text) == Core(l)
    ensures parts == Split(TrimParens(text), 0, "") && n == |l.filters| && n <= |parts|
    ensures parts[..n] + parts[n..] == parts && Within(parts, |text|)
    ensures FilterParts(l.filters, parts[..n]) && GroupParts(l.logicals, parts[n..])
  {
    hide *;
    ItemsAreItems(l, columns);
    SubgroupsAreLegal(l, columns);
    SubgroupsHaveItems(l.logicals, columns);
    CoreSplits(l, text);
    PiecesAreWithin(text);
    parts, n := Split(TrimParens(text), 0, ""), |l.filters|;
  }

  lemma SplitNothing()
    ensures Split("", 0, "") == []
  {
  }

  lemma CoreSplits(l: Logical, text: string)
    requires TrimParens(text) == Core(l) && AllItems(Items(l))
    requires forall k :: 0 <= k < |l.logicals| ==> AllItems(Items(l.logicals[k]))
    ensures var parts, n := Split(TrimParens(text), 0, ""), |l.filters|;
            |parts| >= n && FilterParts(l.filters, parts[..n]) && GroupParts(l.logicals, parts[n..])
  {
    TrimmedItemsAreParts(l);
    assert |TrimLast(Items(l))| >= |l.filters|;
    hide AllItems;
    hide Split;
    hide FilterParts;
    hide GroupParts;
    hide WireLogical;
    CoreIsLeft(l);
    SplitNothing();
    if Items(l) != [] {
      TrimmedJoinSplits(Items(l));
    }
    assert Split(TrimParens(text), 0, "") == TrimLast(Items(l));
  }

  ghost predicate Within(parts: seq<string>, bound: nat) {
    forall k :: 0 <= k < |parts| ==> |parts[k]| <= bound
  }

  lemma LeafStep(parts: seq<string>, columns: set<string>, bound: nat)
    requires Within(parts, bound) && parts != []
    requires TrimSpace(parts[0]) == parts[0] != "" && SubgroupText(parts[0]).None?
    requires ParseCondition(parts[0], columns).Ok? && ParseParts(parts[1..], columns, bound).Ok?
    ensures var m := ParseParts(parts[1..], columns, bound).value;
            ParseParts(parts, columns, bound)
            == Ok(Members([ParseCondition(parts[0], columns).value] + m.filters, m.logicals))
  {
    hide ParseCondition;
    hide ParseLogical;
    hide SubgroupText;
    hide TrimSpace;
  }

  lemma GroupStep(parts: seq<string>, z: string, columns: set<string>, bound: nat)
    requires Within(parts, bound) && parts != []
    requires TrimSpace(parts[0]) == parts[0] != "" && SubgroupText(parts[0]) == Some(z)
    requires ParseLogical(NoneOf, z, columns).Ok? && ParseParts(parts[1..], columns, bound).Ok?
    ensures var m := ParseParts(parts[1..], columns, bound).value;
            ParseParts(parts, columns, bound)
            == Ok(Members(m.filters, [ParseLogical(NoneOf, z, columns).value] + m.logicals))
  {
    hide ParseCondition;
    hide ParseLogical;
    hide SubgroupText;
    hide TrimSpace;
  }

  lemma SameFiltersFirst(fs: seq<Filter>, g: Filter, gs: seq<Filter>)
    requires fs != [] && SameFilter(fs[0], g) && SameFilters(fs[1..], gs)
    ensures SameFilters(fs, [g] + gs)
  {
    hide SameFilter;
  }

  lemma SameLogicalsFirst(ls: seq<Logical>, g: Logical, gs: seq<Logical>)
    requires ls != [] && SameLogical(ls[0], g) && SameLogicals(ls[1..], gs)
    ensures SameLogicals(ls, [g] + gs)
  {
    hide SameLogical;
    assert ([g] + gs)[1..] == gs;
  }

  ghost predicate PartsGive(fs: seq<Filter>, ls: seq<Logical>, parts: seq<string>, columns: set<string>, bound: nat)
    requires Within(parts, bound)
  {
    var r := ParseParts(parts, columns, bound);
    r.Ok? && SameFilters(fs, r.value.filters) && SameLogicals(ls, r.value.logicals)
  }

  lemma LeafPart(fs: seq<Filter>, ls: seq<Logical>, parts: seq<string>, columns: set<string>, bound: nat)
    requires Within(parts, bound) && parts != [] && fs != [] && LegalFilter(fs[0], columns)
    requires parts[0] == WireFilter(fs[0]) || parts[0] == Trimmed(WireFilter(fs[0]))
    requires PartsGive(fs[1..], ls, parts[1..], columns, bound)
    ensures PartsGive(fs, ls, parts, columns, bound)
  {
    hide TrimSpace;
    hide SubgroupText;
    hide ParseCondition;
    hide WireFilter;
    hide LegalFilter;
    hide TrimRight;
    hide SameFilter;
    hide SameLogicals;
    LeafRoundTrips(fs[0], parts[0], columns);
    LeafStep(parts, columns, bound);
    var m := ParseParts(parts[1..], columns, bound).value;
    SameFiltersFirst(fs, ParseCondition(parts[0], columns).value, m.filters);
  }

  lemma GroupPartParses(ls: seq<Logical>, parts: seq<string>, z: string, columns: set<string>, bound: nat)
    requires Within(parts, bound) && parts != [] && ls != [] && ls[0].op.NoneOf?
    requires TrimSpace(parts[0]) == parts[0] != "" && SubgroupText(parts[0]) == Some(z)
    requires ParseLogical(NoneOf, z, columns).Ok? && SameLogical(ls[0], ParseLogical(NoneOf, z, columns).value)
    requires PartsGive([], ls[1..], parts[1..], columns, bound)
    ensures PartsGive([], ls, parts, columns, bound)
  {
    hide TrimSpace;
    hide SubgroupText;
    hide ParseLogical;
    hide SameLogical;
    GroupStep(parts, z, columns, bound);
    var m := ParseParts(parts[1..], columns, bound).value;
    SameLogicalsFirst(ls, ParseLogical(NoneOf, z, columns).value, m.logicals);
  }

  lemma {:induction false} GroupsParse(ls: seq<Logical>, parts: seq<string>, columns: set<string>, bound: nat)
    requires Within(parts, bound) && LegalSubgroups(ls, columns) && GroupParts(ls, parts)
    ensures PartsGive([], ls, parts, columns, bound)
    decreases ls, 0, 0
  {
    hide PartsGive;
    hide LegalLogical;
    hide LegalSubgroups;
    hide GroupPart;
    hide AllItems;
    hide Items;
    hide ParseLogical;
    hide SameLogical;
    hide TrimSpace;
    hide TrimParens;
    hide SubgroupText;
    hide Core;
    if ls == [] {
      NoPartsGiveNothing(columns, bound);
    } else {
      assert forall k :: 0 <= k < |parts| - 1 ==> parts[1..][k] == parts[k + 1] && ls[1..][k] == ls[k + 1];
      FirstSubgroup(ls, columns);
      var z := GroupRest(ls[0], parts[0]);
      CoreParses(ls[0], z, columns);
      GroupsParse(ls[1..], parts[1..], columns, bound);
      GroupPartParses(ls, parts, z, columns, bound);
    }
  }

  lemma NoPartsGiveNothing(columns: set<string>, bound: nat)
    ensures PartsGive([], [], [], columns, bound)
  {
  }

  lemma FirstSubgroup(ls: seq<Logical>, columns: set<string>)
    requires LegalSubgroups(ls, columns) && ls != []
    ensures ls[0].op.NoneOf? && LegalLogical(ls[0], columns) && AllItems(Items(ls[0]))
    ensures LegalSubgroups(ls[1..], columns)
  {
    hide LegalLogical;
    hide AllItems;
    ItemsAreItems(ls[0], columns);
  }

  lemma {:induction false} PartsParse(fs: seq<Filter>, ls: seq<Logical>, leaves: seq<string>, groups: seq<string>,
                                      columns: set<string>, bound: nat)
    requires Within(leaves + groups, bound)
    requires (forall k :: 0 <= k < |fs| ==> LegalFilter(fs[k], columns)) && LegalSubgroups(ls, columns)
    requires FilterParts(fs, leaves) && GroupParts(ls, groups)
    ensures PartsGive(fs, ls, leaves + groups, columns, bound)
    decreases ls, 1, |fs|
  {
    hide PartsGive;
    hide GroupPart;
    hide LegalSubgroups;
    hide WireFilter;
    hide LegalFilter;
    hide TrimRight;
    var parts := leaves + groups;
    if fs == [] {
      assert parts == groups;
      GroupsParse(ls, groups, columns, bound);
    } else {
      assert parts[1..] == leaves[1..] + groups && parts[0] == leaves[0];
      assert forall k :: 0 <= k < |parts| - 1 ==> parts[1..][k] == parts[k + 1];
      PartsParse(fs[1..], ls, leaves[1..], groups, columns, bound);
      LeafPart(fs, ls, parts, columns, bound);
    }
  }

  /** A subgroup's piece is recognised, and what follows its prefix trims down to the subgroup's core. */
  lemma GroupRest(l: Logical, part: string) returns (z: string)
    requires GroupPart(l, part) && AllItems(Items(l))
    ensures TrimSpace(part) == part && part != ""
    ensures SubgroupText(part) == Some(z) && TrimParens(z) == Core(l)
  {
    z := if part == SUBGROUP + WireLogical(l) then WireLogical(l) else Trimmed(WireLogical(l));
    GroupEndsTight(l, part);
    SubgroupReads(z);
    CoreIsLeft(l);
  }

  lemma GroupEndsTight(l: Logical, y: string)
    requires AllItems(Items(l))
    requires y == SUBGROUP + WireLogical(l) || y == SUBGROUP + Trimmed(WireLogical(l))
    ensures TrimSpace(y) == y && y != ""
  {
    GroupIsItem(l);
    var x := SUBGROUP + WireLogical(l);
    ItemShape(x);
    ItemEndsTight(x);
    TrimSpaceKeeps(y);
  }

  /**
   The round trip: printing a legal group to wire text and parsing the text gives the same tree, whatever the
   parentheses that trimming took away on the way down.
   */
  lemma WireRoundTrips(l: Logical, columns: set<string>)
    requires LegalLogical(l, columns)
    ensures var r := ParseLogical(l.op, WireLogical(l), columns);
            r.Ok? && SameLogical(l, r.value)
  {
    hide ParseLogical;
    ItemsAreItems(l, columns);
    CoreIsLeft(l);
    CoreParses(l, WireLogical(l), columns);
  }
}
