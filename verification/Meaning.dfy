/**
 The printed WHERE text, read with SQL precedence, means what the filters mean; and exactly which filters print
 a text that can be read at all.
 */
module Meaning {
  import opened Wrappers
  import opened Sql
  import opened Filters
  import opened Printer

  /** An empty IN list prints `IN ()`, and a modifier prints `= ANY $1` without the parentheses SQL wants. */
  predicate GoodFilter(f: Filter) {
    if f.operator.Is? then true
    else if f.operator.Among? then InValues(f.value) != []
    else f.modifier == ""
  }

  /** No empty group at any depth, and every filter good. */
  predicate GoodLogical(l: Logical)
    decreases l, 1
  {
    && (l.filters != [] || l.logicals != [])
    && (forall k :: 0 <= k < |l.filters| ==> GoodFilter(l.filters[k]))
    && GoodLogicals(l.logicals)
  }

  predicate GoodLogicals(ls: seq<Logical>)
    decreases ls, 0
  {
    ls == [] || (GoodLogical(ls[0]) && GoodLogicals(ls[1..]))
  }

  predicate GoodWhere(q: Where) {
    (forall k :: 0 <= k < |q.filters| ==> GoodFilter(q.filters[k])) && GoodLogicals(q.logicals)
  }

  predicate EmptyGroup(l: Logical) {
    l.filters == [] && l.logicals == []
  }

  // ----- the expression a good condition is read as

  function Negation(negate: bool, e: Expr): Expr {
    if negate then NotE(e) else e
  }

  function FilterExpr(f: Filter, i: nat): Expr {
    if f.operator.Is? then
      Test(f.column, if IsWord(f.value).Some? then IsWord(f.value).value else "", f.negate)
    else if f.operator.Among? then Negation(f.negate, Expr.Among(f.column, Numbers(i, |InValues(f.value)|)))
    else Negation(f.negate, Compare(f.column, Symbol(f.operator), i))
  }

  function FilterExprs(fs: seq<Filter>, i: nat): (es: seq<Expr>)
    ensures |es| == |fs|
  {
    if fs == [] then []
    else
      var first := PrintFilter(fs[0], i);
      [FilterExpr(fs[0], i)] + FilterExprs(fs[1..], if first.Ok? then first.value.next else i)
  }

  function GroupExpr(op: LogicalOp, es: seq<Expr>): Expr
    requires es != []
  {
    match op
    case AllOf => AllAnd(es)
    case AnyOf => AllOr(es)
    case NoneOf => NotE(AllAnd(es))
  }

  function LogicalExpr(l: Logical, i: nat): Expr
    requires GoodLogical(l)
    decreases l, 1
  {
    var filters := PrintFilters(l.filters, i);
    GroupExpr(l.op, FilterExprs(l.filters, i) + LogicalExprs(l.logicals, if filters.Ok? then filters.value.next else i))
  }

  function LogicalExprs(ls: seq<Logical>, i: nat): (es: seq<Expr>)
    requires GoodLogicals(ls)
    ensures |es| == |ls|
    decreases ls, 0
  {
    if ls == [] then []
    else
      var first := PrintLogical(ls[0], i);
      [LogicalExpr(ls[0], i)] + LogicalExprs(ls[1..], if first.Ok? then first.value.next else i)
  }

  function FtsExpr(f: Fts, language: string, i: nat): Expr {
    Negation(f.negate, Expr.Matches(f.column, language, i))
  }

  function FtsExprs(fs: seq<Fts>, language: string, i: nat): (es: seq<Expr>)
    ensures |es| == |fs|
  {
    if fs == [] then [] else [FtsExpr(fs[0], language, i)] + FtsExprs(fs[1..], language, i + 1)
  }

  function WhereExprs(q: Where, language: string, i: nat): seq<Expr>
    requires GoodWhere(q) && PrintParts(q, language, i).Ok?
  {
    var filters := PrintFilters(q.filters, i).value;
    var groups := PrintLogicals(q.logicals, filters.next).value;
    FilterExprs(q.filters, i) + LogicalExprs(q.logicals, filters.next) + FtsExprs(q.fts, language, groups.next)
  }

  // ----- reading good conditions

  lemma {:induction false} HoldersAreRead(i: nat, n: nat, rest: seq<Token>)
    requires n > 0
    ensures ReadHolders(HolderList(i, n) + ([Close] + rest)) == Some((Numbers(i, n), [Close] + rest))
    decreases n
  {
    var ts := HolderList(i, n) + ([Close] + rest);
    if n == 1 {
      assert ts[1..] == [Close] + rest;
      assert Numbers(i, 1) == [i];
    } else {
      assert ts[2..] == HolderList(i + 1, n - 1) + ([Close] + rest);
      HoldersAreRead(i + 1, n - 1, rest);
      assert Numbers(i, n) == [i] + Numbers(i + 1, n - 1);
    }
  }

  lemma NegateReads(negate: bool, ts: seq<Token>, e: Expr)
    requires Operand(ts, e)
    ensures Operand(Negate(negate, ts), Negation(negate, e))
  {
    hide ReadTest;
    if negate {
      forall rest: seq<Token> ensures ReadNot(Negate(true, ts) + rest) == Some(Read(NotE(e), rest)) {
        var all := Negate(true, ts) + rest;
        assert all[1..] == [Open] + (ts + ([Close] + rest));
        assert all[1..][1..] == ts + ([Close] + rest);
        OneOperand(ts, e, [Close] + rest);
        assert ([Close] + rest)[1..] == rest;
      }
    }
  }

  lemma TestReads(column: string, what: string, negated: bool)
    ensures Operand([Column(column), Token.Is] + (if negated then [Not] else []) + [Word(what)],
                    Test(column, what, negated))
  {
    var ts := [Column(column), Token.Is] + (if negated then [Not] else []) + [Word(what)];
    forall rest: seq<Token> ensures ReadNot(ts + rest) == Some(Read(Test(column, what, negated), rest)) {
      assert (ts + rest)[3..] == if negated then [Word(what)] + rest else rest;
      assert negated ==> (ts + rest)[4..] == rest;
    }
  }

  lemma AmongReads(column: string, i: nat, n: nat)
    requires n > 0
    ensures Operand([Column(column), In, Open] + HolderList(i, n) + [Close], Expr.Among(column, Numbers(i, n)))
  {
    var ts := [Column(column), In, Open] + HolderList(i, n) + [Close];
    forall rest: seq<Token> ensures ReadNot(ts + rest) == Some(Read(Expr.Among(column, Numbers(i, n)), rest)) {
      assert (ts + rest)[3..] == HolderList(i, n) + ([Close] + rest);
      HoldersAreRead(i, n, rest);
      assert ([Close] + rest)[1..] == rest;
    }
  }

  lemma CompareReads(column: string, symbol: string, i: nat)
    ensures Operand([Column(column), Op(symbol), Holder(i)], Compare(column, symbol, i))
  {
    var ts := [Column(column), Op(symbol), Holder(i)];
    forall rest: seq<Token> ensures ReadNot(ts + rest) == Some(Read(Compare(column, symbol, i), rest)) {
      assert (ts + rest)[3..] == rest;
    }
  }

  lemma FilterReads(f: Filter, i: nat)
    requires GoodFilter(f) && PrintFilter(f, i).Ok?
    ensures Operand(PrintFilter(f, i).value.tokens, FilterExpr(f, i))
  {
    if f.operator.Is? {
      TestReads(f.column, IsWord(f.value).value, f.negate);
    } else if f.operator.Among? {
      var n := |InValues(f.value)|;
      AmongReads(f.column, i, n);
      NegateReads(f.negate, [Column(f.column), In, Open] + HolderList(i, n) + [Close],
                  Expr.Among(f.column, Numbers(i, n)));
    } else {
      var ts := [Column(f.column), Op(Symbol(f.operator)), Holder(i)];
      CompareReads(f.column, Symbol(f.operator), i);
      assert [Column(f.column)] + ([Op(Symbol(f.operator))] + []) + [Holder(i)] == ts;
      NegateReads(f.negate, ts, Compare(f.column, Symbol(f.operator), i));
    }
  }

  lemma FtsReads(f: Fts, language: string, i: nat)
    ensures Operand(PrintFts(f, language, i).tokens, FtsExpr(f, language, i))
  {
    var ts := [Column(f.column), Op("@@"), TsQuery(language), Holder(i), Close];
    forall rest: seq<Token> ensures ReadNot(ts + rest) == Some(Read(Expr.Matches(f.column, language, i), rest)) {
      assert (ts + rest)[5..] == rest;
    }
    NegateReads(f.negate, ts, Expr.Matches(f.column, language, i));
  }

  lemma ParenthesesRead(joined: seq<Token>, e: Expr)
    requires forall rest: seq<Token> :: ReadOr(joined + ([Close] + rest)) == Some(Read(e, [Close] + rest))
    ensures Operand([Open] + joined + [Close], e)
  {
    hide ReadTest;
    var inner := [Open] + joined + [Close];
    forall rest: seq<Token> ensures ReadNot(inner + rest) == Some(Read(e, rest)) {
      assert (inner + rest)[1..] == joined + ([Close] + rest);
      assert ([Close] + rest)[1..] == rest;
    }
  }

  lemma NotReads(inner: seq<Token>, e: Expr)
    requires Operand(inner, e)
    ensures Operand([Not] + inner, NotE(e))
  {
    hide ReadTest;
    forall rest: seq<Token> ensures ReadNot([Not] + inner + rest) == Some(Read(NotE(e), rest)) {
      assert ReadNot(inner + rest) == Some(Read(e, rest));
      assert ([Not] + inner + rest)[1..] == inner + rest;
    }
  }

  lemma GroupReads(op: LogicalOp, p: Pieces, es: seq<Expr>)
    requires p.list != [] && Operands(p.list, es)
    ensures Operand(Group(op, p).tokens, GroupExpr(op, es))
  {
    if op.AnyOf? {
      forall rest: seq<Token>
        ensures ReadOr(Join(p.list, Or) + ([Close] + rest)) == Some(Read(AllOr(es), [Close] + rest)) {
        ReadOrJoin(p.list, es, [Close] + rest);
      }
      ParenthesesRead(Join(p.list, Or), AllOr(es));
    } else {
      forall rest: seq<Token>
        ensures ReadOr(Join(p.list, And) + ([Close] + rest)) == Some(Read(AllAnd(es), [Close] + rest)) {
        ReadAndJoin(p.list, es, [Close] + rest);
      }
      ParenthesesRead(Join(p.list, And), AllAnd(es));
      NotReads([Open] + Join(p.list, And) + [Close], AllAnd(es));
    }
  }

  lemma {:induction false} FiltersRead(fs: seq<Filter>, i: nat)
    requires PrintFilters(fs, i).Ok? && forall k :: 0 <= k < |fs| ==> GoodFilter(fs[k])
    ensures Operands(PrintFilters(fs, i).value.list, FilterExprs(fs, i))
  {
    if fs != [] {
      FilterReads(fs[0], i);
      FiltersRead(fs[1..], PrintFilter(fs[0], i).value.next);
    }
  }

  lemma AppendReads(a: seq<seq<Token>>, b: seq<seq<Token>>, es: seq<Expr>, fs: seq<Expr>)
    requires Operands(a, es) && Operands(b, fs)
    ensures Operands(a + b, es + fs)
  {
  }

  lemma {:induction false} LogicalReads(l: Logical, i: nat)
    requires PrintLogical(l, i).Ok? && GoodLogical(l)
    ensures Operand(PrintLogical(l, i).value.tokens, LogicalExpr(l, i))
    decreases l, 1
  {
    var filters := PrintFilters(l.filters, i).value;
    var groups := PrintLogicals(l.logicals, filters.next).value;
    FiltersRead(l.filters, i);
    LogicalsRead(l.logicals, filters.next);
    var es, fs := FilterExprs(l.filters, i), LogicalExprs(l.logicals, filters.next);
    AppendReads(filters.list, groups.list, es, fs);
    GroupReads(l.op, Append(filters, groups), es + fs);
  }

  lemma {:induction false} LogicalsRead(ls: seq<Logical>, i: nat)
    requires PrintLogicals(ls, i).Ok? && GoodLogicals(ls)
    ensures Operands(PrintLogicals(ls, i).value.list, LogicalExprs(ls, i))
    decreases ls, 0
  {
    if ls != [] {
      LogicalReads(ls[0], i);
      LogicalsRead(ls[1..], PrintLogical(ls[0], i).value.next);
    }
  }

  lemma {:induction false} FtsListReads(fs: seq<Fts>, language: string, i: nat)
    ensures Operands(PrintFtsList(fs, language, i).list, FtsExprs(fs, language, i))
  {
    if fs != [] {
      FtsReads(fs[0], language, i);
      FtsListReads(fs[1..], language, i + 1);
    }
  }

  lemma WhereReads(q: Where, language: string, i: nat)
    requires PrintWhere(q, language, i).Ok? && GoodWhere(q)
    requires PrintParts(q, language, i).value.list != []
    ensures WhereExprs(q, language, i) != []
    ensures ReadWhere(PrintWhere(q, language, i).value.tokens) == Some(AllAnd(WhereExprs(q, language, i)))
  {
    var filters := PrintFilters(q.filters, i).value;
    var groups := PrintLogicals(q.logicals, filters.next).value;
    var fts := PrintFtsList(q.fts, language, groups.next);
    FiltersRead(q.filters, i);
    LogicalsRead(q.logicals, filters.next);
    FtsListReads(q.fts, language, groups.next);
    var es, fs := FilterExprs(q.filters, i), LogicalExprs(q.logicals, filters.next);
    AppendReads(filters.list, groups.list, es, fs);
    AppendReads(filters.list + groups.list, fts.list, es + fs, FtsExprs(q.fts, language, groups.next));
    var list := PrintParts(q, language, i).value.list;
    ReadAndJoin(list, WhereExprs(q, language, i), []);
    assert Join(list, And) + [] == Join(list, And);
  }

  // ----- evaluating good conditions

  /** The arguments printed from placeholder `i` on stand where `all` is bound to them. */
  ghost predicate BoundFrom(all: seq<string>, i: nat, args: seq<string>) {
    1 <= i && i - 1 + |args| <= |all| && all[i - 1..i - 1 + |args|] == args
  }

  lemma BoundSplit(all: seq<string>, i: nat, a: seq<string>, b: seq<string>)
    requires BoundFrom(all, i, a + b)
    ensures BoundFrom(all, i, a) && BoundFrom(all, i + |a|, b)
  {
    assert all[i - 1..i - 1 + |a|] == (a + b)[..|a|];
    assert all[i - 1 + |a|..i - 1 + |a| + |b|] == (a + b)[|a|..];
  }

  function Evals(es: seq<Expr>, w: World, all: seq<string>): (ts: seq<Truth>)
    ensures |ts| == |es|
  {
    seq(|es|, k requires 0 <= k < |es| => Eval(es[k], w, all))
  }

  lemma {:induction false} AllAndEval(es: seq<Expr>, w: World, all: seq<string>)
    requires es != []
    ensures Eval(AllAnd(es), w, all) == All3(Evals(es, w, all))
  {
    assert Evals(es, w, all)[1..] == Evals(es[1..], w, all);
    if |es| > 1 {
      AllAndEval(es[1..], w, all);
    }
  }

  lemma {:induction false} AllOrEval(es: seq<Expr>, w: World, all: seq<string>)
    requires es != []
    ensures Eval(AllOr(es), w, all) == Any3(Evals(es, w, all))
  {
    assert Evals(es, w, all)[1..] == Evals(es[1..], w, all);
    if |es| > 1 {
      AllOrEval(es[1..], w, all);
    }
  }

  lemma ArgsOfBound(all: seq<string>, i: nat, args: seq<string>)
    requires BoundFrom(all, i, args)
    ensures ArgsOf(all, Numbers(i, |args|)) == args
  {
    var ns := Numbers(i, |args|);
    forall k | 0 <= k < |args| ensures ArgsOf(all, ns)[k] == args[k] {
      assert all[i - 1..i - 1 + |args|][k] == args[k];
    }
  }

  lemma FirstBound(all: seq<string>, i: nat, arg: string)
    requires BoundFrom(all, i, [arg])
    ensures Arg(all, i) == arg
  {
    assert all[i - 1..i][0] == arg;
  }

  lemma NegationEval(negate: bool, e: Expr, w: World, all: seq<string>)
    ensures Eval(Negation(negate, e), w, all) == Negated(negate, Eval(e, w, all))
  {
  }

  lemma FilterEval(f: Filter, i: nat, w: World, all: seq<string>)
    requires PrintFilter(f, i).Ok? && BoundFrom(all, i, PrintFilter(f, i).value.args)
    ensures Eval(FilterExpr(f, i), w, all) == FilterMeans(f, w)
  {
    hide InValues;
    if f.operator.Is? {
      assert IsWord(f.value).Some?;
    } else if f.operator.Among? {
      var values := InValues(f.value);
      ArgsOfBound(all, i, values);
      NegationEval(f.negate, Expr.Among(f.column, Numbers(i, |values|)), w, all);
      assert Eval(Expr.Among(f.column, Numbers(i, |values|)), w, all) == Member(w, f.column, values);
    } else {
      FirstBound(all, i, f.value);
      NegationEval(f.negate, Compare(f.column, Symbol(f.operator), i), w, all);
    }
  }

  lemma {:induction false} FiltersEval(fs: seq<Filter>, i: nat, w: World, all: seq<string>)
    requires PrintFilters(fs, i).Ok? && BoundFrom(all, i, PrintFilters(fs, i).value.args)
    ensures Evals(FilterExprs(fs, i), w, all) == FiltersMean(fs, w)
  {
    hide PrintFilter;
    if fs != [] {
      var first := PrintFilter(fs[0], i).value;
      var rest := PrintFilters(fs[1..], first.next).value;
      FilterNumbered(fs[0], i);
      BoundSplit(all, i, first.args, rest.args);
      FilterEval(fs[0], i, w, all);
      FiltersEval(fs[1..], first.next, w, all);
      var es := FilterExprs(fs[1..], first.next);
      assert Evals([FilterExpr(fs[0], i)] + es, w, all) == [Eval(FilterExpr(fs[0], i), w, all)] + Evals(es, w, all);
      assert FiltersMean(fs, w) == [FilterMeans(fs[0], w)] + FiltersMean(fs[1..], w);
    }
  }

  lemma EvalsAppend(es: seq<Expr>, fs: seq<Expr>, w: World, all: seq<string>)
    ensures Evals(es + fs, w, all) == Evals(es, w, all) + Evals(fs, w, all)
  {
  }

  lemma GroupEval(op: LogicalOp, es: seq<Expr>, w: World, all: seq<string>)
    requires es != []
    ensures Eval(GroupExpr(op, es), w, all) == GroupMeans(op, Evals(es, w, all))
  {
    AllAndEval(es, w, all);
    AllOrEval(es, w, all);
  }

  lemma {:induction false} LogicalEval(l: Logical, i: nat, w: World, all: seq<string>)
    requires PrintLogical(l, i).Ok? && GoodLogical(l)
    requires BoundFrom(all, i, PrintLogical(l, i).value.args)
    ensures Eval(LogicalExpr(l, i), w, all) == LogicalMeans(l, w)
    decreases l, 1
  {
    hide Eval;
    var filters := PrintFilters(l.filters, i).value;
    var groups := PrintLogicals(l.logicals, filters.next).value;
    FiltersNumbered(l.filters, i);
    BoundSplit(all, i, filters.args, groups.args);
    FiltersEval(l.filters, i, w, all);
    LogicalsEval(l.logicals, filters.next, w, all);
    var es, fs := FilterExprs(l.filters, i), LogicalExprs(l.logicals, filters.next);
    EvalsAppend(es, fs, w, all);
    GroupEval(l.op, es + fs, w, all);
  }

  lemma {:induction false} LogicalsEval(ls: seq<Logical>, i: nat, w: World, all: seq<string>)
    requires PrintLogicals(ls, i).Ok? && GoodLogicals(ls)
    requires BoundFrom(all, i, PrintLogicals(ls, i).value.args)
    ensures Evals(LogicalExprs(ls, i), w, all) == LogicalsMean(ls, w)
    decreases ls, 0
  {
    if ls != [] {
      var first := PrintLogical(ls[0], i).value;
      var rest := PrintLogicals(ls[1..], first.next).value;
      LogicalNumbered(ls[0], i);
      BoundSplit(all, i, first.args, rest.args);
      LogicalEval(ls[0], i, w, all);
      LogicalsEval(ls[1..], first.next, w, all);
      EvalsAppend([LogicalExpr(ls[0], i)], LogicalExprs(ls[1..], first.next), w, all);
    }
  }

  lemma {:induction false} FtsListEval(fs: seq<Fts>, language: string, i: nat, w: World, all: seq<string>)
    requires BoundFrom(all, i, PrintFtsList(fs, language, i).args)
    ensures Evals(FtsExprs(fs, language, i), w, all) == FtsListMeans(fs, language, w)
  {
    if fs != [] {
      BoundSplit(all, i, [fs[0].term], PrintFtsList(fs[1..], language, i + 1).args);
      FirstBound(all, i, fs[0].term);
      assert Eval(FtsExpr(fs[0], language, i), w, all) == FtsMeans(fs[0], language, w);
      FtsListEval(fs[1..], language, i + 1, w, all);
      EvalsAppend([FtsExpr(fs[0], language, i)], FtsExprs(fs[1..], language, i + 1), w, all);
      assert FtsListMeans(fs, language, w) == [FtsMeans(fs[0], language, w)] + FtsListMeans(fs[1..], language, w);
    }
  }

  lemma WhereEval(q: Where, language: string, i: nat, w: World, all: seq<string>)
    requires PrintWhere(q, language, i).Ok? && GoodWhere(q)
    requires WhereExprs(q, language, i) != []
    requires BoundFrom(all, i, PrintWhere(q, language, i).value.args)
    ensures Eval(AllAnd(WhereExprs(q, language, i)), w, all) == WhereMeans(q, language, w)
  {
    hide AllAnd;
    hide PrintFilters;
    hide PrintLogicals;
    var filters := PrintFilters(q.filters, i).value;
    var groups := PrintLogicals(q.logicals, filters.next).value;
    var fts := PrintFtsList(q.fts, language, groups.next);
    FiltersNumbered(q.filters, i);
    LogicalsNumbered(q.logicals, filters.next);
    BoundSplit(all, i, filters.args + groups.args, fts.args);
    BoundSplit(all, i, filters.args, groups.args);
    FiltersEval(q.filters, i, w, all);
    LogicalsEval(q.logicals, filters.next, w, all);
    FtsListEval(q.fts, language, groups.next, w, all);
    var es, fs := FilterExprs(q.filters, i), LogicalExprs(q.logicals, filters.next);
    EvalsAppend(es, fs, w, all);
    EvalsAppend(es + fs, FtsExprs(q.fts, language, groups.next), w, all);
    AllAndEval(WhereExprs(q, language, i), w, all);
  }
}
