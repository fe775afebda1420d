/** Main results on the WHERE text: when it can be read, and that it then means the filters. */
module Faithful {
  import opened Wrappers
  import opened Sql
  import opened Filters
  import opened Printer
  import opened Meaning

  // ----- texts that cannot be read

  lemma NegateBroken(negate: bool, ts: seq<Token>)
    requires Broken(ts)
    ensures Broken(Negate(negate, ts))
  {
    if negate {
      forall rest: seq<Token> | Ends(rest) ensures ReadNot(Negate(true, ts) + rest).None? {
        var all := Negate(true, ts) + rest;
        assert all[1..] == [Open] + (ts + ([Close] + rest));
        assert all[1..][1..] == ts + ([Close] + rest);
        assert Ends([Close] + rest);
        assert ReadNot(ts + ([Close] + rest)).None?;
        assert ReadAnd(ts + ([Close] + rest)).None?;
        assert ReadOr(all[1..][1..]).None?;
      }
    }
  }

  lemma EmptyInBroken(column: string)
    ensures Broken([Column(column), In, Open, Close])
  {
    var ts := [Column(column), In, Open, Close];
    forall rest: seq<Token> ensures ReadNot(ts + rest).None? {
      assert (ts + rest)[3..] == [Close] + rest;
    }
  }

  lemma ModifierBroken(column: string, symbol: string, modifier: string, i: nat)
    ensures Broken([Column(column), Op(symbol), Quantifier(modifier), Holder(i)])
  {
    var ts := [Column(column), Op(symbol), Quantifier(modifier), Holder(i)];
    forall rest: seq<Token> ensures ReadNot(ts + rest).None? {
      assert (ts + rest)[2] == Quantifier(modifier);
    }
  }

  lemma FilterBroken(f: Filter, i: nat)
    requires !GoodFilter(f)
    ensures PrintFilter(f, i).Ok? && Broken(PrintFilter(f, i).value.tokens)
  {
    if f.operator.Among? {
      EmptyInBroken(f.column);
      assert [Column(f.column), In, Open] + HolderList(i, 0) + [Close] == [Column(f.column), In, Open, Close];
      NegateBroken(f.negate, [Column(f.column), In, Open, Close]);
    } else {
      var ts := [Column(f.column), Op(Symbol(f.operator)), Quantifier(f.modifier), Holder(i)];
      ModifierBroken(f.column, Symbol(f.operator), f.modifier, i);
      assert [Column(f.column)] + ([Op(Symbol(f.operator))] + [Quantifier(f.modifier)]) + [Holder(i)] == ts;
      NegateBroken(f.negate, ts);
    }
  }

  lemma GroupBroken(op: LogicalOp, p: Pieces)
    requires p.list == [] || SomeBroken(p.list)
    ensures Broken(Group(op, p).tokens)
  {
    if p.list == [] {
      forall rest: seq<Token> | Ends(rest) ensures ReadNot([] + rest).None? {
        assert [] + rest == rest;
      }
    } else {
      var joiner := if op.AnyOf? then Or else And;
      var inner := [Open] + Join(p.list, joiner) + [Close];
      forall rest: seq<Token> | Ends(rest) ensures ReadNot(inner + rest).None? {
        assert (inner + rest)[1..] == Join(p.list, joiner) + ([Close] + rest);
        BrokenJoin(p.list, joiner, [Close] + rest);
      }
      forall rest: seq<Token> | Ends(rest) ensures ReadNot([Not] + inner + rest).None? {
        assert ([Not] + inner + rest)[1..] == inner + rest;
      }
    }
  }

  /** Each printed piece is an operand when its source is good, and broken when it is not. */
  ghost predicate Sorted(list: seq<seq<Token>>, good: seq<bool>) {
    && |list| == |good|
    && forall k :: 0 <= k < |list| ==> if good[k] then exists e :: Operand(list[k], e) else Broken(list[k])
  }

  function GoodOnes(fs: seq<Filter>): (r: seq<bool>)
    ensures |r| == |fs|
  {
    seq(|fs|, k requires 0 <= k < |fs| => GoodFilter(fs[k]))
  }

  function GoodGroups(ls: seq<Logical>): (r: seq<bool>)
    ensures |r| == |ls|
  {
    seq(|ls|, k requires 0 <= k < |ls| => GoodLogical(ls[k]))
  }

  lemma {:induction false} GoodLogicalsAll(ls: seq<Logical>)
    ensures GoodLogicals(ls) <==> forall k :: 0 <= k < |ls| ==> GoodLogical(ls[k])
  {
    if ls != [] {
      GoodLogicalsAll(ls[1..]);
      assert forall k :: 0 < k < |ls| ==> ls[k] == ls[1..][k - 1];
    }
  }

  lemma SortedFirst(ts: seq<Token>, list: seq<seq<Token>>, g: bool, good: seq<bool>)
    requires if g then exists e :: Operand(ts, e) else Broken(ts)
    requires Sorted(list, good)
    ensures Sorted([ts] + list, [g] + good)
  {
  }

  lemma SortedAppend(a: seq<seq<Token>>, b: seq<seq<Token>>, ga: seq<bool>, gb: seq<bool>)
    requires Sorted(a, ga) && Sorted(b, gb)
    ensures Sorted(a + b, ga + gb)
  {
  }

  lemma SortedBroken(list: seq<seq<Token>>, good: seq<bool>)
    requires Sorted(list, good) && false in good
    ensures SomeBroken(list)
  {
    var k :| 0 <= k < |good| && !good[k];
    assert Broken(list[k]);
  }

  lemma {:induction false} FiltersSorted(fs: seq<Filter>, i: nat)
    requires PrintFilters(fs, i).Ok?
    ensures Sorted(PrintFilters(fs, i).value.list, GoodOnes(fs))
  {
    if fs != [] {
      var first := PrintFilter(fs[0], i).value;
      if GoodFilter(fs[0]) {
        FilterReads(fs[0], i);
      } else {
        FilterBroken(fs[0], i);
      }
      FiltersSorted(fs[1..], first.next);
      SortedFirst(first.tokens, PrintFilters(fs[1..], first.next).value.list, GoodFilter(fs[0]), GoodOnes(fs[1..]));
      assert GoodOnes(fs) == [GoodFilter(fs[0])] + GoodOnes(fs[1..]);
    }
  }

  lemma {:induction false} LogicalBroken(l: Logical, i: nat)
    requires PrintLogical(l, i).Ok? && !GoodLogical(l)
    ensures Broken(PrintLogical(l, i).value.tokens)
    decreases l, 1
  {
    var filters := PrintFilters(l.filters, i).value;
    var groups := PrintLogicals(l.logicals, filters.next).value;
    FiltersSorted(l.filters, i);
    LogicalsSorted(l.logicals, filters.next);
    SortedAppend(filters.list, groups.list, GoodOnes(l.filters), GoodGroups(l.logicals));
    if l.filters != [] || l.logicals != [] {
      SomeBad(l.filters, l.logicals);
      SortedBroken(filters.list + groups.list, GoodOnes(l.filters) + GoodGroups(l.logicals));
    }
    GroupBroken(l.op, Append(filters, groups));
  }

  lemma SomeBad(fs: seq<Filter>, ls: seq<Logical>)
    requires !((forall k :: 0 <= k < |fs| ==> GoodFilter(fs[k])) && GoodLogicals(ls))
    ensures false in GoodOnes(fs) + GoodGroups(ls)
  {
    GoodLogicalsAll(ls);
    if k :| 0 <= k < |fs| && !GoodFilter(fs[k]) {
      assert !GoodOnes(fs)[k];
    } else {
      var k :| 0 <= k < |ls| && !GoodLogical(ls[k]);
      assert !GoodGroups(ls)[k];
    }
  }

  lemma {:induction false} LogicalsSorted(ls: seq<Logical>, i: nat)
    requires PrintLogicals(ls, i).Ok?
    ensures Sorted(PrintLogicals(ls, i).value.list, GoodGroups(ls))
    decreases ls, 0
  {
    if ls != [] {
      var first := PrintLogical(ls[0], i).value;
      if GoodLogical(ls[0]) {
        LogicalReads(ls[0], i);
      } else {
        LogicalBroken(ls[0], i);
      }
      LogicalsSorted(ls[1..], first.next);
      SortedFirst(first.tokens, PrintLogicals(ls[1..], first.next).value.list, GoodLogical(ls[0]), GoodGroups(ls[1..]));
      assert GoodGroups(ls) == [GoodLogical(ls[0])] + GoodGroups(ls[1..]);
    }
  }

  lemma WhereBroken(q: Where, language: string, i: nat)
    requires PrintWhere(q, language, i).Ok? && !GoodWhere(q)
    ensures ReadWhere(PrintWhere(q, language, i).value.tokens).None?
  {
    var filters := PrintFilters(q.filters, i).value;
    var groups := PrintLogicals(q.logicals, filters.next).value;
    var fts := PrintFtsList(q.fts, language, groups.next);
    FiltersSorted(q.filters, i);
    LogicalsSorted(q.logicals, filters.next);
    FtsListReads(q.fts, language, groups.next);
    var good := seq(|q.fts|, k requires 0 <= k < |q.fts| => true);
    assert Sorted(fts.list, good) by {
      forall k | 0 <= k < |fts.list| ensures good[k] && exists e :: Operand(fts.list[k], e) {
        assert Operand(fts.list[k], FtsExprs(q.fts, language, groups.next)[k]);
      }
    }
    var two := GoodOnes(q.filters) + GoodGroups(q.logicals);
    SortedAppend(filters.list, groups.list, GoodOnes(q.filters), GoodGroups(q.logicals));
    SortedAppend(filters.list + groups.list, fts.list, two, good);
    SomeBad(q.filters, q.logicals);
    var list := PrintParts(q, language, i).value.list;
    assert false in two + good by {
      var k :| 0 <= k < |two| && !two[k];
      assert !(two + good)[k];
    }
    SortedBroken(list, two + good);
    BrokenJoin(list, And, []);
    assert Join(list, And) + [] == Join(list, And);
  }

  // ----- texts that are empty

  /** A request without conditions, or whose only condition is an empty group, prints no WHERE clause. */
  predicate PrintsNothing(q: Where) {
    && q.filters == [] && q.fts == []
    && (q.logicals == [] || (|q.logicals| == 1 && EmptyGroup(q.logicals[0])))
  }

  lemma FilterPrintsSomething(f: Filter, i: nat)
    requires PrintFilter(f, i).Ok?
    ensures PrintFilter(f, i).value.tokens != []
  {
  }

  lemma LogicalPrintsNothing(l: Logical, i: nat)
    requires PrintLogical(l, i).Ok?
    ensures PrintLogical(l, i).value.tokens == [] <==> EmptyGroup(l)
  {
  }

  lemma NothingPrinted(q: Where, language: string, i: nat)
    requires PrintWhere(q, language, i).Ok?
    ensures PrintWhere(q, language, i).value.tokens == [] <==> PrintsNothing(q)
  {
    var filters := PrintFilters(q.filters, i).value;
    var groups := PrintLogicals(q.logicals, filters.next).value;
    FiltersNumbered(q.filters, i);
    assert |filters.list| == |q.filters| by { FiltersSorted(q.filters, i); }
    assert |groups.list| == |q.logicals| by { LogicalsSorted(q.logicals, filters.next); }
    assert |PrintFtsList(q.fts, language, groups.next).list| == |q.fts| by {
      FtsListReads(q.fts, language, groups.next);
    }
    if q.filters != [] {
      FilterPrintsSomething(q.filters[0], i);
    } else if q.logicals != [] {
      LogicalPrintsNothing(q.logicals[0], i);
      assert q.fts == [] ==> PrintParts(q, language, i).value.list == groups.list;
    }
  }

  /**
   The WHERE text of a request. It is empty exactly when the request prints no condition. Otherwise it can be
   read exactly when there is no empty group at any depth, no empty IN list and no modifier; and then, whatever
   the row and wherever its arguments stand, it is true, false or unknown exactly as the filters are: groups
   are conjunctions and disjunctions, a negated group the negation of a conjunction, and the unparenthesised
   conjunction at the top never regroups.
   */
  lemma WhereIsFaithful(q: Where, language: string, i: nat, w: World, all: seq<string>)
    requires PrintWhere(q, language, i).Ok?
    requires BoundFrom(all, i, PrintWhere(q, language, i).value.args)
    ensures var text := PrintWhere(q, language, i).value.tokens;
            && (text == [] <==> PrintsNothing(q))
            && (text != [] ==> (ReadWhere(text).Some? <==> GoodWhere(q)))
            && (text != [] && GoodWhere(q) ==> Eval(ReadWhere(text).value, w, all) == WhereMeans(q, language, w))
  {
    NothingPrinted(q, language, i);
    if !PrintsNothing(q) {
      if GoodWhere(q) {
        WhereReads(q, language, i);
        WhereEval(q, language, i, w, all);
      } else {
        WhereBroken(q, language, i);
      }
    }
  }

  /** An empty `_or` group means false, but alone it prints nothing, and the statement applies to every row. */
  lemma LoneEmptyGroupIsDropped(op: LogicalOp, language: string, w: World)
    ensures var q := Where([], [Logical(op, [], [])], []);
            && PrintWhere(q, language, 1).Ok? && PrintWhere(q, language, 1).value.tokens == []
            && (WhereMeans(q, language, w) == True <==> op.AllOf?)
  {
    var l := Logical(op, [], []);
    assert [l][1..] == [];
    assert PrintLogicals([], 1) == Ok(Pieces([], [], 1));
    assert PrintLogicals([l], 1) == Ok(Pieces([[]] + [], [] + [], 1));
    assert LogicalsMean([l], w) == [LogicalMeans(l, w)] + LogicalsMean([], w);
    var parts := FiltersMean([], w) + LogicalsMean([l], w) + FtsListMeans([], language, w);
    assert parts == [LogicalMeans(l, w)];
    assert FiltersMean([], w) + LogicalsMean([], w) == [];
  }
}
