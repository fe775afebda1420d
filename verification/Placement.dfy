/** The WHERE text does not depend on where its numbering starts, nor its meaning on the order of the conditions. */
module Placement {
  import opened Wrappers
  import opened Sql
  import opened Filters
  import opened Printer

  /** The text with every placeholder moved from a numbering that starts at `i` to one that starts at `j`. */
  function Shift(ts: seq<Token>, i: nat, j: nat): seq<Token> {
    seq(|ts|, k requires 0 <= k < |ts| =>
      if ts[k].Holder? && ts[k].n >= i then Holder(ts[k].n - i + j) else ts[k])
  }

  ghost predicate Shifted(a: Piece, b: Piece, i: nat, j: nat) {
    b.args == a.args && b.next == a.next - i + j && b.tokens == Shift(a.tokens, i, j)
  }

  function ShiftList(list: seq<seq<Token>>, i: nat, j: nat): (r: seq<seq<Token>>)
    ensures |r| == |list|
  {
    seq(|list|, k requires 0 <= k < |list| => Shift(list[k], i, j))
  }

  ghost predicate ListShifted(a: Pieces, b: Pieces, i: nat, j: nat) {
    b.args == a.args && b.next == a.next - i + j && b.list == ShiftList(a.list, i, j)
  }

  lemma ShiftConcat(a: seq<Token>, b: seq<Token>, i: nat, j: nat)
    ensures Shift(a + b, i, j) == Shift(a, i, j) + Shift(b, i, j)
  {
  }

  lemma {:induction false} ShiftHolders(i: nat, j: nat, at: nat, count: nat)
    requires at >= i
    ensures Shift(HolderList(at, count), i, j) == HolderList(at - i + j, count)
    decreases count
  {
    if count > 1 {
      ShiftHolders(i, j, at + 1, count - 1);
      ShiftConcat([Holder(at), Comma], HolderList(at + 1, count - 1), i, j);
    }
  }

  lemma ShiftNegate(negate: bool, ts: seq<Token>, i: nat, j: nat)
    ensures Shift(Negate(negate, ts), i, j) == Negate(negate, Shift(ts, i, j))
  {
  }

  lemma AmongShifts(column: string, n: nat, i: nat, j: nat, at: nat)
    requires at >= i
    ensures Shift([Column(column), In, Open] + HolderList(at, n) + [Close], i, j)
            == [Column(column), In, Open] + HolderList(at - i + j, n) + [Close]
  {
    ShiftHolders(i, j, at, n);
    var head := [Column(column), In, Open];
    ShiftConcat(head + HolderList(at, n), [Close], i, j);
    ShiftConcat(head, HolderList(at, n), i, j);
  }

  lemma ComparisonShifts(before: seq<Token>, i: nat, j: nat, at: nat)
    requires at >= i && forall k :: 0 <= k < |before| ==> !before[k].Holder?
    ensures Shift(before + [Holder(at)], i, j) == before + [Holder(at - i + j)]
  {
  }

  lemma FilterShifts(f: Filter, i: nat, j: nat, at: nat)
    requires at >= i
    ensures var a, b := PrintFilter(f, at), PrintFilter(f, at - i + j);
            (a.Ok? <==> b.Ok?) && (a.Ok? ==> Shifted(a.value, b.value, i, j))
  {
    hide IsWord;
    hide InValues;
    hide Symbol;
    hide HolderList;
    if f.operator.Among? {
      AmongShifts(f.column, |InValues(f.value)|, i, j, at);
      ShiftNegate(f.negate, [Column(f.column), In, Open] + HolderList(at, |InValues(f.value)|) + [Close], i, j);
    } else if !f.operator.Is? {
      var op := [Op(Symbol(f.operator))] + if f.modifier == "" then [] else [Quantifier(f.modifier)];
      ComparisonShifts([Column(f.column)] + op, i, j, at);
      ShiftNegate(f.negate, [Column(f.column)] + op + [Holder(at)], i, j);
    }
  }

  lemma FirstShifted(a: Piece, b: Piece, ra: Pieces, rb: Pieces, i: nat, j: nat)
    requires Shifted(a, b, i, j) && ListShifted(ra, rb, i, j)
    ensures ListShifted(Pieces([a.tokens] + ra.list, a.args + ra.args, ra.next),
                        Pieces([b.tokens] + rb.list, b.args + rb.args, rb.next), i, j)
  {
  }

  lemma {:induction false} FiltersShift(fs: seq<Filter>, i: nat, j: nat, at: nat)
    requires at >= i
    ensures var a, b := PrintFilters(fs, at), PrintFilters(fs, at - i + j);
            (a.Ok? <==> b.Ok?) && (a.Ok? ==> ListShifted(a.value, b.value, i, j))
  {
    hide PrintFilter;
    if fs != [] {
      FilterShifts(fs[0], i, j, at);
      var a, b := PrintFilter(fs[0], at), PrintFilter(fs[0], at - i + j);
      if a.Ok? {
        assert a.value.next >= at by { FilterNumbered(fs[0], at); }
        FiltersShift(fs[1..], i, j, a.value.next);
        var ra, rb := PrintFilters(fs[1..], a.value.next), PrintFilters(fs[1..], b.value.next);
        if ra.Ok? {
          FirstShifted(a.value, b.value, ra.value, rb.value, i, j);
        }
      }
    }
  }

  lemma {:induction false} JoinShifts(list: seq<seq<Token>>, joiner: Token, i: nat, j: nat)
    requires !joiner.Holder?
    ensures Shift(Join(list, joiner), i, j) == Join(ShiftList(list, i, j), joiner)
  {
    if |list| > 1 {
      JoinShifts(list[1..], joiner, i, j);
      ShiftConcat(list[0] + [joiner], Join(list[1..], joiner), i, j);
      ShiftConcat(list[0], [joiner], i, j);
      assert ShiftList(list, i, j)[1..] == ShiftList(list[1..], i, j);
    }
  }

  lemma AppendShifts(a: Pieces, b: Pieces, c: Pieces, d: Pieces, i: nat, j: nat)
    requires ListShifted(a, c, i, j) && ListShifted(b, d, i, j)
    ensures ListShifted(Append(a, b), Append(c, d), i, j)
  {
  }

  lemma GroupShifts(op: LogicalOp, a: Pieces, b: Pieces, i: nat, j: nat)
    requires ListShifted(a, b, i, j)
    ensures Shifted(Group(op, a), Group(op, b), i, j)
  {
    var joiner := if op.AnyOf? then Or else And;
    JoinShifts(a.list, joiner, i, j);
  }

  lemma {:induction false} LogicalShifts(l: Logical, i: nat, j: nat, at: nat)
    requires at >= i
    ensures var a, b := PrintLogical(l, at), PrintLogical(l, at - i + j);
            (a.Ok? <==> b.Ok?) && (a.Ok? ==> Shifted(a.value, b.value, i, j))
    decreases l, 1
  {
    hide PrintLogicals;
    FiltersShift(l.filters, i, j, at);
    var a, b := PrintFilters(l.filters, at), PrintFilters(l.filters, at - i + j);
    if a.Ok? {
      FiltersNumbered(l.filters, at);
      LogicalsShift(l.logicals, i, j, a.value.next);
      var c, d := PrintLogicals(l.logicals, a.value.next), PrintLogicals(l.logicals, b.value.next);
      if c.Ok? {
        AppendShifts(a.value, c.value, b.value, d.value, i, j);
        GroupShifts(l.op, Append(a.value, c.value), Append(b.value, d.value), i, j);
      }
    }
  }

  lemma {:induction false} LogicalsShift(ls: seq<Logical>, i: nat, j: nat, at: nat)
    requires at >= i
    ensures var a, b := PrintLogicals(ls, at), PrintLogicals(ls, at - i + j);
            (a.Ok? <==> b.Ok?) && (a.Ok? ==> ListShifted(a.value, b.value, i, j))
    decreases ls, 0
  {
    if ls != [] {
      LogicalShifts(ls[0], i, j, at);
      var a, b := PrintLogical(ls[0], at), PrintLogical(ls[0], at - i + j);
      if a.Ok? {
        LogicalNumbered(ls[0], at);
        LogicalsShift(ls[1..], i, j, a.value.next);
        var ra, rb := PrintLogicals(ls[1..], a.value.next), PrintLogicals(ls[1..], b.value.next);
        if ra.Ok? {
          FirstShifted(a.value, b.value, ra.value, rb.value, i, j);
        }
      }
    }
  }

  lemma {:induction false} FtsListShifts(fs: seq<Fts>, language: string, i: nat, j: nat, at: nat)
    requires at >= i
    ensures ListShifted(PrintFtsList(fs, language, at), PrintFtsList(fs, language, at - i + j), i, j)
  {
    if fs != [] {
      var a, b := PrintFts(fs[0], language, at), PrintFts(fs[0], language, at - i + j);
      FtsListShifts(fs[1..], language, i, j, at + 1);
      assert Shifted(a, b, i, j);
      FirstShifted(a, b, PrintFtsList(fs[1..], language, a.next), PrintFtsList(fs[1..], language, b.next), i, j);
    }
  }

  /**
   The WHERE clause started at placeholder `j` is the one started at `i` with every placeholder moved by the
   difference, with the same arguments.
   */
  lemma PrintWhereAnywhere(q: Where, language: string, i: nat, j: nat)
    ensures var a, b := PrintWhere(q, language, i), PrintWhere(q, language, j);
            (a.Ok? <==> b.Ok?) && (a.Ok? ==> Shifted(a.value, b.value, i, j))
  {
    hide PrintFilters;
    FiltersShift(q.filters, i, j, i);
    var a, b := PrintFilters(q.filters, i), PrintFilters(q.filters, j);
    if a.Ok? {
      FiltersNumbered(q.filters, i);
      LogicalsShift(q.logicals, i, j, a.value.next);
      var c, d := PrintLogicals(q.logicals, a.value.next), PrintLogicals(q.logicals, b.value.next);
      if c.Ok? {
        LogicalsNumbered(q.logicals, a.value.next);
        var e, f := PrintFtsList(q.fts, language, c.value.next), PrintFtsList(q.fts, language, d.value.next);
        FtsListShifts(q.fts, language, i, j, c.value.next);
        AppendShifts(a.value, c.value, b.value, d.value, i, j);
        AppendShifts(Append(a.value, c.value), e, Append(b.value, d.value), f, i, j);
        JoinShifts(Append(Append(a.value, c.value), e).list, And, i, j);
      }
    }
  }
}
