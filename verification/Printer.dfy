/** What the builder prints: conditions as tokens, their arguments, and the next placeholder number. */
module Printer {
  import opened Wrappers
  import opened Sql
  import opened Filters

  /** `NilTable` is the panic of a builder that was made without its table. */
  datatype Fault = InvalidIsValue(value: string) | UnknownColumn(column: string) | NoColumns | NilTable

  /** A printed condition. */
  datatype Piece = Piece(tokens: seq<Token>, args: seq<string>, next: nat)

  /** A list of printed conditions, not yet joined. */
  datatype Pieces = Pieces(list: seq<seq<Token>>, args: seq<string>, next: nat)

  function HolderList(i: nat, count: nat): seq<Token>
    decreases count
  {
    if count == 0 then []
    else if count == 1 then [Holder(i)]
    else [Holder(i), Comma] + HolderList(i + 1, count - 1)
  }

  function Negate(negate: bool, tokens: seq<Token>): seq<Token> {
    if negate then [Not, Open] + tokens + [Close] else tokens
  }

  function PrintFilter(f: Filter, i: nat): Result<Piece, Fault> {
    if f.operator.Is? then
      var word := IsWord(f.value);
      if word.None? then Err(InvalidIsValue(f.value))
      else Ok(Piece([Column(f.column), Token.Is] + (if f.negate then [Not] else []) + [Word(word.value)], [], i))
    else if f.operator.Among? then
      var values := InValues(f.value);
      var tokens := [Column(f.column), In, Open] + HolderList(i, |values|) + [Close];
      Ok(Piece(Negate(f.negate, tokens), values, i + |values|))
    else
      var op := [Op(Symbol(f.operator))] + if f.modifier == "" then [] else [Quantifier(f.modifier)];
      Ok(Piece(Negate(f.negate, [Column(f.column)] + op + [Holder(i)]), [f.value], i + 1))
  }

  function PrintFilters(fs: seq<Filter>, i: nat): Result<Pieces, Fault> {
    if fs == [] then Ok(Pieces([], [], i))
    else
      var first :- PrintFilter(fs[0], i);
      var rest :- PrintFilters(fs[1..], first.next);
      Ok(Pieces([first.tokens] + rest.list, first.args + rest.args, rest.next))
  }

  function Append(a: Pieces, b: Pieces): Pieces {
    Pieces(a.list + b.list, a.args + b.args, b.next)
  }

  /** A group: nothing at all when it has no conditions. */
  function Group(op: LogicalOp, p: Pieces): Piece {
    if p.list == [] then Piece([], [], p.next)
    else
      var inner := [Open] + Join(p.list, if op.AnyOf? then Or else And) + [Close];
      Piece(if op.NoneOf? then [Not] + inner else inner, p.args, p.next)
  }

  function PrintLogical(l: Logical, i: nat): Result<Piece, Fault>
    decreases l, 1
  {
    var filters :- PrintFilters(l.filters, i);
    var groups :- PrintLogicals(l.logicals, filters.next);
    Ok(Group(l.op, Append(filters, groups)))
  }

  function PrintLogicals(ls: seq<Logical>, i: nat): Result<Pieces, Fault>
    decreases ls, 0
  {
    if ls == [] then Ok(Pieces([], [], i))
    else
      var first :- PrintLogical(ls[0], i);
      var rest :- PrintLogicals(ls[1..], first.next);
      Ok(Pieces([first.tokens] + rest.list, first.args + rest.args, rest.next))
  }

  function PrintFts(f: Fts, language: string, i: nat): Piece {
    Piece(Negate(f.negate, [Column(f.column), Op("@@"), TsQuery(language), Holder(i), Close]), [f.term], i + 1)
  }

  function PrintFtsList(fs: seq<Fts>, language: string, i: nat): Pieces {
    if fs == [] then Pieces([], [], i)
    else
      var first := PrintFts(fs[0], language, i);
      var rest := PrintFtsList(fs[1..], language, first.next);
      Pieces([first.tokens] + rest.list, first.args + rest.args, rest.next)
  }

  /** The conditions of a request, in the order they are printed. */
  function PrintParts(q: Where, language: string, i: nat): Result<Pieces, Fault> {
    var filters :- PrintFilters(q.filters, i);
    var groups :- PrintLogicals(q.logicals, filters.next);
    Ok(Append(Append(filters, groups), PrintFtsList(q.fts, language, groups.next)))
  }

  /** The WHERE text, its conditions joined without parentheses. */
  function PrintWhere(q: Where, language: string, i: nat): Result<Piece, Fault> {
    var parts :- PrintParts(q, language, i);
    Ok(Piece(Join(parts.list, And), parts.args, parts.next))
  }

  // ----- placeholders

  /** The numbers from `i` on, `n` of them. */
  function Numbers(i: nat, n: nat): seq<nat> {
    seq(n, k requires 0 <= k < n => i + k)
  }

  ghost predicate Numbered(p: Piece, i: nat) {
    p.next == i + |p.args| && Holders(p.tokens) == Numbers(i, |p.args|)
  }

  /** Joining adds no placeholder, so the list is counted piece after piece. */
  function ListHolders(list: seq<seq<Token>>): seq<nat> {
    if list == [] then [] else Holders(list[0]) + ListHolders(list[1..])
  }

  ghost predicate ListNumbered(p: Pieces, i: nat) {
    p.next == i + |p.args| && ListHolders(p.list) == Numbers(i, |p.args|)
  }

  lemma {:induction false} NoHolders(ts: seq<Token>)
    requires forall k :: 0 <= k < |ts| ==> !ts[k].Holder?
    ensures Holders(ts) == []
  {
    if ts != [] {
      NoHolders(ts[1..]);
    }
  }

  /** A text whose only placeholder is one of its tokens. */
  lemma OneHolder(before: seq<Token>, i: nat, after: seq<Token>)
    requires forall k :: 0 <= k < |before| ==> !before[k].Holder?
    requires forall k :: 0 <= k < |after| ==> !after[k].Holder?
    ensures Holders(before + [Holder(i)] + after) == [i]
  {
    NoHolders(before);
    NoHolders(after);
    HoldersOfConcat(before + [Holder(i)], after);
    HoldersOfConcat(before, [Holder(i)]);
    assert Holders([Holder(i)][1..]) == [];
  }

  lemma NumbersSplit(i: nat, m: nat, n: nat)
    ensures Numbers(i, m) + Numbers(i + m, n) == Numbers(i, m + n)
  {
  }

  lemma {:induction false} JoinHolders(list: seq<seq<Token>>, joiner: Token)
    requires joiner.And? || joiner.Or?
    ensures Holders(Join(list, joiner)) == ListHolders(list)
  {
    if |list| == 1 {
      assert ListHolders(list[1..]) == [];
    } else if |list| > 1 {
      JoinHolders(list[1..], joiner);
      HoldersOfConcat(list[0] + [joiner], Join(list[1..], joiner));
      HoldersOfConcat(list[0], [joiner]);
      assert Holders([joiner]) == [];
    }
  }

  lemma {:induction false} ListHoldersConcat(a: seq<seq<Token>>, b: seq<seq<Token>>)
    ensures ListHolders(a + b) == ListHolders(a) + ListHolders(b)
  {
    if a == [] {
      assert a + b == b;
    } else {
      assert (a + b)[1..] == a[1..] + b;
      ListHoldersConcat(a[1..], b);
    }
  }

  lemma {:induction false} HolderListHolders(i: nat, count: nat)
    ensures Holders(HolderList(i, count)) == Numbers(i, count)
    decreases count
  {
    if count > 1 {
      HolderListHolders(i + 1, count - 1);
      HoldersOfConcat([Holder(i), Comma], HolderList(i + 1, count - 1));
      assert [Holder(i), Comma][1..] == [Comma];
      assert Holders([Comma]) == [];
      assert Numbers(i, count) == [i] + Numbers(i + 1, count - 1);
    } else if count == 1 {
      assert [Holder(i)][1..] == [];
    }
  }

  lemma NegateHolders(negate: bool, tokens: seq<Token>)
    ensures Holders(Negate(negate, tokens)) == Holders(tokens)
  {
    if negate {
      HoldersOfConcat([Not, Open] + tokens, [Close]);
      HoldersOfConcat([Not, Open], tokens);
      assert [Not, Open][1..] == [Open];
      assert Holders([Open]) == [] && Holders([Close]) == [];
    }
  }

  lemma AmongNumbered(column: string, n: nat, i: nat)
    ensures Holders([Column(column), In, Open] + HolderList(i, n) + [Close]) == Numbers(i, n)
  {
    var head := [Column(column), In, Open];
    HoldersOfConcat(head + HolderList(i, n), [Close]);
    HoldersOfConcat(head, HolderList(i, n));
    HolderListHolders(i, n);
    NoHolders(head);
    NoHolders([Close]);
  }

  lemma ComparisonNumbered(before: seq<Token>, i: nat)
    requires forall k :: 0 <= k < |before| ==> !before[k].Holder?
    ensures Holders(before + [Holder(i)]) == Numbers(i, 1)
  {
    NoHolders(before);
    HoldersOfConcat(before, [Holder(i)]);
    assert Holders([Holder(i)][1..]) == [];
    assert Numbers(i, 1) == [i];
  }

  lemma FilterNumbered(f: Filter, i: nat)
    requires PrintFilter(f, i).Ok?
    ensures Numbered(PrintFilter(f, i).value, i)
  {
    if f.operator.Is? {
      NoHolders(PrintFilter(f, i).value.tokens);
    } else if f.operator.Among? {
      var n := |InValues(f.value)|;
      NegateHolders(f.negate, [Column(f.column), In, Open] + HolderList(i, n) + [Close]);
      AmongNumbered(f.column, n, i);
    } else {
      var op := [Op(Symbol(f.operator))] + if f.modifier == "" then [] else [Quantifier(f.modifier)];
      NegateHolders(f.negate, [Column(f.column)] + op + [Holder(i)]);
      ComparisonNumbered([Column(f.column)] + op, i);
    }
  }

  lemma FirstNumbered(first: Piece, rest: Pieces, i: nat)
    requires Numbered(first, i) && ListNumbered(rest, first.next)
    ensures ListNumbered(Pieces([first.tokens] + rest.list, first.args + rest.args, rest.next), i)
  {
    NumbersSplit(i, |first.args|, |rest.args|);
    assert ([first.tokens] + rest.list)[1..] == rest.list;
  }

  lemma {:induction false} FiltersNumbered(fs: seq<Filter>, i: nat)
    requires PrintFilters(fs, i).Ok?
    ensures ListNumbered(PrintFilters(fs, i).value, i)
  {
    if fs != [] {
      var first := PrintFilter(fs[0], i).value;
      FilterNumbered(fs[0], i);
      FiltersNumbered(fs[1..], first.next);
      FirstNumbered(first, PrintFilters(fs[1..], first.next).value, i);
    }
  }

  lemma AppendNumbered(a: Pieces, b: Pieces, i: nat)
    requires ListNumbered(a, i) && ListNumbered(b, a.next)
    ensures ListNumbered(Append(a, b), i)
  {
    NumbersSplit(i, |a.args|, |b.args|);
    ListHoldersConcat(a.list, b.list);
  }

  lemma GroupNumbered(op: LogicalOp, p: Pieces, i: nat)
    requires ListNumbered(p, i) && (p.list == [] ==> p.args == [])
    ensures Numbered(Group(op, p), i)
  {
    if p.list != [] {
      var joined := Join(p.list, if op.AnyOf? then Or else And);
      JoinHolders(p.list, if op.AnyOf? then Or else And);
      HoldersOfConcat([Open] + joined, [Close]);
      HoldersOfConcat([Open], joined);
      HoldersOfConcat([Not], [Open] + joined + [Close]);
      assert Holders([Open]) == [] && Holders([Close]) == [] && Holders([Not]) == [];
    }
  }

  lemma {:induction false} LogicalNumbered(l: Logical, i: nat)
    requires PrintLogical(l, i).Ok?
    ensures Numbered(PrintLogical(l, i).value, i)
    decreases l, 1
  {
    var filters := PrintFilters(l.filters, i).value;
    FiltersNumbered(l.filters, i);
    LogicalsNumbered(l.logicals, filters.next);
    var groups := PrintLogicals(l.logicals, filters.next).value;
    AppendNumbered(filters, groups, i);
    GroupNumbered(l.op, Append(filters, groups), i);
  }

  lemma {:induction false} LogicalsNumbered(ls: seq<Logical>, i: nat)
    requires PrintLogicals(ls, i).Ok?
    ensures ListNumbered(PrintLogicals(ls, i).value, i)
    decreases ls, 0
  {
    if ls != [] {
      var first := PrintLogical(ls[0], i).value;
      LogicalNumbered(ls[0], i);
      LogicalsNumbered(ls[1..], first.next);
      FirstNumbered(first, PrintLogicals(ls[1..], first.next).value, i);
    }
  }

  lemma {:induction false} FtsListNumbered(fs: seq<Fts>, language: string, i: nat)
    ensures ListNumbered(PrintFtsList(fs, language, i), i)
  {
    if fs != [] {
      var first := PrintFts(fs[0], language, i);
      var tokens := [Column(fs[0].column), Op("@@"), TsQuery(language), Holder(i), Close];
      NegateHolders(fs[0].negate, tokens);
      assert tokens == [Column(fs[0].column), Op("@@"), TsQuery(language)] + [Holder(i)] + [Close];
      OneHolder([Column(fs[0].column), Op("@@"), TsQuery(language)], i, [Close]);
      FtsListNumbered(fs[1..], language, first.next);
      FirstNumbered(first, PrintFtsList(fs[1..], language, first.next), i);
    }
  }

  /** The placeholders of the WHERE text are the next ones, each once and in order, one for each argument. */
  lemma WhereNumbered(q: Where, language: string, i: nat)
    requires PrintWhere(q, language, i).Ok?
    ensures Numbered(PrintWhere(q, language, i).value, i)
  {
    var filters := PrintFilters(q.filters, i).value;
    FiltersNumbered(q.filters, i);
    LogicalsNumbered(q.logicals, filters.next);
    var groups := PrintLogicals(q.logicals, filters.next).value;
    FtsListNumbered(q.fts, language, groups.next);
    var fts := PrintFtsList(q.fts, language, groups.next);
    AppendNumbered(filters, groups, i);
    AppendNumbered(Append(filters, groups), fts, i);
    JoinHolders(PrintParts(q, language, i).value.list, And);
  }
}
