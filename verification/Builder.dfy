/** The query builder as it runs: lists grow in loops, and one placeholder counter is advanced in place. */
module Builder {
  import opened Wrappers
  import opened Sql
  import opened Text
  import opened Filters
  import opened Printer

  /** The shared `*argIdx`. */
  class Counter {
    var n: nat

    constructor ()
      ensures n == 1
    {
      n := 1;
    }
  }

  // ----- IN lists

  lemma SplitInStep(s: string, i: nat, depth: nat, current: string)
    requires i < |s|
    ensures SplitIn(s[i..], depth, current) ==
            if s[i] == '"' then SplitIn(s[i + 1..], depth + 1, current)
            else if s[i] == ',' && depth == 0 then [TrimSpace(current)] + SplitIn(s[i + 1..], 0, "")
            else SplitIn(s[i + 1..], depth, current + [s[i]])
  {
    assert s[i..][1..] == s[i + 1..];
  }

  method ParseInValues(value: string) returns (values: seq<string>)
    ensures values == InValues(value)
  {
    values := SplitValues(TrimParens(value));
  }

  /** Appends one value; `more` is what the rest of the text will give. */
  function Grow(values: seq<string>, value: string, ghost more: seq<string>): (r: seq<string>)
    ensures r + more == values + ([value] + more)
  {
    values + [value]
  }

  method SplitValues(s: string) returns (values: seq<string>)
    ensures values == SplitIn(s, 0, "")
  {
    ghost var all := SplitIn(s, 0, "");
    values := [];
    var depth: nat := 0;
    var current := "";
    var i := 0;
    assert s[0..] == s;
    while i < |s|
      invariant 0 <= i <= |s|
      invariant values + SplitIn(s[i..], depth, current) == all
    {
      SplitInStep(s, i, depth, current);
      if s[i] == '"' {
        depth := depth + 1;
      } else if s[i] == ',' && depth == 0 {
        values := Grow(values, TrimSpace(current), SplitIn(s[i + 1..], 0, ""));
        current := "";
      } else {
        current := current + [s[i]];
      }
      i := i + 1;
    }
    assert s[i..] == [];
    if current != [] {
      values := Grow(values, TrimSpace(current), []);
    }
  }

  lemma {:induction false} HolderListGrows(i: nat, count: nat)
    ensures HolderList(i, count + 1) == HolderList(i, count) + (if count > 0 then [Comma] else []) + [Holder(i + count)]
    decreases count
  {
    if count > 1 {
      HolderListGrows(i + 1, count - 1);
    }
  }

  // ----- conditions

  /** One placeholder for each value of an IN list. */
  method BuildHolders(count: nat, argIdx: Counter) returns (holders: seq<Token>)
    modifies argIdx
    ensures holders == HolderList(old(argIdx.n), count) && argIdx.n == old(argIdx.n) + count
  {
    ghost var start := argIdx.n;
    holders := [];
    var i := 0;
    while i < count
      invariant 0 <= i <= count && argIdx.n == start + i
      invariant holders == HolderList(start, i)
    {
      HolderListGrows(start, i);
      if i > 0 {
        holders := holders + [Comma];
      }
      holders := holders + [Holder(argIdx.n)];
      argIdx.n := argIdx.n + 1;
      i := i + 1;
    }
  }

  method BuildFilterCondition(f: Filter, argIdx: Counter) returns (r: Result<Piece, Fault>)
    modifies argIdx
    ensures r == PrintFilter(f, old(argIdx.n))
    ensures r.Ok? ==> argIdx.n == r.value.next
  {
    hide IsWord;
    hide InValues;
    hide Symbol;
    hide HolderList;
    if f.operator.Is? {
      var word := IsWord(f.value);
      if word.None? {
        return Err(InvalidIsValue(f.value));
      }
      var negation := if f.negate then [Not] else [];
      return Ok(Piece([Column(f.column), Token.Is] + negation + [Word(word.value)], [], argIdx.n));
    }
    if f.operator.Among? {
      var values := ParseInValues(f.value);
      var holders := BuildHolders(|values|, argIdx);
      return Ok(Piece(Negate(f.negate, [Column(f.column), In, Open] + holders + [Close]), values, argIdx.n));
    }
    var op := [Op(Symbol(f.operator))];
    if f.modifier != "" {
      op := op + [Quantifier(f.modifier)];
    }
    assert op == [Op(Symbol(f.operator))] + if f.modifier == "" then [] else [Quantifier(f.modifier)];
    var tokens := [Column(f.column)] + op + [Holder(argIdx.n)];
    argIdx.n := argIdx.n + 1;
    return Ok(Piece(Negate(f.negate, tokens), [f.value], argIdx.n));
  }

  function After(done: Pieces, rest: Result<Pieces, Fault>): Result<Pieces, Fault> {
    if rest.Err? then rest else Ok(Append(done, rest.value))
  }

  lemma AfterNothing(n: nat, rest: Result<Pieces, Fault>)
    ensures After(Pieces([], [], n), rest) == rest
  {
    if rest.Ok? {
      assert [] + rest.value.list == rest.value.list && [] + rest.value.args == rest.value.args;
    }
  }

  function Grown(done: Pieces, p: Piece): Pieces {
    Pieces(done.list + [p.tokens], done.args + p.args, p.next)
  }

  lemma FilterStep(done: Pieces, fs: seq<Filter>, i: nat, n: nat)
    requires i < |fs|
    ensures var c := PrintFilter(fs[i], n);
            After(done, PrintFilters(fs[i..], n)) ==
            if c.Err? then Err(c.fault) else After(Grown(done, c.value), PrintFilters(fs[i + 1..], c.value.next))
  {
    assert fs[i..][1..] == fs[i + 1..];
    var c := PrintFilter(fs[i], n);
    if c.Ok? {
      var rest := PrintFilters(fs[i + 1..], c.value.next);
      if rest.Ok? {
        assert done.list + ([c.value.tokens] + rest.value.list) == done.list + [c.value.tokens] + rest.value.list;
        assert done.args + (c.value.args + rest.value.args) == done.args + c.value.args + rest.value.args;
      }
    }
  }

  lemma LogicalStep(done: Pieces, ls: seq<Logical>, i: nat, n: nat)
    requires i < |ls|
    ensures var c := PrintLogical(ls[i], n);
            After(done, PrintLogicals(ls[i..], n)) ==
            if c.Err? then Err(c.fault) else After(Grown(done, c.value), PrintLogicals(ls[i + 1..], c.value.next))
  {
    assert ls[i..][1..] == ls[i + 1..];
    var c := PrintLogical(ls[i], n);
    if c.Ok? {
      var rest := PrintLogicals(ls[i + 1..], c.value.next);
      if rest.Ok? {
        assert done.list + ([c.value.tokens] + rest.value.list) == done.list + [c.value.tokens] + rest.value.list;
        assert done.args + (c.value.args + rest.value.args) == done.args + c.value.args + rest.value.args;
      }
    }
  }

  lemma FtsStep(done: Pieces, fs: seq<Fts>, language: string, i: nat, n: nat)
    requires i < |fs|
    ensures var c := PrintFts(fs[i], language, n);
            Append(done, PrintFtsList(fs[i..], language, n)) ==
            Append(Grown(done, c), PrintFtsList(fs[i + 1..], language, c.next))
  {
    assert fs[i..][1..] == fs[i + 1..];
    var c := PrintFts(fs[i], language, n);
    var rest := PrintFtsList(fs[i + 1..], language, c.next);
    assert done.list + ([c.tokens] + rest.list) == done.list + [c.tokens] + rest.list;
    assert done.args + (c.args + rest.args) == done.args + c.args + rest.args;
  }

  method BuildFilters(fs: seq<Filter>, argIdx: Counter) returns (r: Result<Pieces, Fault>)
    modifies argIdx
    ensures r == PrintFilters(fs, old(argIdx.n))
    ensures r.Ok? ==> argIdx.n == r.value.next
  {
    ghost var start := argIdx.n;
    var conditions, args: seq<string> := [], [];
    var i := 0;
    assert fs[0..] == fs;
    AfterNothing(start, PrintFilters(fs, start));
    while i < |fs|
      invariant 0 <= i <= |fs|
      invariant PrintFilters(fs, start) == After(Pieces(conditions, args, argIdx.n), PrintFilters(fs[i..], argIdx.n))
    {
      FilterStep(Pieces(conditions, args, argIdx.n), fs, i, argIdx.n);
      var c := BuildFilterCondition(fs[i], argIdx);
      if c.Err? {
        return Err(c.fault);
      }
      conditions := conditions + [c.value.tokens];
      args := args + c.value.args;
      i := i + 1;
    }
    assert conditions + [] == conditions && args + [] == args;
    return Ok(Pieces(conditions, args, argIdx.n));
  }

  method BuildLogicals(ls: seq<Logical>, argIdx: Counter) returns (r: Result<Pieces, Fault>)
    modifies argIdx
    ensures r == PrintLogicals(ls, old(argIdx.n))
    ensures r.Ok? ==> argIdx.n == r.value.next
    decreases ls, 0
  {
    ghost var start := argIdx.n;
    var conditions, args: seq<string> := [], [];
    var i := 0;
    assert ls[0..] == ls;
    AfterNothing(start, PrintLogicals(ls, start));
    while i < |ls|
      invariant 0 <= i <= |ls|
      invariant PrintLogicals(ls, start) == After(Pieces(conditions, args, argIdx.n), PrintLogicals(ls[i..], argIdx.n))
    {
      LogicalStep(Pieces(conditions, args, argIdx.n), ls, i, argIdx.n);
      var c := BuildLogicalCondition(ls[i], argIdx);
      if c.Err? {
        return Err(c.fault);
      }
      conditions := conditions + [c.value.tokens];
      args := args + c.value.args;
      i := i + 1;
    }
    assert conditions + [] == conditions && args + [] == args;
    return Ok(Pieces(conditions, args, argIdx.n));
  }

  method BuildLogicalCondition(l: Logical, argIdx: Counter) returns (r: Result<Piece, Fault>)
    modifies argIdx
    ensures r == PrintLogical(l, old(argIdx.n))
    ensures r.Ok? ==> argIdx.n == r.value.next
    decreases l, 1
  {
    var filters := BuildFilters(l.filters, argIdx);
    if filters.Err? {
      return Err(filters.fault);
    }
    var groups := BuildLogicals(l.logicals, argIdx);
    if groups.Err? {
      return Err(groups.fault);
    }
    var conditions := filters.value.list + groups.value.list;
    if conditions == [] {
      return Ok(Piece([], [], argIdx.n));
    }
    var joiner := if l.op.AnyOf? then Or else And;
    var result := [Open] + Join(conditions, joiner) + [Close];
    if l.op.NoneOf? {
      result := [Not] + result;
    }
    return Ok(Piece(result, filters.value.args + groups.value.args, argIdx.n));
  }

  method BuildFtsCondition(f: Fts, language: string, argIdx: Counter) returns (p: Piece)
    modifies argIdx
    ensures p == PrintFts(f, language, old(argIdx.n)) && argIdx.n == p.next
  {
    var tokens := [Column(f.column), Op("@@"), TsQuery(language), Holder(argIdx.n), Close];
    argIdx.n := argIdx.n + 1;
    return Piece(Negate(f.negate, tokens), [f.term], argIdx.n);
  }

  /** The WHERE clause; empty when there is nothing to join. */
  method BuildWhere(q: Where, language: string, argIdx: Counter) returns (r: Result<Piece, Fault>)
    modifies argIdx
    ensures r == PrintWhere(q, language, old(argIdx.n))
    ensures r.Ok? ==> argIdx.n == r.value.next
  {
    var filters := BuildFilters(q.filters, argIdx);
    if filters.Err? {
      return Err(filters.fault);
    }
    var groups := BuildLogicals(q.logicals, argIdx);
    if groups.Err? {
      return Err(groups.fault);
    }
    ghost var start := argIdx.n;
    var conditions, args: seq<string> := [], [];
    var i := 0;
    while i < |q.fts|
      invariant 0 <= i <= |q.fts|
      invariant PrintFtsList(q.fts, language, start) ==
                Append(Pieces(conditions, args, argIdx.n), PrintFtsList(q.fts[i..], language, argIdx.n))
    {
      FtsStep(Pieces(conditions, args, argIdx.n), q.fts, language, i, argIdx.n);
      var c := BuildFtsCondition(q.fts[i], language, argIdx);
      conditions := conditions + [c.tokens];
      args := args + c.args;
      i := i + 1;
    }
    assert PrintFtsList(q.fts, language, start) == Pieces(conditions, args, argIdx.n);
    var list := filters.value.list + groups.value.list + conditions;
    return Ok(Piece(Join(list, And), filters.value.args + groups.value.args + args, argIdx.n));
  }
}
