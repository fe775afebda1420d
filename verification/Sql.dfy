/**
 A WHERE condition as tokens, and how PostgreSQL reads it: OR below AND below NOT, all below the tests on one
 column (section 4.1.6 of the PostgreSQL manual), with three-valued logic.
 */
module Sql {
  import opened Wrappers

  datatype Token =
    | Open | Close | Comma
    | And | Or | Not | In | Is
    | Word(text: string)      // NULL, TRUE, FALSE
    | Column(name: string)
    | Op(symbol: string)
    | Quantifier(text: string)
    | TsQuery(language: string)   // `plainto_tsquery('<language>',`
    | Holder(n: nat)

  datatype Expr =
    | Compare(column: string, symbol: string, holder: nat)
    | Among(column: string, holders: seq<nat>)
    | Test(column: string, what: string, negated: bool)
    | Matches(column: string, language: string, holder: nat)
    | NotE(e: Expr)
    | AndE(l: Expr, r: Expr)
    | OrE(l: Expr, r: Expr)

  // ----- reading

  datatype Read = Read(e: Expr, rest: seq<Token>)

  function ReadHolders(ts: seq<Token>): (r: Option<(seq<nat>, seq<Token>)>)
    ensures r.Some? ==> |r.value.1| < |ts| && r.value.0 != []
  {
    if ts == [] || !ts[0].Holder? then None
    else if |ts| > 1 && ts[1].Comma? then
      var more := ReadHolders(ts[2..]);
      if more.None? then None else Some(([ts[0].n] + more.value.0, more.value.1))
    else Some(([ts[0].n], ts[1..]))
  }

  /** A test on one column. */
  function ReadTest(ts: seq<Token>): (r: Option<Read>)
    ensures r.Some? ==> |r.value.rest| < |ts|
  {
    if |ts| < 3 || !ts[0].Column? then None
    else
      var c := ts[0].name;
      match ts[1]
      case Op(symbol) =>
        if ts[2].Holder? then Some(Read(Compare(c, symbol, ts[2].n), ts[3..]))
        else if symbol == "@@" && |ts| > 4 && ts[2].TsQuery? && ts[3].Holder? && ts[4].Close? then
          Some(Read(Matches(c, ts[2].language, ts[3].n), ts[5..]))
        else None
      case In =>
        if !ts[2].Open? then None
        else
          var list := ReadHolders(ts[3..]);
          if list.None? || list.value.1 == [] || !list.value.1[0].Close? then None
          else Some(Read(Among(c, list.value.0), list.value.1[1..]))
      case Is =>
        if ts[2].Word? then Some(Read(Test(c, ts[2].text, false), ts[3..]))
        else if ts[2].Not? && |ts| > 3 && ts[3].Word? then Some(Read(Test(c, ts[3].text, true), ts[4..]))
        else None
      case _ => None
  }

  function ReadNot(ts: seq<Token>): (r: Option<Read>)
    ensures r.Some? ==> |r.value.rest| < |ts|
    decreases |ts|, 0
  {
    if ts == [] then None
    else if ts[0].Not? then
      var r := ReadNot(ts[1..]);
      if r.None? then None else Some(Read(NotE(r.value.e), r.value.rest))
    else if ts[0].Open? then
      var r := ReadOr(ts[1..]);
      if r.None? || r.value.rest == [] || !r.value.rest[0].Close? then None
      else Some(Read(r.value.e, r.value.rest[1..]))
    else ReadTest(ts)
  }

  function ReadAnd(ts: seq<Token>): (r: Option<Read>)
    ensures r.Some? ==> |r.value.rest| < |ts|
    decreases |ts|, 1
  {
    var first := ReadNot(ts);
    if first.None? || first.value.rest == [] || !first.value.rest[0].And? then first
    else
      var more := ReadAnd(first.value.rest[1..]);
      if more.None? then None else Some(Read(AndE(first.value.e, more.value.e), more.value.rest))
  }

  function ReadOr(ts: seq<Token>): (r: Option<Read>)
    ensures r.Some? ==> |r.value.rest| < |ts|
    decreases |ts|, 2
  {
    var first := ReadAnd(ts);
    if first.None? || first.value.rest == [] || !first.value.rest[0].Or? then first
    else
      var more := ReadOr(first.value.rest[1..]);
      if more.None? then None else Some(Read(OrE(first.value.e, more.value.e), more.value.rest))
  }

  /** The condition of a whole WHERE clause, when the text is one. */
  function ReadWhere(ts: seq<Token>): Option<Expr> {
    var r := ReadOr(ts);
    if r.Some? && r.value.rest == [] then Some(r.value.e) else None
  }

  // ----- three-valued logic

  datatype Truth = True | False | Unknown

  function Not3(a: Truth): Truth {
    match a
    case True => False
    case False => True
    case Unknown => Unknown
  }

  function And3(a: Truth, b: Truth): Truth {
    if a == False || b == False then False
    else if a == True && b == True then True
    else Unknown
  }

  function Or3(a: Truth, b: Truth): Truth {
    if a == True || b == True then True
    else if a == False && b == False then False
    else Unknown
  }

  /** One row as the tests see it; the operators of the database are left open. */
  datatype World = World(
    compare: (string, string, string) -> Truth,
    matches: (string, string, string) -> Truth,
    test: (string, string) -> bool)

  function Arg(args: seq<string>, n: nat): string {
    if 1 <= n <= |args| then args[n - 1] else ""
  }

  function Member(w: World, column: string, values: seq<string>): Truth {
    if values == [] then False
    else Or3(w.compare(column, "=", values[0]), Member(w, column, values[1..]))
  }

  function ArgsOf(args: seq<string>, holders: seq<nat>): seq<string> {
    seq(|holders|, i requires 0 <= i < |holders| => Arg(args, holders[i]))
  }

  /** The truth of a condition on a row, placeholder `n` bound to the `n`-th argument. */
  function Eval(e: Expr, w: World, args: seq<string>): Truth {
    match e
    case Compare(c, symbol, n) => w.compare(c, symbol, Arg(args, n))
    case Among(c, ns) => Member(w, c, ArgsOf(args, ns))
    case Test(c, what, negated) => if w.test(c, what) != negated then True else False
    case Matches(c, language, n) => w.matches(c, language, Arg(args, n))
    case NotE(f) => Not3(Eval(f, w, args))
    case AndE(l, r) => And3(Eval(l, w, args), Eval(r, w, args))
    case OrE(l, r) => Or3(Eval(l, w, args), Eval(r, w, args))
  }

  // ----- joining

  function Join(pieces: seq<seq<Token>>, joiner: Token): seq<Token> {
    if pieces == [] then []
    else if |pieces| == 1 then pieces[0]
    else pieces[0] + [joiner] + Join(pieces[1..], joiner)
  }

  /** The placeholders of a text, from left to right. */
  function Holders(ts: seq<Token>): seq<nat> {
    if ts == [] then []
    else (if ts[0].Holder? then [ts[0].n] else []) + Holders(ts[1..])
  }

  lemma {:induction false} HoldersOfConcat(a: seq<Token>, b: seq<Token>)
    ensures Holders(a + b) == Holders(a) + Holders(b)
  {
    if a == [] {
      assert a + b == b;
    } else {
      assert (a + b)[1..] == a[1..] + b;
      HoldersOfConcat(a[1..], b);
    }
  }

  function AllAnd(es: seq<Expr>): Expr
    requires es != []
  {
    if |es| == 1 then es[0] else AndE(es[0], AllAnd(es[1..]))
  }

  function AllOr(es: seq<Expr>): Expr
    requires es != []
  {
    if |es| == 1 then es[0] else OrE(es[0], AllOr(es[1..]))
  }

  /** A text that reads as one operand whatever follows it. */
  ghost predicate Operand(ts: seq<Token>, e: Expr) {
    forall rest: seq<Token> :: ReadNot(ts + rest) == Some(Read(e, rest))
  }

  /** A text that ends an operand too early: nothing readable, when a joiner, a parenthesis or the end follows. */
  ghost predicate Broken(ts: seq<Token>) {
    forall rest: seq<Token> :: Ends(rest) ==> ReadNot(ts + rest).None?
  }

  predicate Ends(rest: seq<Token>) {
    rest == [] || rest[0].And? || rest[0].Or? || rest[0].Close?
  }

  ghost predicate Operands(pieces: seq<seq<Token>>, es: seq<Expr>) {
    |pieces| == |es| && forall i :: 0 <= i < |pieces| ==> Operand(pieces[i], es[i])
  }

  lemma OneOperand(p: seq<Token>, e: Expr, rest: seq<Token>)
    requires Operand(p, e)
    ensures rest == [] || !rest[0].And? ==> ReadAnd(p + rest) == Some(Read(e, rest))
    ensures rest == [] || !(rest[0].And? || rest[0].Or?) ==> ReadOr(p + rest) == Some(Read(e, rest))
  {
    assert ReadNot(p + rest) == Some(Read(e, rest));
  }

  lemma AndOperand(p: seq<Token>, e: Expr, tail: seq<Token>, f: Expr, rest: seq<Token>)
    requires Operand(p, e) && ReadAnd(tail) == Some(Read(f, rest))
    ensures ReadAnd(p + ([And] + tail)) == Some(Read(AndE(e, f), rest))
  {
    assert ReadNot(p + ([And] + tail)) == Some(Read(e, [And] + tail));
    assert ([And] + tail)[1..] == tail;
  }

  lemma OrOperand(p: seq<Token>, e: Expr, tail: seq<Token>, f: Expr, rest: seq<Token>)
    requires Operand(p, e) && ReadOr(tail) == Some(Read(f, rest))
    ensures ReadOr(p + ([Or] + tail)) == Some(Read(OrE(e, f), rest))
  {
    OneOperand(p, e, [Or] + tail);
    assert ([Or] + tail)[1..] == tail;
  }

  lemma {:induction false} ReadAndJoin(pieces: seq<seq<Token>>, es: seq<Expr>, rest: seq<Token>)
    requires pieces != [] && Operands(pieces, es)
    requires rest == [] || !rest[0].And?
    ensures ReadAnd(Join(pieces, And) + rest) == Some(Read(AllAnd(es), rest))
    decreases |pieces|
  {
    hide Operand;
    if |pieces| == 1 {
      OneOperand(pieces[0], es[0], rest);
    } else {
      var tail := Join(pieces[1..], And) + rest;
      assert Join(pieces, And) + rest == pieces[0] + ([And] + tail);
      ReadAndJoin(pieces[1..], es[1..], rest);
      AndOperand(pieces[0], es[0], tail, AllAnd(es[1..]), rest);
    }
  }

  lemma {:induction false} ReadOrJoin(pieces: seq<seq<Token>>, es: seq<Expr>, rest: seq<Token>)
    requires pieces != [] && Operands(pieces, es)
    requires rest == [] || !(rest[0].And? || rest[0].Or?)
    ensures ReadOr(Join(pieces, Or) + rest) == Some(Read(AllOr(es), rest))
    decreases |pieces|
  {
    hide Operand;
    if |pieces| == 1 {
      OneOperand(pieces[0], es[0], rest);
    } else {
      var tail := Join(pieces[1..], Or) + rest;
      assert Join(pieces, Or) + rest == pieces[0] + ([Or] + tail);
      ReadOrJoin(pieces[1..], es[1..], rest);
      OrOperand(pieces[0], es[0], tail, AllOr(es[1..]), rest);
    }
  }

  /** Every piece is an operand or broken, and one of them is broken. */
  ghost predicate SomeBroken(pieces: seq<seq<Token>>) {
    && (forall i :: 0 <= i < |pieces| ==> Broken(pieces[i]) || exists e :: Operand(pieces[i], e))
    && (exists i :: 0 <= i < |pieces| && Broken(pieces[i]))
  }

  lemma {:induction false} BrokenJoin(pieces: seq<seq<Token>>, joiner: Token, rest: seq<Token>)
    requires SomeBroken(pieces) && (joiner.And? || joiner.Or?)
    requires rest == [] || rest[0].Close?
    ensures joiner.And? ==> ReadAnd(Join(pieces, joiner) + rest).None?
    ensures joiner.Or? ==> ReadOr(Join(pieces, joiner) + rest).None?
    decreases |pieces|
  {
    hide ReadNot;
    if |pieces| == 1 {
      assert ReadNot(pieces[0] + rest).None?;
    } else {
      var tail := Join(pieces[1..], joiner) + rest;
      assert Join(pieces, joiner) + rest == pieces[0] + ([joiner] + tail);
      assert ([joiner] + tail)[1..] == tail;
      if Broken(pieces[0]) {
        assert ReadNot(pieces[0] + ([joiner] + tail)).None?;
      } else {
        var e :| Operand(pieces[0], e);
        assert ReadNot(pieces[0] + ([joiner] + tail)) == Some(Read(e, [joiner] + tail));
        var i :| 0 <= i < |pieces| && Broken(pieces[i]);
        assert Broken(pieces[1..][i - 1]);
        forall j | 0 <= j < |pieces[1..]|
          ensures Broken(pieces[1..][j]) || exists e :: Operand(pieces[1..][j], e) {
          assert pieces[1..][j] == pieces[j + 1];
        }
        BrokenJoin(pieces[1..], joiner, rest);
      }
    }
  }
}
