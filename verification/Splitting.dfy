/** What the comma splitters do: which text they give back, and where the pieces may break. */
module Splitting {
  import opened Text
  import opened Filters
  import opened Parser

  /** Opening less closing parentheses. */
  function Depth(s: string): int {
    if s == [] then 0
    else Depth(s[..|s| - 1]) + if s[|s| - 1] == '(' then 1 else if s[|s| - 1] == ')' then -1 else 0
  }

  /** A comma outside all parentheses, read from the left. */
  ghost predicate HasTopComma(s: string) {
    exists i :: 0 <= i < |s| && s[i] == ',' && Depth(s[..i]) == 0
  }

  /** The text ends in a comma outside all parentheses; the loop drops that one. */
  predicate EndsInTopComma(s: string) {
    s != [] && s[|s| - 1] == ',' && Depth(s[..|s| - 1]) == 0
  }

  lemma {:induction false} DepthConcat(a: string, b: string)
    ensures Depth(a + b) == Depth(a) + Depth(b)
  {
    if b == [] {
      assert a + b == a;
    } else {
      assert (a + b)[..|a + b| - 1] == a + b[..|b| - 1];
      DepthConcat(a, b[..|b| - 1]);
    }
  }

  lemma DepthSnoc(s: string, c: char)
    ensures Depth(s + [c]) == Depth(s) + if c == '(' then 1 else if c == ')' then -1 else 0
  {
    assert (s + [c])[..|s|] == s;
  }

  lemma TopCommaSnoc(s: string, c: char)
    ensures HasTopComma(s + [c]) <==> HasTopComma(s) || (c == ',' && Depth(s) == 0)
  {
    var t := s + [c];
    assert t[..|s|] == s;
    if HasTopComma(s) {
      var i :| 0 <= i < |s| && s[i] == ',' && Depth(s[..i]) == 0;
      assert t[i] == ',' && t[..i] == s[..i];
    }
    if HasTopComma(t) {
      var i :| 0 <= i < |t| && t[i] == ',' && Depth(t[..i]) == 0;
      assert i < |s| ==> t[..i] == s[..i];
    }
    if c == ',' && Depth(s) == 0 {
      assert t[|s|] == ',' && Depth(t[..|s|]) == 0;
    }
  }

  /** What one run of the loop from inside a piece promises. */
  ghost predicate WellSplit(parts: seq<string>, text: string) {
    && text == JoinCommas(parts) + (if EndsInTopComma(text) then "," else "")
    && (forall k :: 0 <= k < |parts| ==> !HasTopComma(parts[k]))
    && (forall k :: 0 <= k < |parts| - 1 ==> Depth(parts[k]) == 0)
    && (EndsInTopComma(text) && parts != [] ==> Depth(parts[|parts| - 1]) == 0)
  }

  lemma EndsAfter(piece: string, rest: string)
    requires Depth(piece) == 0
    ensures EndsInTopComma(piece + "," + rest) <==> rest == "" || EndsInTopComma(rest)
  {
    var all := piece + "," + rest;
    if rest == "" {
      assert all[..|all| - 1] == piece;
    } else {
      assert all[..|all| - 1] == piece + "," + rest[..|rest| - 1];
      DepthConcat(piece + ",", rest[..|rest| - 1]);
      DepthSnoc(piece, ',');
    }
  }

  lemma TopCommaAtEnd(s: string)
    ensures EndsInTopComma(s) ==> HasTopComma(s)
  {
    if EndsInTopComma(s) {
      var i := |s| - 1;
      assert s[i] == ',' && Depth(s[..i]) == 0;
    }
  }

  lemma CutPiece(piece: string, rest: string, parts: seq<string>)
    requires Depth(piece) == 0 && !HasTopComma(piece) && WellSplit(parts, rest) && (parts == [] <==> rest == "")
    ensures WellSplit([piece] + parts, piece + "," + rest)
  {
    hide Depth;
    EndsAfter(piece, rest);
    if parts != [] {
      assert ([piece] + parts)[1..] == parts;
      assert JoinCommas([piece] + parts) == piece + "," + JoinCommas(parts);
    }
    assert forall k :: 0 < k < |parts| + 1 ==> ([piece] + parts)[k] == parts[k - 1];
  }

  lemma {:induction false} SplitFrom(s: string, depth: int, current: string)
    requires depth == Depth(current) && !HasTopComma(current)
    ensures WellSplit(Split(s, depth, current), current + s)
    ensures Split(s, depth, current) == [] <==> current + s == ""
    decreases |s|
  {
    if s == [] {
      assert current + s == current;
      TopCommaAtEnd(current);
    } else {
      DepthSnoc(current, s[0]);
      TopCommaSnoc(current, s[0]);
      assert current + s == current + [s[0]] + s[1..];
      if s[0] == ',' && depth == 0 {
        SplitFrom(s[1..], 0, "");
        assert "" + s[1..] == s[1..];
        assert current + s == current + "," + s[1..];
        CutPiece(current, s[1..], Split(s[1..], 0, ""));
      } else {
        SplitFrom(s[1..], Depth(current + [s[0]]), current + [s[0]]);
      }
    }
  }

  /**
   The pieces of a group's text, joined by commas, give the text back except for one trailing comma at depth
   zero; every piece but the last is balanced, and no piece could be split further.
   */
  lemma SplitIsExact(s: string)
    ensures WellSplit(Split(s, 0, ""), s)
  {
    SplitFrom(s, 0, "");
    assert "" + s == s;
  }

  // ----- pieces that split as they were joined

  /** Past its first character, a piece still has no comma at depth zero. */
  lemma NoCommaAfterFirst(first: char, tail: string, depth: int)
    requires var piece := [first] + tail;
             forall i :: 0 <= i < |piece| && piece[i] == ',' ==> depth + Depth(piece[..i]) != 0
    ensures forall i :: 0 <= i < |tail| && tail[i] == ',' ==> depth + Depth([first]) + Depth(tail[..i]) != 0
    ensures first == ',' ==> depth != 0
  {
    hide Depth;
    var piece := [first] + tail;
    assert piece[..0] == [] && Depth([]) == 0 by {
      EmptyDepth();
    }
    forall i | 0 <= i < |tail| && tail[i] == ',' ensures depth + Depth([first]) + Depth(tail[..i]) != 0 {
      assert piece[i + 1] == tail[i] && piece[..i + 1] == [first] + tail[..i];
      DepthConcat([first], tail[..i]);
    }
  }

  lemma EmptyDepth()
    ensures Depth([]) == 0
  {
  }

  lemma OneDepth(c: char)
    ensures Depth([c]) == if c == '(' then 1 else if c == ')' then -1 else 0
  {
    assert [c][..0] == [];
    EmptyDepth();
  }

  lemma {:induction false} SplitRun(piece: string, rest: string, depth: int, current: string)
    requires forall i :: 0 <= i < |piece| && piece[i] == ',' ==> depth + Depth(piece[..i]) != 0
    ensures Split(piece + rest, depth, current) == Split(rest, depth + Depth(piece), current + piece)
    decreases |piece|
  {
    hide Depth;
    if piece == [] {
      EmptyDepth();
      assert piece + rest == rest && current + piece == current;
    } else {
      var first, tail := piece[0], piece[1..];
      assert piece == [first] + tail && (piece + rest)[1..] == tail + rest;
      OneDepth(first);
      DepthConcat([first], tail);
      NoCommaAfterFirst(first, tail, depth);
      SplitRun(tail, rest, depth + Depth([first]), current + [first]);
      assert current + [first] + tail == current + piece;
    }
  }

  /** Splits in front of a comma at depth zero. */
  lemma SplitHead(piece: string, rest: string)
    requires !HasTopComma(piece) && Depth(piece) == 0
    ensures Split(piece + "," + rest, 0, "") == [piece] + Split(rest, 0, "")
  {
    SplitRun(piece, "," + rest, 0, "");
    assert piece + "," + rest == piece + ("," + rest);
    assert ("," + rest)[1..] == rest && "" + piece == piece;
  }

  lemma SplitOne(piece: string)
    requires !HasTopComma(piece) && piece != ""
    ensures Split(piece, 0, "") == [piece]
  {
    SplitRun(piece, "", 0, "");
    assert piece + "" == piece && "" + piece == piece;
  }

  // ----- IN lists

  predicate Reserved(c: char) {
    c == ',' || c == '(' || c == ')' || c == '"'
  }

  predicate Plain(v: string) {
    forall i :: 0 <= i < |v| ==> !Reserved(v[i])
  }

  /** A value that an IN list can carry: not empty, no edge spaces, and none of the characters the loop reacts to. */
  predicate CleanValue(v: string) {
    v != "" && TrimSpace(v) == v && Plain(v)
  }

  predicate CleanValues(values: seq<string>) {
    forall k :: 0 <= k < |values| ==> CleanValue(values[k])
  }

  lemma {:induction false} SplitInRun(v: string, rest: string, current: string)
    requires Plain(v)
    ensures SplitIn(v + rest, 0, current) == SplitIn(rest, 0, current + v)
    decreases |v|
  {
    hide TrimSpace;
    if v == [] {
      assert v + rest == rest && current + v == current;
    } else {
      assert !Reserved(v[0]);
      assert (v + rest)[1..] == v[1..] + rest;
      assert forall i :: 0 <= i < |v| - 1 ==> v[1..][i] == v[i + 1];
      SplitInRun(v[1..], rest, current + [v[0]]);
      assert current + [v[0]] + v[1..] == current + v;
    }
  }

  lemma SplitInHead(v: string, rest: string)
    requires CleanValue(v)
    ensures SplitIn(v + "," + rest, 0, "") == [v] + SplitIn(rest, 0, "")
  {
    hide TrimSpace;
    SplitInRun(v, "," + rest, "");
    assert v + "," + rest == v + ("," + rest);
    assert ("," + rest)[1..] == rest && "" + v == v;
  }

  lemma SplitInOne(v: string)
    requires CleanValue(v)
    ensures SplitIn(v, 0, "") == [v]
  {
    SplitInRun(v, "", "");
    assert v + "" == v && "" + v == v;
  }

  lemma {:induction false} SplitInJoined(values: seq<string>)
    requires CleanValues(values)
    ensures SplitIn(JoinCommas(values), 0, "") == values
  {
    hide CleanValue;
    if |values| == 1 {
      SplitInOne(values[0]);
    } else if |values| > 1 {
      SplitInHead(values[0], JoinCommas(values[1..]));
      SplitInJoined(values[1..]);
    }
  }

  predicate NoParens(s: string) {
    forall i :: 0 <= i < |s| ==> !IsParen(s[i])
  }

  /** Comma-joined clean values contain no parenthesis. */
  lemma {:induction false} JoinHasNoParens(values: seq<string>)
    requires CleanValues(values)
    ensures NoParens(JoinCommas(values))
  {
    hide TrimSpace;
    if values != [] {
      assert CleanValue(values[0]);
      assert forall i :: 0 <= i < |values[0]| ==> !Reserved(values[0][i]);
      JoinHasNoParens(values[1..]);
    }
  }

  lemma {:induction false} TrimLeftAll(p: string, s: string, cut: char -> bool)
    requires forall i :: 0 <= i < |p| ==> cut(p[i])
    ensures TrimLeft(p + s, cut) == TrimLeft(s, cut)
  {
    if p == [] {
      assert p + s == s;
    } else {
      assert (p + s)[1..] == p[1..] + s;
      TrimLeftAll(p[1..], s, cut);
    }
  }

  lemma {:induction false} TrimRightAll(s: string, p: string, cut: char -> bool)
    requires forall i :: 0 <= i < |p| ==> cut(p[i])
    ensures TrimRight(s + p, cut) == TrimRight(s, cut)
  {
    if p == [] {
      assert s + p == s;
    } else {
      assert (s + p)[..|s + p| - 1] == s + p[..|p| - 1];
      TrimRightAll(s, p[..|p| - 1], cut);
    }
  }

  /** Trimming stops at text that has no parenthesis. */
  lemma TrimToPlain(opening: string, j: string, closing: string)
    requires NoParens(j) && forall i :: 0 <= i < |opening| ==> IsParen(opening[i])
    requires forall i :: 0 <= i < |closing| ==> IsParen(closing[i])
    ensures TrimParens(opening + j + closing) == j
  {
    assert opening + j + closing == opening + (j + closing);
    TrimLeftAll(opening, j + closing, IsParen);
    if j == "" {
      assert j + closing == closing + "";
      TrimLeftAll(closing, "", IsParen);
    } else {
      assert (j + closing)[0] == j[0];
      TrimRightAll(j, closing, IsParen);
    }
  }

  /** Parentheses come off both ends of an IN list, however many of them are left. */
  lemma InListInverts(values: seq<string>, closing: string)
    requires CleanValues(values) && forall i :: 0 <= i < |closing| ==> closing[i] == ')'
    ensures InValues("(" + JoinCommas(values) + closing) == values
  {
    hide CleanValues;
    JoinHasNoParens(values);
    TrimToPlain("(", JoinCommas(values), closing);
    SplitInJoined(values);
  }

  // ----- quotes in an IN list

  function Unquoted(s: string): string {
    if s == "" then "" else (if s[0] == '"' then "" else [s[0]]) + Unquoted(s[1..])
  }

  lemma {:induction false} QuoteTakesTheRest(s: string, depth: nat, current: string)
    requires depth > 0
    ensures SplitIn(s, depth, current)
            == if current + Unquoted(s) == "" then [] else [TrimSpace(current + Unquoted(s))]
  {
    hide TrimSpace;
    if s == "" {
      assert current + "" == current;
    } else if s[0] == '"' {
      QuoteTakesTheRest(s[1..], depth + 1, current);
      assert "" + Unquoted(s[1..]) == Unquoted(s[1..]);
    } else {
      QuoteTakesTheRest(s[1..], depth, current + [s[0]]);
      assert current + [s[0]] + Unquoted(s[1..]) == current + ([s[0]] + Unquoted(s[1..]));
    }
  }

  /** The first quote of a list makes one value of all that follows, commas included, and no quote is kept. */
  lemma {:induction false} QuotedTailIsOneValue(values: seq<string>, rest: string)
    requires CleanValues(values) && Unquoted(rest) != ""
    ensures SplitIn(JoinCommas(values + ["\"" + rest]), 0, "") == values + [TrimSpace(Unquoted(rest))]
  {
    hide TrimSpace;
    hide CleanValue;
    var all := values + ["\"" + rest];
    if values == [] {
      assert ("\"" + rest)[1..] == rest && "" + Unquoted(rest) == Unquoted(rest);
      QuoteTakesTheRest(rest, 1, "");
      assert JoinCommas(all) == "\"" + rest;
    } else {
      assert all[0] == values[0] && all[1..] == values[1..] + ["\"" + rest];
      SplitInHead(values[0], JoinCommas(all[1..]));
      QuotedTailIsOneValue(values[1..], rest);
    }
  }
}
