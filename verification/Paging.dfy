/**
 Paging: the Range request header, its merge with `_limit` and `_offset`, the rows LIMIT and OFFSET return, and the
 positions the Content-Range header reports. Integers are Go's 64-bit `int`.
 */
module Paging {
  import opened Decimal
  import opened Text
  import opened Wrappers

  const MAX_INT := 0x7FFF_FFFF_FFFF_FFFF
  const DEFAULT_LIMIT := 1000

  /** A negative limit stands for "not given". */
  datatype Range = Range(limit: int, offset: int)

  predicate IsInt(x: int) {
    -MAX_INT - 1 <= x <= MAX_INT
  }

  /** Two's complement wrap-around of the sums and differences of two ints. */
  function Wrap(x: int): (r: int)
    ensures IsInt(x) ==> r == x
    ensures -2 * MAX_INT - 2 <= x <= 2 * MAX_INT + 2 ==> IsInt(r)
  {
    if x > MAX_INT then x - 2 * MAX_INT - 2
    else if x < -MAX_INT - 1 then x + 2 * MAX_INT + 2
    else x
  }

  /** strconv.Atoi: an optional sign, then digits, within range. */
  function Atoi(s: string): (r: Option<int>)
    ensures r.Some? ==> IsInt(r.value)
  {
    var signed := s != [] && (s[0] == '-' || s[0] == '+');
    match ReadNat(if signed then s[1..] else s)
    case None => None
    case Some(n) =>
      var v: int := if signed && s[0] == '-' then -(n as int) else n;
      if IsInt(v) then Some(v) else None
  }

  /** ParseRangeHeader: `items=first-last`. */
  function ParseRangeHeader(header: string): Option<Range> {
    if '=' !in header then None
    else
      var eq := Index(header, '=');
      var bounds := header[eq + 1..];
      if header[..eq] != "items" || '-' !in bounds then None
      else
        var dash := Index(bounds, '-');
        if '-' in bounds[dash + 1..] then None
        else
          match (Atoi(bounds[..dash]), Atoi(bounds[dash + 1..]))
          case (Some(start), Some(end)) => if start > end then None else Some(Range(Wrap(Wrap(end - start) + 1), start))
          case _ => None
  }

  function Header(first: nat, last: nat): string {
    "items=" + Show(first) + "-" + Show(last)
  }

  /** The range used: the query's own limit and offset first, then the header's, then the default limit. */
  function Merged(query: Range, header: string): Range {
    var asked := ParseRangeHeader(header);
    var limit := if query.limit < 0 && asked.Some? then asked.value.limit else query.limit;
    var offset := if query.offset == 0 && asked.Some? && asked.value.offset > 0 then asked.value.offset
                  else query.offset;
    Range(if limit < 0 then DEFAULT_LIMIT else limit, offset)
  }

  /** The range fields of the parsed parameters, as HandleGet updates them. */
  class Params {
    var limit: int
    var offset: int

    constructor (limit: int, offset: int)
      ensures this.limit == limit && this.offset == offset
    {
      this.limit := limit;
      this.offset := offset;
    }

    method UseRange(header: string)
      modifies this
      ensures Range(limit, offset) == Merged(Range(old(limit), old(offset)), header)
      ensures limit >= 0
      ensures old(limit) >= 0 ==> limit == old(limit)
      ensures old(offset) != 0 ==> offset == old(offset)
      ensures match ParseRangeHeader(header)
              case None => offset == old(offset) && (old(limit) < 0 ==> limit == 1000)
              case Some(asked) =>
                && (old(limit) < 0 ==> limit == if asked.limit < 0 then 1000 else asked.limit)
                && (old(offset) == 0 ==> offset == if asked.offset > 0 then asked.offset else 0)
    {
      var asked := ParseRangeHeader(header);
      if asked.Some? {
        if limit < 0 {
          limit := asked.value.limit;
        }
        if offset == 0 && asked.value.offset > 0 {
          offset := asked.value.offset;
        }
      }
      if limit < 0 {
        limit := DEFAULT_LIMIT;
      }
    }
  }

  /** What LIMIT and OFFSET leave of the rows; the clauses are printed for limits >= 0 and offsets > 0. */
  function Page<T>(rows: seq<T>, r: Range): seq<T> {
    var rest := if r.offset <= 0 then rows else if r.offset >= |rows| then [] else rows[r.offset..];
    if 0 <= r.limit < |rest| then rest[..r.limit] else rest
  }

  /** SetRangeHeaders: the first and last position reported. */
  function Report(r: Range, total: int): (int, int) {
    var last := Wrap(Wrap(r.offset + r.limit) - 1);
    (r.offset, if total > 0 && last >= total then total - 1 else last)
  }

  function Positions(total: nat): seq<nat> {
    seq(total, i => i)
  }

  // ----- the report

  /** Position `p` is among the rows returned. */
  ghost predicate Returned(r: Range, total: nat, p: int) {
    exists i: nat :: i < |Page(Positions(total), r)| && Page(Positions(total), r)[i] == p
  }

  predicate Reported(r: Range, total: int, p: int) {
    Report(r, total).0 <= p <= Report(r, total).1
  }

  lemma PageOfPositions(r: Range, total: nat, p: int)
    requires r.limit >= 0
    ensures var from := if r.offset <= 0 then 0 else r.offset;
            Returned(r, total, p) <==> from <= p < from + r.limit && p < total
  {
    var page := Page(Positions(total), r);
    var from := if r.offset <= 0 then 0 else r.offset;
    assert forall i :: 0 <= i < |page| ==> page[i] == from + i;
    if from <= p < from + r.limit && p < total {
      assert page[p - from] == p;
    }
  }

  /**
   The reported positions are those of the rows returned, except when a negative offset was given or the last
   position exceeds the largest int. With limit 0 there is nothing to return and only the most negative offset shows.
   */
  lemma ReportIsExactIff(r: Range, total: nat)
    requires IsInt(r.offset) && 0 <= r.limit <= MAX_INT && 0 < total <= MAX_INT
    ensures (forall p: int :: Reported(r, total, p) <==> Returned(r, total, p))
            <==> (r.limit == 0 && r.offset >= -MAX_INT) || r.offset >= total || 0 <= r.offset <= MAX_INT - r.limit + 1
  {
    hide Returned;
    forall p: int ensures var from := if r.offset <= 0 then 0 else r.offset;
      Returned(r, total, p) <==> from <= p < from + r.limit && p < total {
      PageOfPositions(r, total, p);
    }
    assert Reported(r, total, r.offset) <==> r.offset <= Report(r, total).1;
  }

  // ----- the header

  lemma ShowHasOnlyDigits(n: nat)
    ensures Show(n) != [] && forall i :: 0 <= i < |Show(n)| ==> IsDigit(Show(n)[i])
  {
  }

  lemma AtoiShow(n: nat)
    ensures Atoi(Show(n)) == if n <= MAX_INT then Some(n) else None
  {
    ShowHasOnlyDigits(n);
    ReadShow(n);
  }

  lemma HeaderParts(first: nat, last: nat)
    ensures var header := Header(first, last);
            && Index(header, '=') == 5 && header[..5] == "items"
            && header[6..] == Show(first) + "-" + Show(last)
            && Index(header[6..], '-') == |Show(first)|
            && header[6..][..|Show(first)|] == Show(first)
            && header[6..][|Show(first)| + 1..] == Show(last) && '-' !in Show(last)
  {
    var header := Header(first, last);
    ShowHasOnlyDigits(first);
    ShowHasOnlyDigits(last);
    assert header[..5] == "items" && header[5] == '=';
    IndexIs(header, '=', 5);
    var bounds := Show(first) + "-" + Show(last);
    assert header[6..] == bounds;
    assert bounds[..|Show(first)|] == Show(first) && bounds[|Show(first)|] == '-';
    IndexIs(bounds, '-', |Show(first)|);
    assert bounds[|Show(first)| + 1..] == Show(last);
  }

  /** Reading back a printed range; bounds out of order or too large are refused. */
  lemma HeaderRoundTrips(first: nat, last: nat)
    ensures ParseRangeHeader(Header(first, last))
            == if first <= last <= MAX_INT then Some(Range(Wrap(last - first + 1), first)) else None
  {
    hide ReadNat;
    hide Show;
    hide Index;
    HeaderParts(first, last);
    AtoiShow(first);
    AtoiShow(last);
    hide Atoi;
    var header := Header(first, last);
    assert header[5] == '=';
    assert header[6..][|Show(first)|] == '-';
  }

  lemma HeaderText(header: string, a: string, b: string)
    requires header == "items=" + a + "-" + b && '-' !in a
    ensures '=' in header && Index(header, '=') == 5 && header[..5] == "items"
    ensures var bounds := header[6..];
            '-' in bounds && Index(bounds, '-') == |a| && bounds[..|a|] == a && bounds[|a| + 1..] == b
  {
    assert header[..5] == "items" && header[5] == '=';
    IndexIs(header, '=', 5);
    var bounds := a + "-" + b;
    assert header[6..] == bounds;
    assert bounds[..|a|] == a && bounds[|a|] == '-';
    IndexIs(bounds, '-', |a|);
    assert bounds[|a| + 1..] == b;
  }

  /** A header is read exactly when it is `items=`, two numbers with a dash between them, the first not larger. */
  ghost predicate IsRange(header: string, start: int, end: int) {
    exists a: string, b: string ::
      header == "items=" + a + "-" + b && '-' !in a && '-' !in b && Atoi(a) == Some(start) && Atoi(b) == Some(end)
  }

  lemma PartsParse(header: string, a: string, b: string, start: int, end: int)
    requires '=' in header && Index(header, '=') == 5 && header[..5] == "items"
    requires var bounds := header[6..];
             '-' in bounds && Index(bounds, '-') == |a| && bounds[..|a|] == a && bounds[|a| + 1..] == b
    requires '-' !in b && Atoi(a) == Some(start) && Atoi(b) == Some(end)
    ensures ParseRangeHeader(header) == if start > end then None else Some(Range(Wrap(Wrap(end - start) + 1), start))
  {
    hide Atoi;
    hide Index;
  }

  lemma RangeParses(header: string, start: int, end: int)
    requires IsRange(header, start, end)
    ensures ParseRangeHeader(header) == if start > end then None else Some(Range(Wrap(Wrap(end - start) + 1), start))
  {
    hide Atoi;
    var a: string, b: string :|
      header == "items=" + a + "-" + b && '-' !in a && '-' !in b && Atoi(a) == Some(start) && Atoi(b) == Some(end);
    HeaderText(header, a, b);
    PartsParse(header, a, b, start, end);
  }

  lemma ParsedIsRange(header: string) returns (start: int, end: int)
    requires ParseRangeHeader(header).Some?
    ensures IsRange(header, start, end) && start <= end
  {
    hide Atoi;
    var bounds := header[Index(header, '=') + 1..];
    var dash := Index(bounds, '-');
    var a, b := bounds[..dash], bounds[dash + 1..];
    start, end := Atoi(a).value, Atoi(b).value;
    assert header == "items=" + a + "-" + b;
  }

  /** No other header is read, and what is read is the offset and the length of the two numbers. */
  lemma HeaderIsReadIff(header: string, r: Range)
    ensures ParseRangeHeader(header) == Some(r) <==>
            exists start: int, end: int ::
              IsRange(header, start, end) && start <= end && r == Range(Wrap(Wrap(end - start) + 1), start)
  {
    if ParseRangeHeader(header).Some? {
      var start, end := ParsedIsRange(header);
      RangeParses(header, start, end);
    }
    hide IsRange;
    forall start: int, end: int | IsRange(header, start, end)
      ensures ParseRangeHeader(header) ==
              if start > end then None else Some(Range(Wrap(Wrap(end - start) + 1), start)) {
      RangeParses(header, start, end);
    }
  }

  /** A sign is read as such. */
  lemma SignedNumerals(n: nat)
    requires n <= MAX_INT
    ensures Atoi("+" + Show(n)) == Some(n as int) && Atoi("-" + Show(n)) == Some(0 - n as int)
  {
    ReadShow(n);
    assert ("+" + Show(n))[1..] == Show(n) && ("-" + Show(n))[1..] == Show(n);
  }

  lemma NumeralIsNatural(s: string)
    requires '-' !in s && Atoi(s).Some?
    ensures Atoi(s).value >= 0
  {
  }

  /** No header asks for a negative position; its length is positive unless it wraps to the least int. */
  lemma ParsedRangeIsNatural(header: string)
    requires ParseRangeHeader(header).Some?
    ensures var r := ParseRangeHeader(header).value;
            0 <= r.offset <= MAX_INT && IsInt(r.limit) && (r.limit >= 1 || (r.limit == -MAX_INT - 1 && r.offset == 0))
  {
    hide Atoi;
    hide Index;
    var bounds := header[Index(header, '=') + 1..];
    var dash := Index(bounds, '-');
    NumeralIsNatural(bounds[..dash]);
    NumeralIsNatural(bounds[dash + 1..]);
  }

  /**
   A lone request for positions `first` to `last` is reported as `first` to the smaller of `last` and the final
   position, except for the one request whose length does not fit an int, which falls back to the default limit.
   */
  lemma RangeRequestIsServedIff(first: nat, last: nat, total: nat)
    requires first <= last <= MAX_INT && first < total <= MAX_INT
    ensures Report(Merged(Range(-1, 0), Header(first, last)), total)
            == (first, if last < total then last else total - 1)
            <==> first > 0 || last < MAX_INT || total <= 1000
  {
    hide Header;
    HeaderRoundTrips(first, last);
  }

  // ----- walking through the pages

  /** The first `count` pages of one size. */
  function Pages<T>(rows: seq<T>, size: nat, count: nat): seq<T> {
    if count == 0 then [] else Pages(rows, size, count - 1) + Page(rows, Range(size, (count - 1) * size))
  }

  lemma {:induction false} PagesCover<T>(rows: seq<T>, size: nat, count: nat)
    requires size > 0
    ensures Pages(rows, size, count) == if count * size < |rows| then rows[..count * size] else rows
  {
    if count > 0 {
      PagesCover(rows, size, count - 1);
      assert count * size == (count - 1) * size + size;
    }
  }

  /** A client that asks for `size` rows after the last position reported, until the report reaches the end. */
  function Walk<T>(rows: seq<T>, size: nat, from: nat): seq<T>
    requires size > 0 && |rows| + size <= MAX_INT
    decreases |rows| - from
  {
    if from >= |rows| then []
    else
      var r := Merged(Range(-1, 0), Header(from, from + size - 1));
      var last := Report(r, |rows|).1;
      if last < from then []
      else Page(rows, r) + Walk(rows, size, last + 1)
  }

  lemma {:induction false} WalkVisitsEveryRowOnce<T>(rows: seq<T>, size: nat, from: nat)
    requires size > 0 && |rows| + size <= MAX_INT && from <= |rows|
    ensures Walk(rows, size, from) == rows[from..]
    decreases |rows| - from
  {
    hide ParseRangeHeader;
    hide Header;
    if from < |rows| {
      HeaderRoundTrips(from, from + size - 1);
      var r := Merged(Range(-1, 0), Header(from, from + size - 1));
      assert r == Range(size, from);
      hide Merged;
      var next := Report(r, |rows|).1 + 1;
      assert Page(rows, r) == rows[from..next];
      WalkVisitsEveryRowOnce(rows, size, next);
    }
  }
}
