/** Decimal text of integers, as Go's `%v` prints them, and the reading of digits back (strconv.Atoi). */
module Decimal {
  import opened Wrappers

  function Digit(d: nat): char
    requires d < 10
  {
    '0' + d as char
  }

  predicate IsDigit(c: char) {
    '0' <= c <= '9'
  }

  function ShowNat(n: nat): (s: string)
    ensures s != [] && forall i :: 0 <= i < |s| ==> IsDigit(s[i])
  {
    if n < 10 then [Digit(n)] else ShowNat(n / 10) + [Digit(n % 10)]
  }

  function Show(n: int): (s: string) {
    if n < 0 then "-" + ShowNat(-n) else ShowNat(n)
  }

  /** Reads a non-empty run of digits; anything else is refused. */
  function ReadNat(s: string): Option<nat> {
    if s == [] || !IsDigit(s[|s| - 1]) then None
    else
      var d := (s[|s| - 1] - '0') as nat;
      if |s| == 1 then Some(d)
      else match ReadNat(s[..|s| - 1])
        case None => None
        case Some(n) => Some(10 * n + d)
  }

  lemma {:induction false} ReadNatIff(s: string)
    ensures ReadNat(s).Some? <==> s != [] && forall i :: 0 <= i < |s| ==> IsDigit(s[i])
  {
    if |s| > 1 {
      ReadNatIff(s[..|s| - 1]);
    }
  }

  lemma {:induction false} ReadShow(n: nat)
    ensures ReadNat(ShowNat(n)) == Some(n)
  {
    if n >= 10 {
      ReadShow(n / 10);
      assert ShowNat(n)[..|ShowNat(n)| - 1] == ShowNat(n / 10);
    }
  }

  lemma ShowInjective(m: int, n: int)
    requires Show(m) == Show(n)
    ensures m == n
  {
    ReadShow(if m < 0 then -m else m);
    ReadShow(if n < 0 then -n else n);
    assert ShowNat(if m < 0 then -m else m)[0] != '-';
    assert ShowNat(if n < 0 then -n else n)[0] != '-';
    if m < 0 {
      assert Show(m)[0] == '-' && Show(m)[1..] == ShowNat(-m);
      assert Show(n)[1..] == ShowNat(-n);
    }
  }
}
