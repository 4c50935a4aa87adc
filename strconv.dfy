/**
  strconv.Atoi as the handlers use it to read an ID from the request path
  (`r.PathValue("id")`) or from the `"id"` member of a bulk PATCH object, with
  Go's 64-bit `int`: an optional sign, then one or more ASCII digits, and a
  value inside the int64 range; anything else is an error.
*/
module Strconv {
  import opened Wrappers

  const MinInt64: int := -0x8000_0000_0000_0000
  const MaxInt64: int := 0x7FFF_FFFF_FFFF_FFFF

  predicate IsDigit(c: char) {
    '0' <= c <= '9'
  }

  predicate AllDigits(s: string) {
    forall i :: 0 <= i < |s| ==> IsDigit(s[i])
  }

  /** The value of a string of decimal digits, most significant first. */
  function DigitsValue(s: string): nat
    requires AllDigits(s)
  {
    if s == [] then 0 else DigitsValue(s[..|s| - 1]) * 10 + (s[|s| - 1] as int - '0' as int)
  }

  function Atoi(s: string): (r: Option<int>)
    ensures r.Some? ==> MinInt64 <= r.value <= MaxInt64
    ensures r.Some? ==> 0 < |s| && (IsDigit(s[0]) || s[0] == '+' || s[0] == '-')
    ensures r.Some? && r.value < 0 ==> s[0] == '-'
  {
    var signed := 0 < |s| && (s[0] == '+' || s[0] == '-');
    var digits := if signed then s[1..] else s;
    if digits == [] || !AllDigits(digits) then None
    else
      var magnitude: int := DigitsValue(digits);
      var v: int := if signed && s[0] == '-' then -magnitude else magnitude;
      if MinInt64 <= v <= MaxInt64 then Some(v) else None
  }

  function DigitChar(d: nat): char
    requires d < 10
  {
    ('0' as int + d) as char
  }

  /** The shortest decimal spelling of a natural number. */
  function NatToDigits(n: nat): string
  {
    if n < 10 then [DigitChar(n)] else NatToDigits(n / 10) + [DigitChar(n % 10)]
  }

  /** strconv.Itoa: how a client spells an ID it sends. */
  function Itoa(n: int): string
  {
    if n < 0 then "-" + NatToDigits(-n) else NatToDigits(n)
  }

  lemma {:induction false} NatToDigitsValue(n: nat)
    ensures 0 < |NatToDigits(n)| && AllDigits(NatToDigits(n))
    ensures DigitsValue(NatToDigits(n)) == n
  {
    if 10 <= n {
      NatToDigitsValue(n / 10);
      var s := NatToDigits(n);
      assert s[..|s| - 1] == NatToDigits(n / 10);
    }
  }

  /** Every int64, written the way Itoa writes it, is read back by Atoi unchanged. */
  lemma AtoiItoa(n: int)
    requires MinInt64 <= n <= MaxInt64
    ensures Atoi(Itoa(n)) == Some(n)
  {
    if n < 0 {
      NatToDigitsValue(-n);
      assert Itoa(n)[1..] == NatToDigits(-n);
    } else {
      NatToDigitsValue(n);
    }
  }

  /** Atoi accepts nothing around the number: no trailing text, no leading blank, no bare sign. */
  lemma AtoiIsStrict(s: string, c: char)
    requires !IsDigit(c)
    ensures Atoi(s + [c]) == None
    ensures Atoi([' '] + s) == None
    ensures Atoi("") == None && Atoi("-") == None && Atoi("+") == None
  {
    var t := s + [c];
    if 2 <= |t| && (t[0] == '+' || t[0] == '-') {
      assert t[1..][|t| - 2] == c;
    } else if |t| == 1 || (t[0] != '+' && t[0] != '-') {
      assert t[|t| - 1] == c;
    }
    assert ([' '] + s)[0] == ' ';
  }
}
