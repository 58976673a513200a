/** Decimal numbers in text, as Rust parses them and a template writes them. */
module Decimals {
  import opened Words
  import opened Wrappers

  predicate IsDigit(c: char) {
    '0' <= c <= '9'
  }

  function DigitValue(c: char): nat
    requires IsDigit(c)
  {
    c as int - '0' as int
  }

  /** Decimal digits, most significant first. */
  function DigitsValue(s: string): Option<nat> {
    if s == "" then Some(0)
    else
      var n := |s| - 1;
      if !IsDigit(s[n]) then None
      else match DigitsValue(s[..n])
        case None => None
        case Some(high) => Some(10 * high + DigitValue(s[n]))
  }

  /** What `str::parse::<u64>` accepts: digits, with one leading plus sign allowed. */
  function ParseU64(s: string): (r: Option<nat>)
    ensures r.Some? ==> r.value < TWO_64
  {
    var digits := if s != "" && s[0] == '+' then s[1..] else s;
    if digits == "" then None
    else match DigitsValue(digits)
      case None => None
      case Some(n) => if n < TWO_64 then Some(n) else None
  }

  function Decimal(n: nat): (s: string)
    ensures s != "" && forall c :: c in s ==> IsDigit(c)
  {
    if n < 10 then [('0' as int + n) as char] else Decimal(n / 10) + [('0' as int + n % 10) as char]
  }

  lemma {:induction false} DecimalValue(n: nat)
    ensures DigitsValue(Decimal(n)) == Some(n)
  {
    if n >= 10 {
      DecimalValue(n / 10);
      assert Decimal(n)[..|Decimal(n)| - 1] == Decimal(n / 10);
    } else {
      assert DigitsValue(Decimal(n)[..0]) == Some(0);
    }
  }

  /** The first `sep` in `s`, or the length. */
  function IndexOf(s: string, sep: char): (i: nat)
    ensures i <= |s| && (forall k :: 0 <= k < i ==> s[k] != sep) && (i < |s| ==> s[i] == sep)
  {
    if s == "" || s[0] == sep then 0 else 1 + IndexOf(s[1..], sep)
  }

  /** A number written out parses back to itself. */
  lemma DecimalParses(n: nat)
    requires n < TWO_64
    ensures ParseU64(Decimal(n)) == Some(n)
  {
    assert Decimal(n)[0] in Decimal(n);
    DecimalValue(n);
  }

  // ----- What is a number -----

  predicate AllDigits(s: string) {
    forall i :: 0 <= i < |s| ==> '0' <= s[i] <= '9'
  }

  function Power10(n: nat): nat {
    if n == 0 then 1 else 10 * Power10(n - 1)
  }

  /** Digits and nothing else make a number; each counts ten times the next. */
  lemma {:induction false} DigitsMeaning(s: string)
    ensures DigitsValue(s).Some? <==> AllDigits(s)
    ensures s != "" && AllDigits(s) ==>
      DigitsValue(s[1..]).Some? && DigitsValue(s).value == (s[0] as int - '0' as int) * Power10(|s| - 1) + DigitsValue(s[1..]).value
  {
    if s != "" {
      var n := |s| - 1;
      DigitsMeaning(s[..n]);
      LastDigit(s);
      if n == 0 {
        assert s[1..] == "" && s[..0] == "" && Power10(0) == 1;
      } else {
        var tail := s[1..];
        LastDigit(tail);
        assert tail[..n - 1] == s[..n][1..] && tail[n - 1] == s[n] && s[..n][0] == s[0];
        assert Power10(n) == 10 * Power10(n - 1);
        hide DigitsValue, Power10;
        assert AllDigits(s) <==> AllDigits(s[..n]) && IsDigit(s[n]);
        TimesTen(s[0] as int - '0' as int, Power10(n - 1));
      }
    }
  }

  lemma TimesTen(d: int, p: int)
    ensures 10 * (d * p) == d * (10 * p)
  {
  }

  lemma LastDigit(s: string)
    requires s != ""
    ensures var n := |s| - 1;
      DigitsValue(s) == if IsDigit(s[n]) && DigitsValue(s[..n]).Some?
                        then Some(10 * DigitsValue(s[..n]).value + (s[n] as int - '0' as int)) else None
  {
  }

  lemma IndexMissing(s: string, c: char)
    ensures IndexOf(s, c) == |s| <==> c !in s
  {
    hide IndexOf;
    var i := IndexOf(s, c);
    if i < |s| {
      assert s[i] in s;
    }
  }

  /** Exactly what parses as a 64-bit number: digits, after one plus sign at most, that stay below 2^64. */
  lemma ParseMeaning(s: string, n: nat)
    ensures var digits := if s != "" && s[0] == '+' then s[1..] else s;
      ParseU64(s) == Some(n) <==> digits != "" && AllDigits(digits) && DigitsValue(digits) == Some(n) && n < 0x1_0000_0000_0000_0000
  {
    DigitsMeaning(if s != "" && s[0] == '+' then s[1..] else s);
  }
}
