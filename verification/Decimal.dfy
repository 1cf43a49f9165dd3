/** Decimal numerals, as `f"{n}"`, `f"{n:03d}"` and `int(...)` read and write them. */
module Decimal {
  import opened Wrappers

  predicate IsDigit(c: char) {
    '0' <= c <= '9'
  }

  predicate AllDigits(s: string) {
    forall i :: 0 <= i < |s| ==> IsDigit(s[i])
  }

  function DigitOf(d: nat): (c: char)
    requires d < 10
    ensures IsDigit(c) && c as int - '0' as int == d
  {
    ('0' as int + d) as char
  }

  function Format(n: nat): (s: string)
    ensures s != [] && AllDigits(s)
  {
    if n < 10 then [DigitOf(n)] else Format(n / 10) + [DigitOf(n % 10)]
  }

  function Parse(s: string): nat
    requires AllDigits(s)
  {
    if s == [] then 0 else Parse(s[..|s| - 1]) * 10 + (s[|s| - 1] as int - '0' as int)
  }

  /** `f"{n:03d}"`: at least three digits, padded with zeros on the left. */
  function Format3(n: nat): (s: string)
    ensures |s| >= 3 && AllDigits(s)
  {
    var s := Format(n);
    if |s| == 1 then "00" + s else if |s| == 2 then "0" + s else s
  }

  lemma {:induction false} ParseFormat(n: nat)
    ensures Parse(Format(n)) == n
  {
    if n >= 10 {
      ParseFormat(n / 10);
      assert Format(n)[..|Format(n)| - 1] == Format(n / 10);
    }
  }

  lemma {:induction false} ParseZero(s: string)
    requires AllDigits(s)
    ensures AllDigits("0" + s) && Parse("0" + s) == Parse(s)
  {
    var t := "0" + s;
    if s == [] {
      assert t[..0] == [];
    } else {
      assert t[..|t| - 1] == "0" + s[..|s| - 1];
      ParseZero(s[..|s| - 1]);
    }
  }

  lemma ParseFormat3(n: nat)
    ensures Parse(Format3(n)) == n
  {
    ParseFormat(n);
    var s := Format(n);
    ParseZero(s);
    ParseZero("0" + s);
    assert "00" + s == "0" + ("0" + s);
  }

  /** A numeral starts with a zero only if it is padded to three digits, or is zero. */
  lemma {:induction false} NoLeadingZero(n: nat)
    ensures n > 0 ==> Format(n)[0] != '0'
    ensures |Format3(n)| > 3 ==> Format3(n)[0] != '0'
  {
    if n >= 10 {
      NoLeadingZero(n / 10);
    }
  }

  lemma FormatInjective(m: nat, n: nat)
    requires Format(m) == Format(n)
    ensures m == n
  {
    ParseFormat(m);
    ParseFormat(n);
  }
}
