/** Decimal numerals, as the programs print and read them. */
module Decimals {

  function Digit(d: nat): char
    requires d < 10
  {
    '0' + d as char
  }

  predicate IsDigit(c: char) { '0' <= c <= '9' }

  predicate AllDigits(s: string) { forall i :: 0 <= i < |s| ==> IsDigit(s[i]) }

  function Decimal(i: nat): string {
    if i < 10 then [Digit(i)] else Decimal(i / 10) + [Digit(i % 10)]
  }

  /** What a string of digits stands for. */
  function NumberOf(s: string): nat {
    if s == "" then 0 else
    var c := s[|s| - 1];
    10 * NumberOf(s[..|s| - 1]) + if IsDigit(c) then c as int - '0' as int else 0
  }

  lemma {:induction false} NumberOfDecimal(i: nat)
    ensures NumberOf(Decimal(i)) == i
  {
    if i < 10 {
      assert [Digit(i)][..0] == "";
    } else {
      assert Decimal(i)[..|Decimal(i)| - 1] == Decimal(i / 10);
      NumberOfDecimal(i / 10);
    }
  }

  /** A numeral without needless zeros. */
  predicate Canonical(s: string) {
    s != "" && AllDigits(s) && (s == "0" || s[0] != '0')
  }

  lemma {:induction false} DecimalIsCanonical(i: nat)
    ensures Canonical(Decimal(i)) && (i > 0 ==> Decimal(i)[0] != '0')
  {
    if i >= 10 { DecimalIsCanonical(i / 10); }
  }

  lemma {:induction false} LeadingDigitCounts(s: string)
    requires AllDigits(s) && s != "" && s[0] != '0'
    ensures NumberOf(s) > 0
  {
    if |s| > 1 { LeadingDigitCounts(s[..|s| - 1]); }
  }

  /** A canonical numeral is the numeral of its value. */
  lemma {:induction false} CanonicalIsDecimal(s: string)
    requires Canonical(s)
    ensures s == Decimal(NumberOf(s))
  {
    var rest, c := s[..|s| - 1], s[|s| - 1];
    assert s == rest + [c];
    if rest == "" {
      assert NumberOf(rest) == 0;
    } else {
      assert rest[0] == s[0];
      LeadingDigitCounts(rest);
      CanonicalIsDecimal(rest);
    }
  }

  lemma {:induction false} LeadingZeroIsNothing(s: string)
    ensures NumberOf("0" + s) == NumberOf(s)
  {
    if s == "" {
      assert "0" + s == "0" && "0"[..0] == "";
    } else {
      assert ("0" + s)[..|s|] == "0" + s[..|s| - 1];
      LeadingZeroIsNothing(s[..|s| - 1]);
    }
  }
}
