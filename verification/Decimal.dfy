/** Integers in decimal, as a formatting verb prints them. */
module Decimal {

  function Digit(d: nat): char
    requires d < 10
  {
    '0' + d as char
  }

  function FormatNat(n: nat): (s: string)
    ensures |s| > 0 && s[0] != '-'
  {
    if n < 10 then [Digit(n)] else FormatNat(n / 10) + [Digit(n % 10)]
  }

  function Format(n: int): string {
    if n < 0 then "-" + FormatNat(-n) else FormatNat(n)
  }

  function ParseNat(s: string): int {
    if s == "" then 0 else 10 * ParseNat(s[..|s| - 1]) + (s[|s| - 1] as int - '0' as int)
  }

  function Parse(s: string): int {
    if s != "" && s[0] == '-' then -ParseNat(s[1..]) else ParseNat(s)
  }

  lemma {:induction false} ParseFormatNat(n: nat)
    ensures ParseNat(FormatNat(n)) == n
  {
    if n < 10 {
      assert [Digit(n)][..0] == "";
    } else {
      ParseFormatNat(n / 10);
      var s := FormatNat(n / 10);
      assert (s + [Digit(n % 10)])[..|s|] == s;
    }
  }

  lemma Sample()
    ensures Format(0) == "0" && Format(-1905) == "-1905"
  {
    assert FormatNat(1) == "1" && FormatNat(19) == "19" && FormatNat(190) == "190";
  }

  /** The text determines the number. */
  lemma ParseFormat(n: int)
    ensures Parse(Format(n)) == n
  {
    if n < 0 {
      ParseFormatNat(-n);
      assert Format(n)[1..] == FormatNat(-n);
    } else {
      ParseFormatNat(n);
    }
  }
}
