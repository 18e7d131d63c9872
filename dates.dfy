/** The `%Y-%m-%d` rendering of a calendar date, as `datetime.strftime` writes it. */
module Dates {

  /** The date `datetime.now()` reports; it is passed in rather than read from a clock. */
  datatype Date = Date(year: int, month: int, day: int)

  /** A four-digit year, month 1..12 and day 1..31 (a looser test than the
      calendar: `datetime` itself never reports 31 February). */
  predicate ValidDate(d: Date)
  {
    1000 <= d.year <= 9999 && 1 <= d.month <= 12 && 1 <= d.day <= 31
  }

  predicate IsDigit(c: char)
  {
    '0' <= c <= '9'
  }

  function Digit(n: int): (c: char)
    requires 0 <= n < 10
    ensures IsDigit(c) && c as int - '0' as int == n
  {
    ('0' as int + n) as char
  }

  /** The number a string of decimal digits denotes, most significant first. */
  function DecimalValue(s: string): (v: int)
    ensures (forall i :: 0 <= i < |s| ==> IsDigit(s[i])) ==> 0 <= v
  {
    if s == [] then 0
    else DecimalValue(s[..|s| - 1]) * 10 + (s[|s| - 1] as int - '0' as int)
  }

  /** `n` written with exactly two digits, zero-padded. */
  function Pad2(n: int): (s: string)
    requires 0 <= n < 100
    ensures |s| == 2 && IsDigit(s[0]) && IsDigit(s[1])
    ensures DecimalValue(s) == n
    ensures n < 10 ==> s[0] == '0'
  {
    var s := [Digit(n / 10), Digit(n % 10)];
    assert s[..1] == [s[0]] && [s[0]][..0] == [];
    assert DecimalValue([s[0]]) == n / 10;
    s
  }

  /** `n` written with exactly four digits, zero-padded. */
  function Pad4(n: int): (s: string)
    requires 0 <= n < 10000
    ensures |s| == 4 && forall i :: 0 <= i < 4 ==> IsDigit(s[i])
    ensures DecimalValue(s) == n
  {
    var hi := Pad2(n / 100);
    var lo := Pad2(n % 100);
    DecimalOfConcat(hi, lo);
    hi + lo
  }

  /** Appending two digits multiplies the value of the prefix by a hundred. */
  lemma {:induction false} DecimalOfConcat(hi: string, lo: string)
    requires |lo| == 2
    ensures DecimalValue(hi + lo) == DecimalValue(hi) * 100 + DecimalValue(lo)
  {
    var s := hi + lo;
    var a, b, c := DecimalValue(hi), lo[0] as int - '0' as int, lo[1] as int - '0' as int;
    assert s[..|s| - 1] == hi + [lo[0]];
    assert (hi + [lo[0]])[..|hi|] == hi;
    assert DecimalValue(hi + [lo[0]]) == a * 10 + b;
    assert lo[..1] == [lo[0]] && [lo[0]][..0] == [];
    assert DecimalValue([lo[0]]) == b;
    assert DecimalValue(lo) == b * 10 + c;
    assert (a * 10 + b) * 10 + c == a * 100 + (b * 10 + c);
  }

  /** `date.strftime("%Y-%m-%d")`: ten characters, dashes at 4 and 7, and the
      three fields read back as the year, month and day they were made from. */
  function FormatDate(d: Date): (s: string)
    requires ValidDate(d)
    ensures |s| == 10 && s[4] == '-' && s[7] == '-'
    ensures forall i :: 0 <= i < 10 && i != 4 && i != 7 ==> IsDigit(s[i])
    ensures DecimalValue(s[..4]) == d.year
    ensures DecimalValue(s[5..7]) == d.month
    ensures DecimalValue(s[8..]) == d.day
    ensures d.month < 10 ==> s[5] == '0'
    ensures d.day < 10 ==> s[8] == '0'
  {
    var y, m, dd := Pad4(d.year), Pad2(d.month), Pad2(d.day);
    var s := y + "-" + m + "-" + dd;
    assert s[..4] == y && s[5..7] == m && s[8..] == dd;
    s
  }

  /** Two dates render to the same folder name only when they are the same date. */
  lemma FormatDateInjective(d: Date, e: Date)
    requires ValidDate(d) && ValidDate(e)
    requires FormatDate(d) == FormatDate(e)
    ensures d == e
  {
  }
}
