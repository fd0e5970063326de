/** The text burned into a frame by the "timestamp" option: `stampToString`.

    The whole-second part of the stamp goes through `localtime` and
    `strftime("%H:%M:%S")`, which depend on the time zone and are given here as
    the parameter `timeOfDay`. The nanosecond part is written in decimal,
    padded on the left with '0' to width 9 (`std::setw(9)`, `std::setfill('0')`),
    and only its first character is kept, so the fraction is truncated to tenths. */
module StampFormat {

  /** Width of the zero-padded nanosecond field. */
  const NanosWidth: nat := 9

  /** How many fractional digits are kept (`fractional_second_digits`). */
  const FractionalSecondDigits: nat := 1

  function Pow10(k: nat): (p: nat)
    ensures p >= 1
  {
    if k == 0 then 1 else 10 * Pow10(k - 1)
  }

  predicate IsDigit(c: char) {
    '0' <= c <= '9'
  }

  function DigitChar(d: nat): (c: char)
    requires d < 10
    ensures IsDigit(c) && c as int - '0' as int == d
  {
    ('0' as int + d) as char
  }

  function DigitValue(c: char): (d: nat)
    requires IsDigit(c)
    ensures d < 10 && DigitChar(d) == c
  {
    c as int - '0' as int
  }

  /** The value of a string of decimal digits. */
  function DigitsValue(s: string): nat
    requires forall i :: 0 <= i < |s| ==> IsDigit(s[i])
  {
    if s == [] then 0 else 10 * DigitsValue(s[..|s| - 1]) + DigitValue(s[|s| - 1])
  }

  /** What `operator<<` writes for an unsigned number: its decimal digits,
      without leading zeros ("0" for zero). */
  function Decimal(n: nat): (s: string)
    ensures 1 <= |s|
    ensures forall i :: 0 <= i < |s| ==> IsDigit(s[i])
    ensures n < 10 <==> |s| == 1
  {
    if n < 10 then [DigitChar(n)] else Decimal(n / 10) + [DigitChar(n % 10)]
  }

  /** Reading the written digits back gives the number. */
  lemma {:induction false} DecimalRoundTrip(n: nat)
    ensures DigitsValue(Decimal(n)) == n
  {
    var s := Decimal(n);
    if n >= 10 {
      DecimalRoundTrip(n / 10);
      assert s[..|s| - 1] == Decimal(n / 10);
    }
  }

  /** A number below 10^k has at most k digits. */
  lemma {:induction false} DecimalLength(n: nat, k: nat)
    requires 1 <= k && n < Pow10(k)
    ensures |Decimal(n)| <= k
  {
    if n >= 10 {
      DecimalLength(n / 10, k - 1);
    }
  }

  /** `std::setw(width)` with fill `fill`: right-aligns `s`, never truncates it. */
  function PadLeft(s: string, width: nat, fill: char): (r: string)
    ensures |r| == if |s| >= width then |s| else width
    ensures r[|r| - |s|..] == s
    ensures forall i :: 0 <= i < |r| - |s| ==> r[i] == fill
  {
    if |s| >= width then s else seq(width - |s|, _ => fill) + s
  }

  /** `ss.str().substr(0, FractionalSecondDigits)` after writing `nsec` padded to width 9. */
  function FractionDigits(nsec: nat): (r: string)
    ensures |r| == FractionalSecondDigits && IsDigit(r[0])
  {
    PadLeft(Decimal(nsec), NanosWidth, '0')[..FractionalSecondDigits]
  }

  /** A number is below 10 to the power of its digit count. */
  lemma {:induction false} DecimalBound(n: nat)
    ensures n < Pow10(|Decimal(n)|)
  {
    if n >= 10 {
      DecimalBound(n / 10);
    }
  }

  /** The first digit written is the leading digit d of n:
      d * 10^(m-1) <= n < (d+1) * 10^(m-1) for the digit count m. */
  lemma {:induction false} DecimalLeadingDigit(n: nat)
    ensures var d := DigitValue(Decimal(n)[0]);
      d * Pow10(|Decimal(n)| - 1) <= n < (d + 1) * Pow10(|Decimal(n)| - 1)
  {
    if n >= 10 {
      DecimalLeadingDigit(n / 10);
      var front := Decimal(n / 10);
      assert Decimal(n)[0] == front[0];
      assert Pow10(|Decimal(n)| - 1) == 10 * Pow10(|front| - 1);
      ScaleTen(n, DigitValue(front[0]), Pow10(|front| - 1));
    }
  }

  lemma ScaleTen(n: nat, d: nat, p: nat)
    requires d * p <= n / 10 < (d + 1) * p
    ensures d * (10 * p) <= n < (d + 1) * (10 * p)
  {
  }

  /** The first character of n padded with '0' to width k is the leading digit
      d of the k-digit field: d * 10^(k-1) <= n < (d+1) * 10^(k-1), the digits
      after it dropped, not rounded. */
  lemma PaddedLeadingDigit(n: nat, k: nat)
    requires 1 <= k && n < Pow10(k)
    ensures |PadLeft(Decimal(n), k, '0')| == k
    ensures var d := DigitValue(PadLeft(Decimal(n), k, '0')[0]);
      d * Pow10(k - 1) <= n < (d + 1) * Pow10(k - 1)
  {
    DecimalLength(n, k);
    var s := Decimal(n);
    if |s| < k {
      DecimalBound(n);
      PowMonotone(|s|, k - 1);
      assert PadLeft(s, k, '0')[0] == '0';
      assert DigitValue('0') == 0;
      assert 0 * Pow10(k - 1) == 0 && 1 * Pow10(k - 1) == Pow10(k - 1);
    } else {
      DecimalLeadingDigit(n);
      assert PadLeft(s, k, '0') == s;
    }
  }

  lemma {:induction false} PowMonotone(i: nat, j: nat)
    requires i <= j
    ensures Pow10(i) <= Pow10(j)
  {
    if i < j {
      PowMonotone(i, j - 1);
    }
  }

  /** The kept character of a normalised nanosecond count is the digit d with
      d * 10^8 <= nsec < (d+1) * 10^8. */
  lemma FractionDigitBounds(nsec: nat)
    requires nsec < 1_000_000_000
    ensures var d := DigitValue(FractionDigits(nsec)[0]);
      d * 100_000_000 <= nsec < (d + 1) * 100_000_000
  {
    assert Pow10(NanosWidth) == 1_000_000_000;
    assert Pow10(NanosWidth - 1) == 100_000_000;
    PaddedLeadingDigit(nsec, NanosWidth);
  }

  /** For a normalised nanosecond count the kept character is the tenths digit,
      truncated: 250000000 ns gives "2", 999999999 ns gives "9". */
  lemma FractionIsTruncatedTenths(nsec: nat)
    requires nsec < 1_000_000_000
    ensures FractionDigits(nsec) == [DigitChar(nsec / 100_000_000)]
  {
    FractionDigitBounds(nsec);
    TenthsByBounds(nsec, DigitValue(FractionDigits(nsec)[0]));
  }

  lemma TenthsByBounds(nsec: nat, d: nat)
    requires d * 100_000_000 <= nsec < (d + 1) * 100_000_000
    ensures nsec / 100_000_000 == d
  {
  }

  /** `stampToString(stamp)`: time of day, a dot, and the tenths digit. */
  function StampToString(sec: nat, nsec: nat, timeOfDay: nat -> string): (r: string)
    ensures |r| == |timeOfDay(sec)| + 2
    ensures r[..|timeOfDay(sec)|] == timeOfDay(sec)
    ensures r[|timeOfDay(sec)|] == '.' && IsDigit(r[|r| - 1])
  {
    timeOfDay(sec) + "." + FractionDigits(nsec)
  }

  /** Any stamp between 0.2 s and 0.3 s past a whole second is written as its
      time of day followed by ".2": 250000000 ns, say, is not rounded up. */
  lemma StampExample(sec: nat, nsec: nat, timeOfDay: nat -> string)
    requires 200_000_000 <= nsec < 300_000_000
    ensures StampToString(sec, nsec, timeOfDay) == timeOfDay(sec) + ".2"
  {
    FractionIsTruncatedTenths(nsec);
    TenthsByBounds(nsec, 2);
    assert FractionDigits(nsec) == [DigitChar(2)] == "2";
  }
}
