/**
 * The number extraction shared by both `try_parse_rating` helpers
 * (app/summarizer.py and app/ollama_handler.py): the first match of
 * `\d+(\.\d+)?`, converted with `float` and rounded by `round(x, 1)`.
 * A rating is kept as a whole number of tenths.
 */
module Ratings {
  import opened Base
  import opened Text

  /** Either a rating in tenths (4.5 is Score(45)) or the sentinel string "N/A". */
  datatype Rating = NotAvailable | Score(tenths: nat)

  /** Index of the first non-digit at or after `i`. */
  function DigitRunEnd(s: string, i: nat): (r: nat)
    requires i <= |s|
    ensures i <= r <= |s|
    ensures forall k :: i <= k < r ==> IsDigit(s[k])
    ensures r == |s| || !IsDigit(s[r])
    decreases |s| - i
  {
    if i == |s| || !IsDigit(s[i]) then i else DigitRunEnd(s, i + 1)
  }

  /** Index of the first digit at or after `i`. */
  function FirstDigitFrom(s: string, i: nat): (r: Option<nat>)
    requires i <= |s|
    ensures r.Some? ==> i <= r.value < |s| && IsDigit(s[r.value])
    ensures r.Some? ==> forall k :: i <= k < r.value ==> !IsDigit(s[k])
    ensures r.None? <==> forall k :: i <= k < |s| ==> !IsDigit(s[k])
    decreases |s| - i
  {
    if i == |s| then None
    else if IsDigit(s[i]) then Some(i)
    else FirstDigitFrom(s, i + 1)
  }

  predicate HasDigit(s: string) {
    exists k :: 0 <= k < |s| && IsDigit(s[k])
  }

  /** Position of a match: digits in [start, intEnd), and, when end > intEnd, "." then digits in (intEnd, end). */
  datatype NumberMatch = NumberMatch(start: nat, intEnd: nat, end: nat)

  /** `m` is the match `re.search(r"\d+(\.\d+)?", s)` finds: leftmost start, both digit runs greedy. */
  predicate IsFirstNumber(s: string, m: NumberMatch) {
    && m.start < m.intEnd <= m.end <= |s|
    && (forall k :: 0 <= k < m.start ==> !IsDigit(s[k]))
    && (forall k :: m.start <= k < m.intEnd ==> IsDigit(s[k]))
    && (m.intEnd == |s| || !IsDigit(s[m.intEnd]))
    && (if m.intEnd + 1 < |s| && s[m.intEnd] == '.' && IsDigit(s[m.intEnd + 1])
        then m.end > m.intEnd + 1
             && (forall k :: m.intEnd + 1 <= k < m.end ==> IsDigit(s[k]))
             && (m.end == |s| || !IsDigit(s[m.end]))
        else m.end == m.intEnd)
  }

  /** The regular-expression search itself. */
  function FirstNumber(s: string): (r: Option<NumberMatch>)
    ensures r.None? <==> !HasDigit(s)
    ensures r.Some? ==> IsFirstNumber(s, r.value)
  {
    match FirstDigitFrom(s, 0)
    case None => None
    case Some(i) =>
      var j := DigitRunEnd(s, i);
      if j + 1 < |s| && s[j] == '.' && IsDigit(s[j + 1]) then
        Some(NumberMatch(i, j, DigitRunEnd(s, j + 1)))
      else
        Some(NumberMatch(i, j, j))
  }

  predicate AllDigits(ds: string) {
    forall k :: 0 <= k < |ds| ==> IsDigit(ds[k])
  }

  function DigitValue(c: char): nat
    requires IsDigit(c)
  {
    c as int - '0' as int
  }

  /** The value of a decimal digit string, most significant digit first. */
  function DigitsValue(ds: string): nat
    requires AllDigits(ds)
  {
    if ds == [] then 0 else DigitsValue(ds[..|ds| - 1]) * 10 + DigitValue(ds[|ds| - 1])
  }

  function Pow10(n: nat): (p: nat)
    ensures p >= 1
  {
    if n == 0 then 1 else 10 * Pow10(n - 1)
  }

  /**
   * `round(float(i + "." + frac), 1)` in tenths, computed on the exact
   * decimal value: the fraction `frac` is cut after its first digit and
   * the rest decides the rounding, a tie going to the even neighbour.
   */
  function RoundToTenths(intPart: nat, frac: string): (t: nat)
    requires AllDigits(frac)
    ensures frac == [] ==> t == intPart * 10
    ensures |frac| == 1 ==> t == intPart * 10 + DigitValue(frac[0])
  {
    if frac == [] then intPart * 10
    else
      var d, p := DigitsValue(frac), Pow10(|frac| - 1);
      OneDigitValue(frac);
      intPart * 10 + HalfEven(d / p, d % p, p)
  }

  /**
   * The quotient `q` of a division by `p` with remainder `rem`, rounded to
   * the nearest whole number, a tie going to the even one.
   */
  function HalfEven(q: nat, rem: nat, p: nat): (n: nat)
    ensures 2 * rem < p ==> n == q
    ensures 2 * rem > p ==> n == q + 1
    ensures 2 * rem == p ==> n % 2 == 0 && (n == q || n == q + 1)
  {
    if 2 * rem > p || (2 * rem == p && q % 2 == 1) then q + 1 else q
  }

  lemma OneDigitValue(frac: string)
    requires AllDigits(frac)
    ensures |frac| == 1 ==> DigitsValue(frac) == DigitValue(frac[0])
  {
    if |frac| == 1 {
      assert frac[..0] == [];
    }
  }

  /** What `try_parse_rating` computes from a string: the first number, rounded to tenths, or "N/A". */
  function ParseFirstNumber(s: string): (r: Rating)
    ensures r.NotAvailable? <==> !HasDigit(s)
  {
    match FirstNumber(s)
    case None => NotAvailable
    case Some(m) =>
      var frac := if m.end == m.intEnd then [] else s[m.intEnd + 1..m.end];
      Score(RoundToTenths(DigitsValue(s[m.start..m.intEnd]), frac))
  }

  function DigitChar(d: nat): (c: char)
    requires d < 10
    ensures IsDigit(c) && DigitValue(c) == d
  {
    ('0' as int + d) as char
  }

  /** Decimal digits of `n`, without leading zeros. */
  function NatStr(n: nat): (s: string)
    ensures s != [] && AllDigits(s)
    ensures DigitsValue(s) == n
  {
    if n < 10 then
      assert [DigitChar(n)][..0] == [];
      [DigitChar(n)]
    else
      var s := NatStr(n / 10) + [DigitChar(n % 10)];
      assert s[..|s| - 1] == NatStr(n / 10);
      s
  }

  /** Python's `str()` of a rating: "4.5", "3.0", or the sentinel "N/A". */
  function RatingStr(r: Rating): string {
    match r
    case NotAvailable => "N/A"
    case Score(t) => NatStr(t / 10) + "." + [DigitChar(t % 10)]
  }

  /** Parsing the printed form of a rating gives the rating back. */
  lemma ParseRatingStr(r: Rating)
    ensures ParseFirstNumber(RatingStr(r)) == r
  {
    match r
    case NotAvailable =>
      assert !HasDigit("N/A");
    case Score(t) =>
      var ip, c := NatStr(t / 10), DigitChar(t % 10);
      assert RatingStr(r) == ip + ['.', c];
      ParseDecimal(ip, c);
      assert t == t / 10 * 10 + t % 10;
  }

  /** A run of digits, a dot and one more digit parses as itself. */
  lemma ParseDecimal(ip: string, c: char)
    requires ip != [] && AllDigits(ip) && IsDigit(c)
    ensures ParseFirstNumber(ip + ['.', c]) == Score(DigitsValue(ip) * 10 + DigitValue(c))
  {
    var s := ip + ['.', c];
    var n := |ip|;
    assert s[..n] == ip;
    assert s[n] == '.' && s[n + 1] == c && |s| == n + 2;
    assert FirstDigitFrom(s, 0) == Some(0);
    var m := FirstNumber(s).value;
    assert m.start == 0;
    assert m.intEnd == n by {
      assert forall k :: 0 <= k < n ==> IsDigit(s[k]);
    }
    assert m.end == n + 2;
    assert s[m.start..m.intEnd] == ip;
    assert s[m.intEnd + 1..m.end] == [c];
  }
}
