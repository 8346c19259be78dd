/** Integers as text: the decimal rendering JavaScript uses when a number is
    interpolated into a template string (`loc-${Date.now()}`,
    `+${n - 2}`), and `parseInt`, which reads the capacity field of the
    location form back into a number. */
module Numerals {
  import opened Options
  import Text

  predicate IsDigit(c: char) {
    '0' <= c <= '9'
  }

  predicate IsHexDigit(c: char) {
    IsDigit(c) || 'a' <= c <= 'f' || 'A' <= c <= 'F'
  }

  predicate AllSatisfy(s: string, p: char -> bool) {
    forall i :: 0 <= i < |s| ==> p(s[i])
  }

  function DigitChar(d: nat): char
    requires d < 10
  {
    ('0' as int + d) as char
  }

  function DigitValue(c: char): nat
    requires IsHexDigit(c)
  {
    if IsDigit(c) then c as int - '0' as int
    else if 'a' <= c <= 'f' then c as int - 'a' as int + 10
    else c as int - 'A' as int + 10
  }

  /** The plain decimal rendering of a non-negative integer: digits only,
      no leading zero. JavaScript renders numbers this way below 10^21;
      larger ones come out in exponent form, which is not modelled. */
  function Decimal(n: nat): (r: string)
    ensures |r| > 0
    ensures AllSatisfy(r, IsDigit)
    ensures |r| > 1 ==> r[0] != '0'
    decreases n
  {
    if n < 10 then [DigitChar(n)] else Decimal(n / 10) + [DigitChar(n % 10)]
  }

  /** The value of a run of digits in the given base, most significant first. */
  function RunValue(ds: string, base: nat): nat
    requires AllSatisfy(ds, IsHexDigit)
    decreases |ds|
  {
    if |ds| == 0 then 0
    else base * RunValue(ds[..|ds| - 1], base) + DigitValue(ds[|ds| - 1])
  }

  /** Rendering a number and reading the digits back gives the number. */
  lemma {:induction false} DecimalValue(n: nat)
    ensures AllSatisfy(Decimal(n), IsHexDigit)
    ensures RunValue(Decimal(n), 10) == n
    decreases n
  {
    if n >= 10 {
      var d := Decimal(n / 10);
      DecimalValue(n / 10);
      assert (d + [DigitChar(n % 10)])[..|d|] == d;
    }
  }

  /** The longest prefix of `s` whose characters all satisfy `p`. */
  function LeadingRun(s: string, p: char -> bool): (r: string)
    ensures r <= s
    ensures AllSatisfy(r, p)
    ensures |r| < |s| ==> !p(s[|r|])
    decreases |s|
  {
    if |s| > 0 && p(s[0]) then [s[0]] + LeadingRun(s[1..], p) else []
  }

  /** A string made only of characters satisfying `p` is its own leading run. */
  lemma {:induction false} LeadingRunAll(s: string, p: char -> bool)
    requires AllSatisfy(s, p)
    ensures LeadingRun(s, p) == s
    decreases |s|
  {
    if |s| > 0 {
      LeadingRunAll(s[1..], p);
      assert [s[0]] + s[1..] == s;
    }
  }

  /** The unsigned part of `parseInt`: a `0x`/`0X` prefix selects base 16,
      otherwise base 10, and the longest run of digits that follows is the
      value; `None` when no digit follows. */
  function Magnitude(body: string): Option<nat>
  {
    if |body| >= 2 && body[0] == '0' && (body[1] == 'x' || body[1] == 'X') then
      var hs := LeadingRun(body[2..], IsHexDigit);
      if |hs| == 0 then None else Some(RunValue(hs, 16))
    else
      var ds := LeadingRun(body, IsDigit);
      assert AllSatisfy(ds, IsHexDigit);
      if |ds| == 0 then None else Some(RunValue(ds, 10))
  }

  /** `parseInt(s)` with no radix argument: leading white space is skipped,
      one optional sign is read, and the rest is read by `Magnitude`.
      `None` stands for `NaN`. */
  function ParseInt(s: string): Option<int>
  {
    var u := Text.TrimStart(s);
    if |u| > 0 && u[0] == '-' then
      match Magnitude(u[1..])
      case None => None
      case Some(m) => Some(-(m as int))
    else if |u| > 0 && u[0] == '+' then
      match Magnitude(u[1..])
      case None => None
      case Some(m) => Some(m)
    else
      match Magnitude(u)
      case None => None
      case Some(m) => Some(m)
  }

  /** A rendered number has no sign and no `0x` prefix, so it is read in
      base 10 as a whole. */
  lemma MagnitudeDecimal(n: nat)
    ensures Magnitude(Decimal(n)) == Some(n)
  {
    var d := Decimal(n);
    assert !(|d| >= 2 && d[0] == '0');
    LeadingRunAll(d, IsDigit);
    DecimalValue(n);
  }

  /** `parseInt` reads back every rendered non-negative integer. With
      JavaScript numbers this holds up to 2^53, where both the rendering
      and the parse are still exact. */
  lemma ParseDecimal(n: nat)
    ensures ParseInt(Decimal(n)) == Some(n)
  {
    var d := Decimal(n);
    assert IsDigit(d[0]);
    assert !Text.IsJsSpace(d[0]);
    var u := Text.TrimStart(d);
    assert u == d;
    assert u[0] != '-' && u[0] != '+';
    MagnitudeDecimal(n);
    assert Magnitude(u) == Some(n);
  }
}
