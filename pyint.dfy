/**
 * Python's `int(token)` on a word of a message, and `str(n)` / `f"{n}"` of an integer.
 *
 * `int()` is modelled as an optional sign followed by ASCII digits, where a
 * single underscore may separate two digits (`"1_000"`); leading zeros are
 * allowed (`"007"` is 7). Python also accepts digits of other scripts and
 * surrounding whitespace; a word from `split()` has no whitespace, and other
 * scripts are not modelled.
 */
module PyInt {
  import opened Wrappers

  predicate IsDigit(c: char) { '0' <= c <= '9' }

  /** ASCII digits, where an underscore may stand only between two digits. */
  predicate IsDigitRun(s: string) {
    && |s| > 0
    && IsDigit(s[0])
    && forall i :: 0 <= i < |s| ==> IsDigit(s[i]) || (s[i] == '_' && i + 1 < |s| && IsDigit(s[i + 1]))
  }

  /** The number the digits of `s` spell, underscores skipped. */
  function DigitsValue(s: string): nat
  {
    if s == [] then 0
    else
      var last := s[|s| - 1];
      if IsDigit(last) then DigitsValue(s[..|s| - 1]) * 10 + (last as int - '0' as int)
      else DigitsValue(s[..|s| - 1])
  }

  /** `int(s)`, or `None` where Python raises `ValueError`. */
  function ParseInt(s: string): Option<int>
  {
    if |s| > 0 && (s[0] == '+' || s[0] == '-') then
      if IsDigitRun(s[1..]) then
        var v: int := DigitsValue(s[1..]);
        Some(if s[0] == '-' then -v else v)
      else None
    else if IsDigitRun(s) then Some(DigitsValue(s))
    else None
  }

  function DigitChar(d: nat): (c: char)
    requires d < 10
    ensures IsDigit(c) && c as int - '0' as int == d
  {
    ('0' as int + d) as char
  }

  /** `str(n)` for `n >= 0`: decimal digits, no leading zero. */
  function NatToString(n: nat): (r: string)
    ensures |r| > 0 && forall c | c in r :: IsDigit(c)
    ensures r[0] == '0' ==> n == 0
    ensures DigitsValue(r) == n
  {
    if n < 10 then
      var r := [DigitChar(n)];
      assert r[..0] == [];
      r
    else
      var init := NatToString(n / 10);
      var r := init + [DigitChar(n % 10)];
      assert r[..|r| - 1] == init;
      r
  }

  /** A run of digits, with or without a leading minus, reads back as its value. */
  lemma ParseDigits(digits: string)
    requires |digits| > 0 && forall c | c in digits :: IsDigit(c)
    ensures ParseInt(digits) == Some(DigitsValue(digits))
    ensures ParseInt("-" + digits) == Some(-(DigitsValue(digits) as int))
  {
    DigitsAreRun(digits);
    assert ("-" + digits)[1..] == digits;
  }

  lemma DigitsAreRun(digits: string)
    requires |digits| > 0 && forall c | c in digits :: IsDigit(c)
    ensures IsDigitRun(digits)
  {
    assert forall i :: 0 <= i < |digits| ==> digits[i] in digits;
  }

  /** `str(n)`; Python's `int()` reads it back as `n`. */
  function IntToString(n: int): (r: string)
    ensures |r| > 0
    ensures forall c | c in r :: IsDigit(c) || c == '-'
    ensures ParseInt(r) == Some(n)
  {
    var digits := NatToString(if n < 0 then -n else n);
    ParseDigits(digits);
    if n < 0 then "-" + digits else digits
  }
}
