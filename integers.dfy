/** Python 2's `int(text)` in base 10, which reads an MX priority, and
    `str(n)`, which shows one again. */
module Integers {
  import opened Records

  predicate IsDigit(c: char) {
    '0' <= c <= '9'
  }

  predicate AllDigits(s: string) {
    forall k :: 0 <= k < |s| ==> IsDigit(s[k])
  }

  /** The characters `int()` strips from both ends of its argument. */
  predicate IsWhitespace(c: char) {
    c == ' ' || c == '\t' || c == '\n' || c == '\r' || c == '\U{000B}' || c == '\U{000C}'
  }

  /** `s.strip()`: `s` without its leading and trailing whitespace. */
  function Strip(s: string): (r: string)
    ensures |r| <= |s|
    ensures r == [] || (!IsWhitespace(r[0]) && !IsWhitespace(r[|r| - 1]))
    ensures s != [] && !IsWhitespace(s[0]) && !IsWhitespace(s[|s| - 1]) ==> r == s
    decreases |s|
  {
    if s != [] && IsWhitespace(s[0]) then Strip(s[1..])
    else if s != [] && IsWhitespace(s[|s| - 1]) then Strip(s[..|s| - 1])
    else s
  }

  /** The value of a string of decimal digits, the last digit least significant. */
  function DigitsValue(ds: string): nat
    requires AllDigits(ds)
  {
    if ds == [] then 0
    else 10 * DigitsValue(ds[..|ds| - 1]) + ((ds[|ds| - 1] as int) - ('0' as int))
  }

  /** `s.lstrip()`: `s` without its leading whitespace. */
  function SkipWhitespace(s: string): (r: string)
    ensures |r| <= |s|
    ensures r == [] || !IsWhitespace(r[0])
  {
    if s != [] && IsWhitespace(s[0]) then SkipWhitespace(s[1..]) else s
  }

  /** `int(s)`: surrounding whitespace, then an optional sign, then, as
      Python 2's parser skips whitespace once more after the sign, any
      whitespace, then at least one decimal digit; None stands for the
      ValueError on anything else. */
  function ParseInt(s: string): (r: Option<int>)
  {
    var t := Strip(s);
    var negative := t != [] && t[0] == '-';
    var unsigned := if t != [] && (t[0] == '-' || t[0] == '+') then t[1..] else t;
    var digits := SkipWhitespace(unsigned);
    if digits == [] || !AllDigits(digits) then None
    else if negative then Some(-(DigitsValue(digits) as int))
    else Some(DigitsValue(digits))
  }

  /** `str(n)` for a natural number: its decimal digits, no leading zero. */
  function ShowNat(n: nat): (r: string)
    ensures r != [] && AllDigits(r)
    ensures DigitsValue(r) == n
    ensures r[0] != '0' || n == 0
  {
    var last := ('0' as int + n % 10) as char;
    if n < 10 then [last]
    else
      var r := ShowNat(n / 10) + [last];
      assert r[..|r| - 1] == ShowNat(n / 10);
      r
  }

  /** `str(n)`: a minus sign for a negative number, then the digits. */
  function Show(n: int): (r: string)
    ensures r != [] && !IsWhitespace(r[0]) && !IsWhitespace(r[|r| - 1])
  {
    if n < 0 then "-" + ShowNat(-n) else ShowNat(n)
  }

  /** Reading back what `str` shows gives the number again: a priority that
      is printed can be parsed from a row. */
  lemma ParseShow(n: int)
    ensures ParseInt(Show(n)) == Some(n)
  {
    var s := Show(n);
    var value := if n < 0 then -n else n;
    var ds := ShowNat(value);
    if n < 0 {
      var ws: string := [];
      assert s == ['-'] + ws + ds;
      SignThenWhitespace('-', ws, value);
    } else {
      assert s == ds;
      ParseDigits(ds);
    }
  }

  /** A plain run of digits reads as its value. */
  lemma ParseDigits(ds: string)
    requires ds != [] && AllDigits(ds)
    ensures ParseInt(ds) == Some(DigitsValue(ds))
  {
    assert IsDigit(ds[0]) && IsDigit(ds[|ds| - 1]);
    assert Strip(ds) == ds;
    assert SkipWhitespace(ds) == ds;
  }

  /** A sign followed by whitespace still reads as a number: `int('-\t10')`
      is -10. */
  lemma SignThenWhitespace(sign: char, ws: string, n: nat)
    requires sign == '-' || sign == '+'
    requires forall k :: 0 <= k < |ws| ==> IsWhitespace(ws[k])
    ensures ParseInt([sign] + ws + ShowNat(n)) == Some(if sign == '-' then -(n as int) else n)
  {
    var ds := ShowNat(n);
    var t := [sign] + ws + ds;
    assert !IsWhitespace(t[0]);
    assert t[|t| - 1] == ds[|ds| - 1] && IsDigit(ds[|ds| - 1]);
    assert Strip(t) == t;
    assert t[1..] == ws + ds;
    assert IsDigit(ds[0]);
    SkipLeading(ws, ds);
  }

  /** Whitespace before a word is skipped, and nothing of the word. */
  lemma {:induction false} SkipLeading(ws: string, w: string)
    requires forall k :: 0 <= k < |ws| ==> IsWhitespace(ws[k])
    requires w != [] && !IsWhitespace(w[0])
    ensures SkipWhitespace(ws + w) == w
  {
    if ws == [] {
      assert ws + w == w;
    } else {
      var t := ws + w;
      assert t[0] == ws[0];
      assert t[1..] == ws[1..] + w;
      SkipLeading(ws[1..], w);
    }
  }
}
