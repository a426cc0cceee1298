/**
 * JavaScript's `parseInt(s)` with no radix argument, as the search route
 * applies it to an item's `vod_year`: leading whitespace is skipped, one sign
 * is accepted, a `0x`/`0X` prefix selects radix 16, and the longest run of
 * digits that follows is read; no digit at all gives NaN (here `None`).
 */
module Numbers {
  import opened Wrappers
  import opened Text

  /** The value of `c` as a digit in the given radix (10 or 16), if it is one. */
  function DigitValue(c: char): (v: nat)
    ensures v < 36 || v == 99
  {
    if '0' <= c <= '9' then c as int - '0' as int
    else if 'a' <= c <= 'z' then c as int - 'a' as int + 10
    else if 'A' <= c <= 'Z' then c as int - 'A' as int + 10
    else 99
  }

  predicate IsDigit(c: char, radix: nat) {
    DigitValue(c) < radix
  }

  /** The length of the longest prefix of `s` made of digits of `radix`. */
  function DigitRun(s: string, radix: nat): (n: nat)
    ensures n <= |s|
    ensures forall i :: 0 <= i < n ==> IsDigit(s[i], radix)
    ensures n < |s| ==> !IsDigit(s[n], radix)
  {
    if s != [] && IsDigit(s[0], radix) then 1 + DigitRun(s[1..], radix) else 0
  }

  /** The value of a run of digits, most significant first. */
  function ValueOf(s: string, radix: nat): nat {
    if s == [] then 0 else ValueOf(s[..|s| - 1], radix) * radix + DigitValue(s[|s| - 1])
  }

  /** Reads the digits after the sign: a `0x`/`0X` prefix selects radix 16, otherwise radix 10. */
  function ParseUnsigned(u: string): Option<nat> {
    var hex := |u| >= 2 && u[0] == '0' && (u[1] == 'x' || u[1] == 'X');
    var radix := if hex then 16 else 10;
    var body := if hex then u[2..] else u;
    var n := DigitRun(body, radix);
    if n == 0 then None else Some(ValueOf(body[..n], radix))
  }

  function ParseInt(s: string): (r: Option<int>)
    ensures (forall i :: 0 <= i < |s| ==> IsJsSpace(s[i])) ==> r.None?
  {
    var t := TrimStart(s);
    var sign := if t != [] && t[0] == '-' then -1 else 1;
    var unsigned := if t != [] && (t[0] == '-' || t[0] == '+') then t[1..] else t;
    match ParseUnsigned(unsigned)
    case None => None
    case Some(v) => Some(sign * v)
  }

  /** The decimal rendering of a natural number, as `String(n)` writes it. */
  function Decimal(n: nat): (s: string)
    ensures |s| > 0
    ensures forall i :: 0 <= i < |s| ==> '0' <= s[i] <= '9'
    ensures |s| > 1 ==> s[0] != '0'
    ensures n > 0 ==> s[0] != '0'
  {
    var d := ('0' as int + n % 10) as char;
    if n < 10 then [d] else Decimal(n / 10) + [d]
  }

  lemma {:induction false} ValueOfDecimal(n: nat)
    ensures ValueOf(Decimal(n), 10) == n
  {
    if n >= 10 {
      var s := Decimal(n);
      assert s[..|s| - 1] == Decimal(n / 10);
      ValueOfDecimal(n / 10);
    }
  }

  /**
   * Reading back a year: `parseInt` of a number's decimal text, followed by
   * anything that does not continue the digits (`"2024"`, `"2024-05-01"`,
   * `"2024 HD"`, `"2024x"`), is that number. Only `"0"` followed by `x` or `X`
   * reads differently, as the start of a hexadecimal literal.
   */
  lemma ParseIntDecimal(n: nat, rest: string)
    requires rest == [] || (!('0' <= rest[0] <= '9') && (n > 0 || (rest[0] != 'x' && rest[0] != 'X')))
    ensures ParseInt(Decimal(n) + rest) == Some(n)
  {
    var d := Decimal(n);
    var s := d + rest;
    assert s[0] == d[0];
    assert !IsJsSpace(s[0]);
    assert TrimStart(s) == s;
    assert ParseUnsigned(s) == Some(n) by {
      ParseUnsignedDecimal(n, rest);
    }
  }

  lemma ParseUnsignedDecimal(n: nat, rest: string)
    requires rest == [] || (!('0' <= rest[0] <= '9') && (n > 0 || (rest[0] != 'x' && rest[0] != 'X')))
    ensures ParseUnsigned(Decimal(n) + rest) == Some(n)
  {
    var d := Decimal(n);
    var s := d + rest;
    assert !(|s| >= 2 && s[0] == '0' && (s[1] == 'x' || s[1] == 'X')) by {
      if |d| > 1 {
        assert s[1] == d[1];
      } else if n == 0 && |s| >= 2 {
        assert s[1] == rest[0];
      }
    }
    DigitRunStops(d, rest);
    assert s[..|d|] == d;
    ValueOfDecimal(n);
  }

  lemma {:induction false} DigitRunStops(d: string, rest: string)
    requires forall i :: 0 <= i < |d| ==> '0' <= d[i] <= '9'
    requires rest == [] || !('0' <= rest[0] <= '9')
    ensures DigitRun(d + rest, 10) == |d|
  {
    if d == [] {
      assert d + rest == rest;
      if rest != [] {
        assert DigitValue(rest[0]) >= 10;
      }
    } else {
      assert (d + rest)[1..] == d[1..] + rest;
      DigitRunStops(d[1..], rest);
    }
  }

  /** A value with no digit where one is expected, such as `"undefined"` or `""`, is NaN. */
  lemma ParseIntNoDigits(s: string)
    requires forall i :: 0 <= i < |s| ==> !('0' <= s[i] <= '9')
    ensures ParseInt(s) == None
  {
    var t := TrimStart(s);
    var u := if t != [] && (t[0] == '-' || t[0] == '+') then t[1..] else t;
    assert u == [] || !('0' <= u[0] <= '9') by {
      if u != [] {
        assert u[0] == s[|s| - |u|];
      }
    }
    ParseUnsignedNoDigit(u);
  }

  lemma ParseUnsignedNoDigit(u: string)
    requires u == [] || !('0' <= u[0] <= '9')
    ensures ParseUnsigned(u) == None
  {
    assert u == [] || DigitValue(u[0]) >= 10;
  }
}
