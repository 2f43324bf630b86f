/** Rust's unsigned integer parsing and the renderings it reads back. */
module Numbers {
  import opened Octets

  const U64_MAX: nat := 0xFFFF_FFFF_FFFF_FFFF
  const U16_MAX: nat := 0xFFFF

  datatype Radix = Decimal | Hex

  /** The value of one digit, in either letter case, when it is one in this radix. */
  function Digit(c: char, radix: Radix): (r: Option<nat>)
    ensures r.Some? ==> r.value < 16 && (radix.Decimal? ==> r.value < 10)
  {
    if '0' <= c <= '9' then Some(c as int - '0' as int)
    else if radix.Decimal? then None
    else if 'a' <= c <= 'f' then Some(c as int - 'a' as int + 10)
    else if 'A' <= c <= 'F' then Some(c as int - 'A' as int + 10)
    else None
  }

  /** `v` followed by one more digit. */
  function Shift(v: nat, d: nat, radix: Radix): nat {
    if radix.Decimal? then v * 10 + d else v * 16 + d
  }

  /** The number a digit string spells, whatever its size. */
  function Value(s: string, radix: Radix): (r: Option<nat>)
  {
    if s == "" then Some(0)
    else
      match (Value(s[..|s| - 1], radix), Digit(s[|s| - 1], radix))
      case (Some(v), Some(d)) => Some(Shift(v, d, radix))
      case _ => None
  }

  /** `from_str_radix` for an unsigned type: one leading plus sign is allowed, a minus sign is not,
      and a value above `max` is an error. */
  function Parse(s: string, radix: Radix, max: nat): (r: Option<nat>)
    ensures r.Some? ==> r.value <= max
  {
    var digits := if |s| > 1 && s[0] == '+' then s[1..] else s;
    if digits == "" then None
    else
      match Value(digits, radix)
      case Some(v) => if v <= max then Some(v) else None
      case None => None
  }

  predicate IsDigit(c: char) {
    '0' <= c <= '9' || 'a' <= c <= 'f'
  }

  function DigitChar(d: nat): (c: Byte)
    requires d < 16
    ensures IsDigit(c) && Digit(c, Hex) == Some(d) && (d < 10 ==> Digit(c, Decimal) == Some(d))
  {
    if d < 10 then ('0' as int + d) as char else ('a' as int + d - 10) as char
  }

  /** All but the last digit of `n`, and the last one. */
  function Unshift(n: nat, radix: Radix): (r: (nat, nat))
    ensures r.1 < 16 && (radix.Decimal? ==> r.1 < 10)
    ensures Shift(r.0, r.1, radix) == n && r.0 <= n && (n > 0 ==> r.0 < n)
  {
    if radix.Decimal? then (n / 10, n % 10) else (n / 16, n % 16)
  }

  /** The usual rendering, without leading zeros. */
  function Render(n: nat, radix: Radix): (s: Bytes)
    ensures s != [] && forall i :: 0 <= i < |s| ==> IsDigit(s[i])
  {
    var (high, low) := Unshift(n, radix);
    if high == 0 then [DigitChar(low)] else Render(high, radix) + [DigitChar(low)]
  }

  lemma {:induction false} ValueOfLast(s: string, v: nat, d: nat, radix: Radix)
    requires d < 16 && (radix.Decimal? ==> d < 10)
    requires Value(s, radix) == Some(v)
    ensures Value(s + [DigitChar(d)], radix) == Some(Shift(v, d, radix))
  {
    var t := s + [DigitChar(d)];
    assert t[..|t| - 1] == s;
  }

  lemma {:induction false} RenderedValue(n: nat, radix: Radix)
    ensures Value(Render(n, radix), radix) == Some(n)
  {
    var (high, low) := Unshift(n, radix);
    if high == 0 {
      ValueOfLast("", 0, low, radix);
      assert "" + [DigitChar(low)] == Render(n, radix);
    } else {
      RenderedValue(high, radix);
      ValueOfLast(Render(high, radix), high, low, radix);
    }
  }

  /** What is rendered is read back, up to the width of the type that reads it. */
  lemma {:induction false} RenderedParses(n: nat, radix: Radix, max: nat)
    ensures Parse(Render(n, radix), radix, max) == if n <= max then Some(n) else None
  {
    RenderedValue(n, radix);
    assert IsDigit(Render(n, radix)[0]);
  }
}
