/** What a numeral means, as a positional sum over its digits, and that integer parsing reads exactly the
    numerals: one optional plus sign, then digits of either letter case, leading zeros and all. */
module Numerals {
  import opened Octets
  import opened Numbers

  const LOWER_DIGITS: string := "0123456789abcdef"
  const UPPER_DIGITS: string := "0123456789ABCDEF"

  predicate IsDigitFor(c: char, d: nat) {
    d < 16 && (c == LOWER_DIGITS[d] || c == UPPER_DIGITS[d])
  }

  function Base(radix: Radix): nat {
    if radix.Decimal? then 10 else 16
  }

  function Power(radix: Radix, k: nat): nat {
    if k == 0 then 1 else Base(radix) * Power(radix, k - 1)
  }

  /** The digits weighted by their places. */
  function Weighed(digits: seq<nat>, radix: Radix): nat {
    if digits == [] then 0 else digits[0] * Power(radix, |digits| - 1) + Weighed(digits[1..], radix)
  }

  predicate AreDigits(s: string, digits: seq<nat>, radix: Radix) {
    |s| == |digits| && forall i :: 0 <= i < |s| ==> digits[i] < Base(radix) && IsDigitFor(s[i], digits[i])
  }

  /** `s` is a numeral for `n`. */
  ghost predicate Spells(s: string, radix: Radix, n: nat) {
    exists digits: seq<nat> :: digits != [] && Weighed(digits, radix) == n
                               && (AreDigits(s, digits, radix) || (s != "" && s[0] == '+' && AreDigits(s[1..], digits, radix)))
  }

  lemma {:induction false} DigitMeans(c: char, radix: Radix, d: nat)
    ensures Digit(c, radix) == Some(d) <==> d < Base(radix) && IsDigitFor(c, d)
  {
    assert |LOWER_DIGITS| == |UPPER_DIGITS| == 16;
  }

  lemma {:induction false} Swap(a: nat, b: nat, c: nat)
    ensures a * (b * c) == b * (a * c)
  {
  }

  lemma {:induction false} Distribute(a: nat, b: nat, c: nat)
    ensures a * (b + c) == a * b + a * c
  {
  }

  /** One more digit at the end moves the others up one place. */
  lemma {:induction false} WeighedMore(digits: seq<nat>, d: nat, radix: Radix)
    ensures Weighed(digits + [d], radix) == Base(radix) * Weighed(digits, radix) + d
  {
    if digits == [] {
      assert ([] + [d])[1..] == [];
      assert Weighed([], radix) == 0 && Power(radix, 0) == 1;
      assert Weighed([d], radix) == d * 1 + Weighed([d][1..], radix);
    } else {
      var all, rest := digits + [d], digits[1..];
      assert all[1..] == rest + [d];
      WeighedMore(rest, d, radix);
      var p := Power(radix, |rest|);
      assert Power(radix, |digits|) == Base(radix) * p;
      Swap(digits[0], Base(radix), p);
      Distribute(Base(radix), digits[0] * p, Weighed(rest, radix));
    }
  }

  lemma {:induction false} ShiftMeans(v: nat, d: nat, radix: Radix)
    ensures Shift(v, d, radix) == Base(radix) * v + d
  {
  }

  lemma {:induction false} ValueStep(s: string, radix: Radix)
    requires s != ""
    ensures var v, d := Value(s[..|s| - 1], radix), Digit(s[|s| - 1], radix);
            Value(s, radix) == if v.Some? && d.Some? then Some(Shift(v.value, d.value, radix)) else None
  {
    hide Digit, Shift;
  }

  lemma {:induction false} DigitsStep(s: string, digits: seq<nat>, radix: Radix)
    requires s != "" && |s| == |digits|
    ensures var k := |s| - 1;
            AreDigits(s, digits, radix) <==>
            AreDigits(s[..k], digits[..k], radix) && digits[k] < Base(radix) && IsDigitFor(s[k], digits[k])
  {
    hide IsDigitFor;
    var k := |s| - 1;
    assert forall i :: 0 <= i < k ==> s[..k][i] == s[i] && digits[..k][i] == digits[i];
    if AreDigits(s[..k], digits[..k], radix) && digits[k] < Base(radix) && IsDigitFor(s[k], digits[k]) {
      forall i | 0 <= i < |s| ensures digits[i] < Base(radix) && IsDigitFor(s[i], digits[i]) {
        if i < k {
          assert IsDigitFor(s[..k][i], digits[..k][i]);
        }
      }
    }
  }

  lemma {:induction false} DigitsHaveValue(s: string, digits: seq<nat>, radix: Radix)
    requires AreDigits(s, digits, radix)
    ensures Value(s, radix) == Some(Weighed(digits, radix))
    decreases |s|
  {
    hide Weighed, Digit, Shift, IsDigitFor, Value, AreDigits, Base, Power;
    SameLength(s, digits, radix);
    if s == "" {
      NoDigits(radix);
      assert digits == [];
    } else {
      var k := |s| - 1;
      DigitsStep(s, digits, radix);
      DigitsHaveValue(s[..k], digits[..k], radix);
      OneMoreDigit(s, digits[..k], digits[k], radix);
      assert digits == digits[..k] + [digits[k]];
    }
  }

  lemma {:induction false} NoDigits(radix: Radix)
    ensures Value("", radix) == Some(0) && Weighed([], radix) == 0
  {
  }

  lemma {:induction false} OneMoreDigit(s: string, digits: seq<nat>, d: nat, radix: Radix)
    requires s != "" && Value(s[..|s| - 1], radix) == Some(Weighed(digits, radix))
    requires d < Base(radix) && IsDigitFor(s[|s| - 1], d)
    ensures Value(s, radix) == Some(Weighed(digits + [d], radix))
  {
    hide Weighed, Digit, Shift, IsDigitFor, Value, Base, Power;
    DigitMeans(s[|s| - 1], radix, d);
    ValueStep(s, radix);
    WeighedMore(digits, d, radix);
    ShiftMeans(Weighed(digits, radix), d, radix);
  }

  lemma {:induction false} SameLength(s: string, digits: seq<nat>, radix: Radix)
    requires AreDigits(s, digits, radix)
    ensures |s| == |digits|
  {
  }

  lemma {:induction false} ValueHasDigits(s: string, radix: Radix) returns (digits: seq<nat>)
    requires Value(s, radix).Some?
    ensures AreDigits(s, digits, radix) && Weighed(digits, radix) == Value(s, radix).value
    decreases |s|
  {
    if s == "" {
      digits := [];
    } else {
      hide Weighed, Digit, Shift, IsDigitFor, Value, AreDigits;
      var k := |s| - 1;
      ValueStep(s, radix);
      var before := ValueHasDigits(s[..k], radix);
      SameLength(s[..k], before, radix);
      var d := Digit(s[k], radix).value;
      DigitMeans(s[k], radix, d);
      digits := before + [d];
      assert digits[..k] == before && digits[k] == d;
      DigitsStep(s, digits, radix);
      DigitsHaveValue(s, digits, radix);
    }
  }

  /** Parsing accepts exactly the numerals up to the type's largest value, and gives their number. */
  lemma {:induction false} ParseIff(s: string, radix: Radix, max: nat, n: nat)
    ensures Parse(s, radix, max) == Some(n) <==> Spells(s, radix, n) && n <= max
  {
    hide Weighed, Value, Digit, IsDigitFor;
    if Parse(s, radix, max) == Some(n) {
      var text := if |s| > 1 && s[0] == '+' then s[1..] else s;
      var digits := ValueHasDigits(text, radix);
      assert digits != [];
    }
    if Spells(s, radix, n) && n <= max {
      var digits: seq<nat> :| digits != [] && Weighed(digits, radix) == n
        && (AreDigits(s, digits, radix) || (s != "" && s[0] == '+' && AreDigits(s[1..], digits, radix)));
      if AreDigits(s, digits, radix) {
        PlusIsNoDigit(s, digits, radix);
        DigitsHaveValue(s, digits, radix);
      } else {
        DigitsHaveValue(s[1..], digits, radix);
      }
    }
  }

  lemma {:induction false} PlusIsNoDigit(s: string, digits: seq<nat>, radix: Radix)
    requires s != "" && AreDigits(s, digits, radix)
    ensures s[0] != '+'
  {
    assert IsDigitFor(s[0], digits[0]);
  }

  /** A numeral is one number's only. */
  lemma {:induction false} SpellsOne(s: string, radix: Radix, m: nat, n: nat)
    requires Spells(s, radix, m) && Spells(s, radix, n)
    ensures m == n
  {
    hide Spells;
    ParseIff(s, radix, m + n, m);
    ParseIff(s, radix, m + n, n);
  }

  /** What a numeral is made of. */
  predicate IsNumeralChar(c: char) {
    '0' <= c <= '9' || 'a' <= c <= 'f' || 'A' <= c <= 'F' || c == '+'
  }

  lemma {:induction false} NumeralChars(s: string, radix: Radix, n: nat)
    requires Spells(s, radix, n)
    ensures s != "" && forall i :: 0 <= i < |s| ==> IsNumeralChar(s[i])
  {
    hide Weighed;
    var digits: seq<nat> :| digits != [] && Weighed(digits, radix) == n
      && (AreDigits(s, digits, radix) || (s != "" && s[0] == '+' && AreDigits(s[1..], digits, radix)));
    forall i | 0 <= i < |s| ensures IsNumeralChar(s[i]) {
      if AreDigits(s, digits, radix) {
        DigitChars(s[i], digits[i]);
      } else if i > 0 {
        assert s[1..][i - 1] == s[i];
        DigitChars(s[i], digits[i - 1]);
      }
    }
  }

  lemma {:induction false} DigitChars(c: char, d: nat)
    requires IsDigitFor(c, d)
    ensures IsNumeralChar(c) && c != '+'
  {
  }

  /** The usual rendering is a numeral. */
  lemma {:induction false} RenderedSpells(n: nat, radix: Radix)
    ensures Spells(Render(n, radix), radix, n)
  {
    hide Spells, Render;
    RenderedParses(n, radix, n);
    ParseIff(Render(n, radix), radix, n, n);
  }

  // ---- Numerals with blanks around them ----

  /** `s` is a numeral for `n` between blanks. */
  ghost predicate SpellsPadded(s: Bytes, radix: Radix, n: nat) {
    exists a: Bytes, core: Bytes, b: Bytes :: s == a + core + b && AreBlank(a) && AreBlank(b) && Spells(core, radix, n)
  }

  lemma {:induction false} PaddedIff(s: Bytes, radix: Radix, n: nat)
    ensures SpellsPadded(s, radix, n) <==> Spells(Trim(s), radix, n)
  {
    hide Spells, Trim;
    if SpellsPadded(s, radix, n) {
      var a: Bytes, core: Bytes, b: Bytes :| s == a + core + b && AreBlank(a) && AreBlank(b) && Spells(core, radix, n);
      NumeralChars(core, radix, n);
      TrimBetween(a, core, b);
    }
    if Spells(Trim(s), radix, n) {
      var front, back := TrimmedEnds(s);
    }
  }
}
