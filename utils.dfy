/**
 * algebraic's `repr_to_big`: a field element's hex representation ("0x...") rewritten in decimal,
 * by way of `BigUint::from_str_radix(_, 16)` and `BigUint::to_str_radix(10)`.
 */
module AlgebraicUtils {
  import opened Wrappers
  import opened Bits

  /** A character's digit value as `from_str_radix` reads it; 255 marks a non-digit. */
  function DigitValue(c: char): (d: nat)
    ensures d < 36 || d == 255
    ensures d < 10 <==> '0' <= c <= '9'
  {
    if '0' <= c <= '9' then c as nat - '0' as nat
    else if 'a' <= c <= 'z' then c as nat - 'a' as nat + 10
    else if 'A' <= c <= 'Z' then c as nat - 'A' as nat + 10
    else 255
  }

  /** A character `from_str_radix` accepts in the digit part: a digit below the radix, or `_`. */
  predicate Accepted(c: char, radix: nat)
  {
    c == '_' || DigitValue(c) < radix
  }

  /** The digit part read most-significant first, `_` separators skipped; `None` on a bad character. */
  function ParseDigits(s: string, radix: nat): Option<nat>
  {
    if s == [] then Some(0)
    else
      var init := ParseDigits(s[..|s| - 1], radix);
      var c := s[|s| - 1];
      if init.None? || !Accepted(c, radix) then None
      else if c == '_' then init
      else Some(init.value * radix + DigitValue(c))
  }

  /** The text `from_str_radix` actually parses: one leading `+` is dropped, unless a second follows. */
  function StripPlus(s: string): string
  {
    if |s| >= 1 && s[0] == '+' && !(|s| >= 2 && s[1] == '+') then s[1..] else s
  }

  /**
   * `BigUint::from_str_radix`: an optional `+`, then a non-empty digit string that does not start
   * with `_`. `None` stands for `ParseBigIntError`.
   */
  function FromStrRadix(s: string, radix: nat): Option<nat>
    requires 2 <= radix <= 36
  {
    var t := StripPlus(s);
    if t == [] || t[0] == '_' then None
    else ParseDigits(t, radix)
  }

  function DigitChar(d: nat): (c: char)
    requires d < 10
    ensures '0' <= c <= '9' && DigitValue(c) == d
  {
    ('0' as nat + d) as char
  }

  /** The decimal digits of `v`, most-significant first; empty for zero. */
  function DecimalDigits(v: nat): string
  {
    if v == 0 then [] else DecimalDigits(v / 10) + [DigitChar(v % 10)]
  }

  /** `BigUint::to_str_radix(10)`. */
  function ToStrRadix10(v: nat): string
  {
    if v == 0 then "0" else DecimalDigits(v)
  }

  /** Only decimal digits, at least one, and no leading zero unless the whole string is "0". */
  predicate IsCanonicalDecimal(r: string)
  {
    |r| >= 1 && (forall i :: 0 <= i < |r| ==> '0' <= r[i] <= '9') && (r[0] == '0' ==> |r| == 1)
  }

  /**
   * `repr_to_big`: drop the first two characters, parse the rest as hex, print it in decimal.
   * A shorter input makes the slice panic and an unparsable rest makes `unwrap` panic, so both
   * are the caller's obligation. The result is the canonical decimal numeral of the hex value.
   */
  function ReprToBig(formatted: string): (r: string)
    requires |formatted| >= 2
    requires FromStrRadix(formatted[2..], 16).Some?
    ensures IsCanonicalDecimal(r)
    ensures FromStrRadix(r, 10) == FromStrRadix(formatted[2..], 16)
  {
    var v := FromStrRadix(formatted[2..], 16).value;
    DecimalRoundTrip(v);
    ToStrRadix10(v)
  }

  // ---------------------------------------------------------------------------------------------

  /** The digit part parses exactly when every character is accepted. */
  lemma {:induction false} ParseDigitsDefined(s: string, radix: nat)
    ensures ParseDigits(s, radix).Some? <==> forall i :: 0 <= i < |s| ==> Accepted(s[i], radix)
  {
    if s != [] {
      var init := s[..|s| - 1];
      ParseDigitsDefined(init, radix);
      assert forall i :: 0 <= i < |init| ==> init[i] == s[i];
    }
  }

  /**
   * `from_str_radix` succeeds exactly on an optional single `+` followed by a non-empty string of
   * accepted characters that does not start with `_`.
   */
  lemma FromStrRadixDefined(s: string, radix: nat)
    requires 2 <= radix <= 36
    ensures var t := StripPlus(s);
      FromStrRadix(s, radix).Some? <==>
        (t != [] && t[0] != '_' && forall i :: 0 <= i < |t| ==> Accepted(t[i], radix))
  {
    ParseDigitsDefined(StripPlus(s), radix);
  }

  /** The decimal digits parse back to the value. */
  lemma {:induction false} DecimalDigitsValue(v: nat)
    ensures ParseDigits(DecimalDigits(v), 10) == Some(v)
  {
    if v > 0 {
      var s := DecimalDigits(v / 10);
      DecimalDigitsValue(v / 10);
      var c := DigitChar(v % 10);
      var t := s + [c];
      assert t[..|t| - 1] == s;
      assert ParseDigits(t, 10) == Some((v / 10) * 10 + v % 10);
    }
  }

  /** The decimal digits are digit characters, none for zero, with no leading zero otherwise. */
  lemma {:induction false} DecimalDigitsShape(v: nat)
    ensures forall i :: 0 <= i < |DecimalDigits(v)| ==> '0' <= DecimalDigits(v)[i] <= '9'
    ensures v == 0 <==> DecimalDigits(v) == []
    ensures v > 0 ==> DecimalDigits(v)[0] != '0'
  {
    if v > 0 {
      DecimalDigitsShape(v / 10);
      if v / 10 == 0 {
        assert v % 10 == v;
      }
    }
  }

  /** Printing in decimal and parsing back gives the value; the printed form is canonical. */
  lemma DecimalRoundTrip(v: nat)
    ensures FromStrRadix(ToStrRadix10(v), 10) == Some(v)
    ensures IsCanonicalDecimal(ToStrRadix10(v))
  {
    DecimalDigitsValue(v);
    DecimalDigitsShape(v);
    if v == 0 {
      assert ToStrRadix10(v) == "0";
      assert ParseDigits("0", 10) == Some(0) by {
        assert "0"[..0] == [];
      }
    }
  }

  /** A string of decimal digits without a leading zero is the printed form of its value. */
  lemma {:induction false} DecimalDigitsUnique(s: string)
    requires forall i :: 0 <= i < |s| ==> '0' <= s[i] <= '9'
    requires s != [] ==> s[0] != '0'
    ensures ParseDigits(s, 10).Some?
    ensures DecimalDigits(ParseDigits(s, 10).value) == s
    ensures s != [] ==> ParseDigits(s, 10).value > 0
  {
    if s != [] {
      var init := s[..|s| - 1];
      var c := s[|s| - 1];
      DecimalDigitsUnique(init);
      var w := ParseDigits(init, 10).value;
      var d := DigitValue(c);
      var v := w * 10 + d;
      assert ParseDigits(s, 10) == Some(v);
      if init == [] {
        assert c == s[0];
      }
      assert v > 0;
      DivModUnique(v, 10, w, d);
      assert DigitChar(d) == c;
    }
  }

  /** The decimal numeral of a value is unique: any canonical numeral of it is the printed one. */
  lemma CanonicalDecimalUnique(r: string)
    requires IsCanonicalDecimal(r)
    ensures FromStrRadix(r, 10).Some? && ToStrRadix10(FromStrRadix(r, 10).value) == r
  {
    if r[0] == '0' {
      assert r == "0";
      assert ParseDigits("0", 10) == Some(0) by {
        assert "0"[..0] == [];
      }
    } else {
      DecimalDigitsUnique(r);
    }
  }

  /**
   * `repr_to_big` returns the one canonical decimal numeral whose value is the hex value of the
   * input after its first two characters.
   */
  lemma ReprToBigUnique(formatted: string, r: string)
    requires |formatted| >= 2 && FromStrRadix(formatted[2..], 16).Some?
    requires IsCanonicalDecimal(r) && FromStrRadix(r, 10) == FromStrRadix(formatted[2..], 16)
    ensures r == ReprToBig(formatted)
  {
    CanonicalDecimalUnique(r);
  }

  /** The first two characters are never looked at: any two give the same result. */
  lemma ReprToBigIgnoresPrefix(p: string, q: string, t: string)
    requires |p| == 2 && |q| == 2 && FromStrRadix(t, 16).Some?
    ensures (p + t)[2..] == t == (q + t)[2..]
    ensures ReprToBig(p + t) == ReprToBig(q + t) == ToStrRadix10(FromStrRadix(t, 16).value)
  {
    assert (p + t)[2..] == t && (q + t)[2..] == t;
  }

  /** A leading zero digit does not change the value of a digit string. */
  lemma {:induction false} LeadingZeroDigit(d: string, radix: nat)
    requires radix >= 1
    ensures ParseDigits("0" + d, radix) == ParseDigits(d, radix)
  {
    if d == [] {
      assert ("0" + d)[..0] == [];
    } else {
      var init := d[..|d| - 1];
      LeadingZeroDigit(init, radix);
      assert ("0" + d)[..|"0" + d| - 1] == "0" + init;
    }
  }

  /** Leading zeros in the hex digits do not change the output. */
  lemma ReprToBigLeadingZero(p: string, d: string)
    requires |p| == 2 && d != [] && DigitValue(d[0]) < 16
    ensures FromStrRadix("0" + d, 16) == FromStrRadix(d, 16)
    ensures FromStrRadix(d, 16).Some? ==> ReprToBig(p + ("0" + d)) == ReprToBig(p + d)
  {
    LeadingZeroDigit(d, 16);
    assert (p + ("0" + d))[2..] == "0" + d;
    assert (p + d)[2..] == d;
  }
}
