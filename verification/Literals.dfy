/**
 What a decimal literal is taken apart into, whichever way it is written.
 */
module Literals {
  import opened Text
  import opened Decimal

  /** Digits with or without a point among them. */
  function Mantissa(whole: string, frac: string, point: bool): string { whole + if point then "." + frac else "" }

  lemma {:induction false} MantissaTaken(negative: bool, whole: string, frac: string, point: bool, written: int)
    requires AllDigits(whole) && AllDigits(frac) && whole + frac != "" && (!point ==> frac == "")
    ensures FromMantissa(negative, Mantissa(whole, frac, point), written)
         == Some(Parts(negative, Trimmed(whole + frac), written, |frac|))
  {
    PointIs(whole, frac);
    if point {
      var s := whole + "." + frac;
      assert Mantissa(whole, frac, true) == s by { assert whole + ("." + frac) == whole + "." + frac; }
      assert s[..|whole|] == whole && s[|whole| + 1..] == frac;
    } else {
      assert whole + frac == whole && Mantissa(whole, frac, false) == whole;
    }
    hide Trimmed, IndexOf;
  }

  lemma {:induction false} MantissaDigital(whole: string, frac: string, point: bool)
    requires AllDigits(whole) && AllDigits(frac) && whole + frac != "" && (!point ==> frac == "")
    ensures Mantissa(whole, frac, point) != "" && Digital(Mantissa(whole, frac, point))
  {
    var m := Mantissa(whole, frac, point);
    forall k | 0 <= k < |m| ensures IsDigit(m[k]) || m[k] == '.' {
      if k < |whole| {
        assert m[k] == whole[k];
      } else if k > |whole| {
        assert m[k] == frac[k - |whole| - 1];
      }
    }
  }

  /** A literal is its sign, its digits without leading zeros, the exponent after
      an `e` or an `E`, none being zero, and the digits after its point. One whose
      exponent cannot be read is not taken apart. */
  lemma {:induction false} LiteralReads(negative: bool, whole: string, frac: string, point: bool, mark: char, tail: string)
    requires AllDigits(whole) && AllDigits(frac) && whole + frac != "" && (!point ==> frac == "") && (mark == 'e' || mark == 'E')
    ensures var m, digits := (if negative then "-" else "") + Mantissa(whole, frac, point), Trimmed(whole + frac);
            && TakeApart(m) == Some(Parts(negative, digits, 0, |frac|))
            && TakeApart(m + [mark] + tail) ==
               if Atoi(tail).None? then None else Some(Parts(negative, digits, Atoi(tail).value, |frac|))
  {
    var m := Mantissa(whole, frac, point);
    assert Sign(negative) == if negative then "-" else "";
    hide TakeApart, FromMantissa, Trimmed, Atoi, Digital, Mantissa, AllDigits, Sign;
    MantissaDigital(whole, frac, point);
    TakesApartPlain(negative, m);
    TakesApartMarked(negative, m, mark, tail);
    MantissaTaken(negative, whole, frac, point, 0);
    if Atoi(tail).Some? {
      MantissaTaken(negative, whole, frac, point, Atoi(tail).value);
    }
  }

  /** An exponent reads with a plus, a minus or no sign, within an int. */
  lemma {:induction false} ExponentReads(n: int)
    requires 0 <= n <= MAX_INT
    ensures Atoi(Digits(n)) == Some(n) && Atoi("+" + Digits(n)) == Some(n) && Atoi("-" + Digits(n)) == Some(-n)
  {
    AtoiUnsigned(n);
    AtoiSigned(n);
    hide Atoi, Digits;
  }

  lemma {:induction false} LeadingZero(s: string)
    requires AllDigits(s)
    ensures AllDigits("0" + s) && Value("0" + s) == Value(s)
  {
    var t := "0" + s;
    if s == "" {
      assert t == "0" && "0"[..0] == "";
    } else {
      var front := s[..|s| - 1];
      LeadingZero(front);
      assert t[..|t| - 1] == "0" + front && t[|t| - 1] == s[|s| - 1];
    }
  }

  /** Dropping leading zeros keeps the number and leaves none but a lone zero. */
  lemma {:induction false} TrimmedKeepsValue(digits: string)
    requires AllDigits(digits)
    ensures Coefficient(Trimmed(digits)) && Value(Trimmed(digits)) == Value(digits)
  {
    if digits == "" {
      assert "0"[..0] == "";
    } else if digits[0] == '0' {
      assert digits == "0" + digits[1..];
      LeadingZero(digits[1..]);
      TrimmedKeepsValue(digits[1..]);
      hide Value;
    }
  }

  /** What cannot be taken apart is returned as it is. */
  lemma {:induction false} OthersUnchanged(literal: string)
    requires |literal| <= MAX_INT && TakeApart(literal).None?
    ensures Scientific(literal) == literal
  {
    hide TakeApart;
  }

  predicate Alien(c: char) { !IsDigit(c) && c !in {'-', '+', '.', 'e', 'E'} }

  lemma {:induction false} RestNotTaken(negative: bool, rest: string, i: nat)
    requires i < |rest| && Alien(rest[i])
    ensures var cut := ExponentAt(rest);
            if cut < 0 then FromMantissa(negative, rest, 0).None?
            else Atoi(rest[cut + 1..]).None? || forall n :: FromMantissa(negative, rest[..cut], n).None?
  {
    var cut := ExponentAt(rest);
    hide ExponentAt, FromMantissa, Atoi;
    if cut < 0 {
      NoMantissa(negative, rest, 0, i);
    } else if i < cut {
      assert rest[..cut][i] == rest[i];
      forall n ensures FromMantissa(negative, rest[..cut], n).None? {
        NoMantissa(negative, rest[..cut], n, i);
      }
    } else {
      assert rest[cut + 1..][i - cut - 1] == rest[i];
      NoExponent(rest[cut + 1..], i - cut - 1);
    }
  }

  /** Text with a character no literal has is not taken apart. */
  lemma {:induction false} NotALiteral(literal: string, k: nat)
    requires k < |literal| && Alien(literal[k])
    ensures TakeApart(literal).None?
  {
    var negative := literal[0] == '-';
    RestNotTaken(negative, if negative then literal[1..] else literal, if negative then k - 1 else k);
    hide FromMantissa, Atoi, ExponentAt, Alien;
  }

  lemma {:induction false} NoExponent(s: string, k: nat)
    requires k < |s| && !IsDigit(s[k]) && s[k] != '-' && s[k] != '+'
    ensures Atoi(s).None?
  {
    if s[0] == '-' || s[0] == '+' {
      assert s[1..][k - 1] == s[k];
    }
    hide Value;
  }

  lemma {:induction false} NoMantissa(negative: bool, mantissa: string, written: int, k: nat)
    requires k < |mantissa| && !IsDigit(mantissa[k]) && mantissa[k] != '.'
    ensures FromMantissa(negative, mantissa, written).None?
  {
    var point := IndexOf(mantissa, '.');
    hide IndexOf, Trimmed;
    if point >= 0 {
      assert point != k;
      var digits := mantissa[..point] + mantissa[point + 1..];
      assert digits[if k < point then k else k - 1] == mantissa[k];
    }
  }
}
