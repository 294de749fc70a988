/**
 Rewriting a decimal literal in the to-scientific-string form of the General
 Decimal Arithmetic specification, as text and on Go's wrapping integers.
 */
module Decimal {
  import opened Text

  /* ---- reading a literal ---- */

  /** strconv.Atoi: an optional sign, digits and nothing else, in range. */
  function Atoi(s: string): Option<Int> {
    var signed := s != "" && (s[0] == '-' || s[0] == '+');
    var body := if signed then s[1..] else s;
    if body == "" || !AllDigits(body) then None
    else
      var n: int := if signed && s[0] == '-' then -(Value(body) as int) else Value(body);
      if MIN_INT <= n <= MAX_INT then Some(n) else None
  }

  predicate IsExponentMark(c: char) { c == 'e' || c == 'E' }

  function ExponentAt(s: string): (i: int)
    ensures -1 <= i < |s|
    ensures i >= 0 ==> IsExponentMark(s[i])
    ensures forall j :: 0 <= j < (if i < 0 then |s| else i) ==> !IsExponentMark(s[j])
  {
    if s == "" then -1
    else if IsExponentMark(s[0]) then 0
    else
      var k := ExponentAt(s[1..]);
      assert forall j :: 1 <= j < |s| ==> s[j] == s[1..][j - 1];
      if k < 0 then -1 else k + 1
  }

  /** Digits without their leading zeros, a zero keeping one. */
  function Trimmed(digits: string): (t: string)
    ensures t != "" && (AllDigits(digits) ==> Coefficient(t))
  {
    if digits == "" then "0"
    else if digits[0] == '0' then
      assert AllDigits(digits) ==> AllDigits(digits[1..]);
      Trimmed(digits[1..])
    else digits
  }

  predicate Coefficient(t: string) { t != "" && AllDigits(t) && (t[0] == '0' ==> t == "0") }

  /** A literal taken apart: its sign, its coefficient, the exponent it writes
      and the digits after its point. */
  datatype Parts = Parts(negative: bool, digits: string, written: int, fraction: nat)

  function TakeApart(literal: string): Option<Parts> {
    var negative := literal != "" && literal[0] == '-';
    var rest := if negative then literal[1..] else literal;
    var cut := ExponentAt(rest);
    if cut < 0 then FromMantissa(negative, rest, 0)
    else
      var written := Atoi(rest[cut + 1..]);
      if written.None? then None else FromMantissa(negative, rest[..cut], written.value)
  }

  function FromMantissa(negative: bool, mantissa: string, written: int): Option<Parts> {
    var point := IndexOf(mantissa, '.');
    var digits := if point >= 0 then mantissa[..point] + mantissa[point + 1..] else mantissa;
    if digits == "" || !AllDigits(digits) then None
    else Some(Parts(negative, Trimmed(digits), written, if point >= 0 then |mantissa| - point - 1 else 0))
  }

  /** The number a literal writes. */
  datatype Number = Number(negative: bool, coefficient: string, exponent: int)

  function Exact(p: Parts): Number { Number(p.negative, p.digits, p.written - p.fraction) }

  function Adjusted(n: Number): int { n.exponent + |n.coefficient| - 1 }

  /* ---- writing it back ---- */

  function Sign(negative: bool): string { if negative then "-" else "" }

  function Zeros(n: nat): string { seq(n, _ => '0') }

  function Plain(digits: string, exponent: int): string
    requires digits != "" && exponent <= 0
  {
    var point := |digits| + exponent;
    if exponent == 0 then digits
    else if point > 0 then digits[..point] + "." + digits[point..]
    else "0." + Zeros(-point) + digits
  }

  function OnePoint(digits: string): string
    requires digits != ""
  {
    digits[..1] + if |digits| > 1 then "." + digits[1..] else ""
  }

  function Negated(x: Int): Int { Wrap(-(x as int)) }

  function ExponentText(adjusted: Int): string {
    if adjusted < 0 then "-" + Itoa(Negated(adjusted)) else "+" + Itoa(adjusted)
  }

  /** The text written for a coefficient and an exponent. */
  function Written(negative: bool, digits: string, exponent: Int): string
    requires 0 < |digits| <= MAX_INT
  {
    var adjusted := Wrap(exponent + |digits| - 1);
    if exponent > 0 || adjusted < -6 then Sign(negative) + OnePoint(digits) + "E" + ExponentText(adjusted)
    else Sign(negative) + Plain(digits, exponent)
  }

  lemma {:induction false} TrimmedShorter(digits: string)
    ensures |Trimmed(digits)| <= |digits| || |Trimmed(digits)| == 1
  {
    if digits != "" && digits[0] == '0' {
      TrimmedShorter(digits[1..]);
    }
  }

  lemma {:induction false} MantissaFits(negative: bool, mantissa: string, written: int)
    requires FromMantissa(negative, mantissa, written).Some?
    ensures var p := FromMantissa(negative, mantissa, written).value;
            && p.written == written && Coefficient(p.digits) && |p.digits| <= |mantissa| && p.fraction < |mantissa|
            && (p.fraction > 0 ==> |p.digits| < |mantissa|)
  {
    var point := IndexOf(mantissa, '.');
    TrimmedShorter(if point >= 0 then mantissa[..point] + mantissa[point + 1..] else mantissa);
    hide Trimmed, IndexOf;
  }

  lemma {:induction false} AtoiFits(s: string)
    requires Atoi(s).Some?
    ensures Atoi(s).value < 0 ==> |s| >= 2
  {
  }

  /** What a literal's length says about its parts. */
  lemma {:induction false} PartsFit(literal: string)
    requires TakeApart(literal).Some?
    ensures var p := TakeApart(literal).value;
            && Coefficient(p.digits) && |p.digits| <= |literal| && p.fraction < |literal|
            && MIN_INT <= p.written <= MAX_INT
            && (p.written < 0 && p.fraction > 0 ==> |p.digits| + 4 <= |literal|)
  {
    var negative := literal != "" && literal[0] == '-';
    var rest := if negative then literal[1..] else literal;
    var cut := ExponentAt(rest);
    hide FromMantissa, Coefficient, Atoi, ExponentAt, IsExponentMark;
    assert |rest| <= |literal|;
    if cut < 0 {
      assert TakeApart(literal) == FromMantissa(negative, rest, 0);
      hide TakeApart;
      MantissaFits(negative, rest, 0);
    } else {
      var mantissa, tail := rest[..cut], rest[cut + 1..];
      assert |mantissa| == cut && |tail| == |rest| - cut - 1;
      assert TakeApart(literal) == FromMantissa(negative, mantissa, Atoi(tail).value);
      hide TakeApart;
      AtoiFits(tail);
      MantissaFits(negative, mantissa, Atoi(tail).value);
    }
  }

  function Scientific(literal: string): string
    requires |literal| <= MAX_INT
  {
    match TakeApart(literal)
    case None => literal
    case Some(p) =>
      PartsFit(literal);
      Written(p.negative, p.digits, Wrap(p.written - p.fraction))
  }

  /* ---- reading back what was written ---- */

  lemma {:induction false} AtoiSigned(n: int)
    requires n >= 0
    ensures n <= MAX_INT ==> Atoi("+" + Digits(n)) == Some(n)
    ensures -n >= MIN_INT ==> Atoi("-" + Digits(n)) == Some(-n)
    ensures Atoi("--" + Digits(n)) == None
  {
    assert ("+" + Digits(n))[1..] == Digits(n);
    assert ("-" + Digits(n))[1..] == Digits(n);
    assert ("--" + Digits(n))[1..] == "-" + Digits(n);
    assert !IsDigit(("-" + Digits(n))[0]);
    hide Digits, Value;
  }

  lemma {:induction false} TwoDashes(text: string)
    ensures "-" + ("-" + text) == "--" + text
  {
  }

  lemma {:induction false} ExponentTextReads(adjusted: Int)
    ensures Atoi(ExponentText(adjusted)) == if adjusted == MIN_INT then None else Some(adjusted)
  {
    hide Atoi, Digits;
    AtoiSigned(Abs(adjusted));
    if adjusted == MIN_INT {
      assert Negated(adjusted) == MIN_INT;
      TwoDashes(Digits(-MIN_INT));
    }
  }

  lemma {:induction false} ExponentAtIs(s: string, i: int)
    requires -1 <= i < |s| && (i >= 0 ==> IsExponentMark(s[i]))
    requires forall j :: 0 <= j < (if i < 0 then |s| else i) ==> !IsExponentMark(s[j])
    ensures ExponentAt(s) == i
  {
  }

  predicate Digital(s: string) { forall k :: 0 <= k < |s| ==> IsDigit(s[k]) || s[k] == '.' }

  lemma {:induction false} NoSign(negative: bool, mantissa: string, tail: string)
    requires mantissa != "" && mantissa[0] != '-'
    ensures var s := Sign(negative) + mantissa + tail;
            && (negative <==> s != "" && s[0] == '-')
            && (if negative then s[1..] else s) == mantissa + tail
  {
    assert (Sign(negative) + mantissa + tail)[|Sign(negative)|] == mantissa[0];
  }

  lemma {:induction false} TakesApart(negative: bool, mantissa: string, tail: string)
    requires mantissa != "" && Digital(mantissa)
    ensures TakeApart(Sign(negative) + mantissa) == FromMantissa(negative, mantissa, 0)
    ensures TakeApart(Sign(negative) + mantissa + "E" + tail) ==
            if Atoi(tail).None? then None else FromMantissa(negative, mantissa, Atoi(tail).value)
  {
    TakesApartPlain(negative, mantissa);
    TakesApartMarked(negative, mantissa, 'E', tail);
  }

  lemma {:induction false} TakesApartPlain(negative: bool, mantissa: string)
    requires mantissa != "" && Digital(mantissa)
    ensures TakeApart(Sign(negative) + mantissa) == FromMantissa(negative, mantissa, 0)
  {
    ExponentAtIs(mantissa, -1);
    hide FromMantissa, Atoi, ExponentAt, Sign;
    NoSign(negative, mantissa, "");
    assert Sign(negative) + mantissa + "" == Sign(negative) + mantissa && mantissa + "" == mantissa;
  }

  lemma {:induction false} MarkedParts(front: string, mantissa: string, mark: char, tail: string)
    ensures front + mantissa + [mark] + tail == front + mantissa + ([mark] + tail)
    ensures var rest := mantissa + ([mark] + tail);
            |mantissa| < |rest| && rest[..|mantissa|] == mantissa && rest[|mantissa| + 1..] == tail && rest[|mantissa|] == mark
  {
  }

  lemma {:induction false} TakesApartMarked(negative: bool, mantissa: string, mark: char, tail: string)
    requires mantissa != "" && Digital(mantissa) && (mark == 'e' || mark == 'E')
    ensures TakeApart(Sign(negative) + mantissa + [mark] + tail) ==
            if Atoi(tail).None? then None else FromMantissa(negative, mantissa, Atoi(tail).value)
  {
    var rest := mantissa + ([mark] + tail);
    MarkedParts(Sign(negative), mantissa, mark, tail);
    ExponentAtIs(rest, |mantissa|);
    NoSign(negative, mantissa, [mark] + tail);
    hide FromMantissa, Atoi, ExponentAt, Sign, Digital;
  }

  lemma {:induction false} PointIs(whole: string, frac: string)
    requires AllDigits(whole)
    ensures IndexOf(whole + "." + frac, '.') == |whole| && IndexOf(whole, '.') == -1
  {
    var s := whole + "." + frac;
    var i := IndexOf(s, '.');
    assert s[|whole|] == '.';
    assert forall j :: 0 <= j < |whole| ==> s[j] == whole[j];
    hide IndexOf;
  }

  lemma {:induction false} MantissaReads(negative: bool, whole: string, frac: string, written: int)
    requires AllDigits(whole) && AllDigits(frac) && whole != ""
    ensures FromMantissa(negative, whole, written) == Some(Parts(negative, Trimmed(whole), written, 0))
    ensures FromMantissa(negative, whole + "." + frac, written) == Some(Parts(negative, Trimmed(whole + frac), written, |frac|))
  {
    PointIs(whole, frac);
    var s := whole + "." + frac;
    assert s[..|whole|] == whole && s[|whole| + 1..] == frac;
    hide Trimmed, IndexOf;
  }

  lemma {:induction false} TrimmedIs(t: string, n: nat)
    requires Coefficient(t)
    ensures Trimmed(t) == t && Trimmed(Zeros(n) + t) == t
  {
    if n == 0 {
      assert Zeros(0) + t == t;
      if t == "0" {
        assert t[1..] == "";
      }
    } else {
      TrimmedIs(t, n - 1);
      assert (Zeros(n) + t)[1..] == Zeros(n - 1) + t;
    }
  }

  lemma {:induction false} FractionReads(negative: bool, whole: string, frac: string)
    requires AllDigits(whole) && AllDigits(frac) && whole != ""
    ensures Digital(whole + "." + frac)
    ensures TakeApart(Sign(negative) + (whole + "." + frac)) == Some(Parts(negative, Trimmed(whole + frac), 0, |frac|))
  {
    TakesApart(negative, whole + "." + frac, "");
    MantissaReads(negative, whole, frac, 0);
    hide TakeApart, FromMantissa, Trimmed;
  }

  lemma {:induction false} WholeReads(negative: bool, whole: string)
    requires AllDigits(whole) && whole != ""
    ensures TakeApart(Sign(negative) + whole) == Some(Parts(negative, Trimmed(whole), 0, 0))
  {
    TakesApart(negative, whole, "");
    MantissaReads(negative, whole, "", 0);
    hide TakeApart, FromMantissa, Trimmed;
  }

  lemma {:induction false} LeadingZeros(digits: string, n: nat)
    requires Coefficient(digits)
    ensures "0" + (Zeros(n) + digits) == Zeros(n + 1) + digits && "0." + Zeros(n) + digits == "0" + "." + (Zeros(n) + digits)
    ensures AllDigits(Zeros(n) + digits)
    ensures Trimmed("0" + (Zeros(n) + digits)) == digits
  {
    TrimmedIs(digits, n + 1);
    assert "0" + (Zeros(n) + digits) == Zeros(n + 1) + digits;
    hide Trimmed;
  }

  lemma {:induction false} PlainReads(negative: bool, digits: string, exponent: int)
    requires Coefficient(digits) && exponent <= 0
    ensures TakeApart(Sign(negative) + Plain(digits, exponent)) == Some(Parts(negative, digits, 0, -exponent))
  {
    hide TakeApart, Trimmed, Zeros, Sign, Digital;
    var point := |digits| + exponent;
    TrimmedIs(digits, 0);
    if exponent == 0 {
      WholeReads(negative, digits);
    } else if point > 0 {
      FractionReads(negative, digits[..point], digits[point..]);
      assert digits[..point] + digits[point..] == digits;
    } else {
      LeadingZeros(digits, -point);
      ZerosLength(-point);
      FractionReads(negative, "0", Zeros(-point) + digits);
    }
  }

  lemma {:induction false} ZerosLength(n: nat)
    ensures |Zeros(n)| == n
  {
  }

  lemma {:induction false} OnePointReads(negative: bool, digits: string, written: int)
    requires Coefficient(digits)
    ensures OnePoint(digits) != "" && Digital(OnePoint(digits))
    ensures FromMantissa(negative, OnePoint(digits), written) == Some(Parts(negative, digits, written, |digits| - 1))
  {
    hide FromMantissa, Trimmed;
    TrimmedIs(digits, 0);
    assert digits[..1] + digits[1..] == digits;
    if |digits| == 1 {
      assert OnePoint(digits) == digits;
      MantissaReads(negative, digits, "", written);
    } else {
      assert OnePoint(digits) == digits[..1] + "." + digits[1..];
      MantissaReads(negative, digits[..1], digits[1..], written);
    }
  }

  /** Reading back what was written for a coefficient and an exponent. */
  lemma {:induction false} WrittenReads(negative: bool, digits: string, exponent: Int)
    requires Coefficient(digits) && |digits| <= MAX_INT
    ensures var adjusted := Wrap(exponent + |digits| - 1);
            TakeApart(Written(negative, digits, exponent)) ==
            if exponent <= 0 && adjusted >= -6 then Some(Parts(negative, digits, 0, -(exponent as int)))
            else if adjusted == MIN_INT then None
            else Some(Parts(negative, digits, adjusted, |digits| - 1))
  {
    var adjusted := Wrap(exponent + |digits| - 1);
    hide TakeApart, FromMantissa, OnePoint, Plain, Coefficient;
    if exponent <= 0 && adjusted >= -6 {
      PlainReads(negative, digits, exponent);
    } else {
      var tail := ExponentText(adjusted);
      OnePointReads(negative, digits, adjusted);
      TakesApart(negative, OnePoint(digits), tail);
      ExponentTextReads(adjusted);
      hide ExponentText, Sign;
      assert Written(negative, digits, exponent) == Sign(negative) + OnePoint(digits) + "E" + tail;
    }
  }

  /* ---- the theorems ---- */

  lemma {:induction false} WrapsBack(exponent: Int, n: nat)
    requires n <= MAX_INT
    ensures Wrap(Wrap(exponent + n) - n) == exponent
  {
  }

  /** Writing a literal twice is writing it once, whatever the literal. */
  lemma {:induction false} ScientificTwice(literal: string)
    requires |literal| <= MAX_INT && |Scientific(literal)| <= MAX_INT
    ensures Scientific(Scientific(literal)) == Scientific(literal)
  {
    hide TakeApart, Written, AllDigits;
    var taken := TakeApart(literal);
    if taken.Some? {
      PartsFit(literal);
      var p := taken.value;
      var exponent := Wrap(p.written - p.fraction);
      WrittenReads(p.negative, p.digits, exponent);
      WrapsBack(exponent, |p.digits| - 1);
    }
  }

  /** The exponent of a to-scientific-string form. */
  function ExponentPart(adjusted: int): string { (if adjusted < 0 then "-" else "+") + Digits(Abs(adjusted)) }

  /** The number's to-scientific-string form, on unbounded exponents. */
  function ToScientificString(n: Number): string
    requires Coefficient(n.coefficient)
  {
    if n.exponent <= 0 && Adjusted(n) >= -6 then Sign(n.negative) + Plain(n.coefficient, n.exponent)
    else Sign(n.negative) + OnePoint(n.coefficient) + "E" + ExponentPart(Adjusted(n))
  }

  predicate InRange(n: Number) { MIN_INT < Adjusted(n) <= MAX_INT }

  lemma {:induction false} ExponentTextIs(adjusted: Int)
    requires adjusted != MIN_INT
    ensures ExponentText(adjusted) == ExponentPart(adjusted)
  {
  }

  /** In range, what is written is the to-scientific-string form. */
  lemma {:induction false} WritesScientificString(literal: string)
    requires |literal| <= MAX_INT && TakeApart(literal).Some? && InRange(Exact(TakeApart(literal).value))
    ensures Scientific(literal) == ToScientificString(Exact(TakeApart(literal).value))
  {
    hide TakeApart, Plain, OnePoint, Coefficient, ExponentText, ExponentPart, Sign;
    PartsFit(literal);
    var p := TakeApart(literal).value;
    var n := Exact(p);
    var exponent := Wrap(p.written - p.fraction);
    assert Wrap(exponent + |p.digits| - 1) == Adjusted(n);
    ExponentTextIs(Adjusted(n));
    if n.exponent < MIN_INT {
      assert exponent > 0 && Adjusted(n) < -6;
    }
  }

  lemma {:induction false} SignsDiffer(a: string, b: string)
    ensures "-" + a != "+" + b
  {
    assert ("-" + a)[0] == '-' && ("+" + b)[0] == '+';
  }

  lemma {:induction false} LeastDiffers(n: nat)
    ensures "-" + Itoa(MIN_INT) != "-" + Digits(n)
  {
    var digits := Digits(n);
    assert digits != "" && IsDigit(digits[0]);
    hide Digits;
    assert Itoa(MIN_INT) == "-" + Digits(-MIN_INT);
    assert ("-" + Itoa(MIN_INT))[1] == '-' && ("-" + digits)[1] == digits[0];
  }

  lemma {:induction false} OutOfRangeText(adjusted: int)
    requires 2 * MIN_INT <= adjusted <= 2 * MAX_INT + 1 && !(MIN_INT < adjusted <= MAX_INT)
    ensures ExponentText(Wrap(adjusted)) != ExponentPart(adjusted)
  {
    hide Digits, Itoa;
    var text := Digits(Abs(adjusted));
    if adjusted == MIN_INT {
      LeastDiffers(Abs(adjusted));
    } else if adjusted < 0 {
      SignsDiffer(text, Itoa(Wrap(adjusted)));
    } else {
      SignsDiffer(Itoa(Negated(Wrap(adjusted))), text);
    }
  }

  lemma {:induction false} DifferAfter(front: string, a: string, b: string)
    requires a != b
    ensures front + a != front + b
  {
    assert (front + a)[|front|..] == a && (front + b)[|front|..] == b;
  }

  lemma {:induction false} OutOfRangeWraps(exact: int, length: nat)
    requires 0 < length <= MAX_INT && MIN_INT - MAX_INT < exact <= MAX_INT
    requires !(MIN_INT < exact + length - 1 <= MAX_INT)
    ensures 2 * MIN_INT <= exact + length - 1 <= 2 * MAX_INT + 1
    ensures Wrap(Wrap(exact) + length - 1) == Wrap(exact + length - 1)
    ensures Wrap(exact) > 0 || Wrap(exact + length - 1) < -6
  {
  }

  lemma {:induction false} WrittenMarked(negative: bool, digits: string, exponent: Int, adjusted: Int)
    requires 0 < |digits| <= MAX_INT && adjusted == Wrap(exponent + |digits| - 1) && (exponent > 0 || adjusted < -6)
    ensures Written(negative, digits, exponent) == Sign(negative) + OnePoint(digits) + "E" + ExponentText(adjusted)
  {
    hide OnePoint, ExponentText, Sign, Plain, Wrap;
  }

  lemma {:induction false} FormMarked(n: Number)
    requires Coefficient(n.coefficient) && !(n.exponent <= 0 && Adjusted(n) >= -6)
    ensures ToScientificString(n) == Sign(n.negative) + OnePoint(n.coefficient) + "E" + ExponentPart(Adjusted(n))
  {
    hide Plain, OnePoint, Coefficient, Sign, Adjusted, ExponentPart;
  }

  /** Out of range, both texts use an exponent and write another one. */
  lemma {:induction false} OutOfRangeDiffers(negative: bool, digits: string, exact: int)
    requires Coefficient(digits) && |digits| <= MAX_INT && MIN_INT - MAX_INT < exact <= MAX_INT
    requires !InRange(Number(negative, digits, exact))
    ensures Written(negative, digits, Wrap(exact)) != ToScientificString(Number(negative, digits, exact))
  {
    var n, adjusted := Number(negative, digits, exact), exact + |digits| - 1;
    assert digits != "" && Adjusted(n) == adjusted && (exact > 0 || adjusted < -6);
    hide *;
    OutOfRangeWraps(exact, |digits|);
    FormMarked(n);
    WrittenMarked(negative, digits, Wrap(exact), Wrap(adjusted));
    OutOfRangeText(adjusted);
    ExponentsDiffer(negative, digits, ExponentText(Wrap(adjusted)), ExponentPart(adjusted));
  }

  lemma {:induction false} ExponentsDiffer(negative: bool, digits: string, a: string, b: string)
    requires digits != "" && a != b
    ensures Sign(negative) + OnePoint(digits) + "E" + a != Sign(negative) + OnePoint(digits) + "E" + b
  {
    hide Sign, OnePoint;
    DifferAfter(Sign(negative) + OnePoint(digits) + "E", a, b);
  }

  /** The text written is the number's to-scientific-string form exactly when the
      adjusted exponent is an int above the least one. */
  lemma {:induction false} ScientificStringExactlyWhen(literal: string)
    requires |literal| <= MAX_INT && TakeApart(literal).Some?
    ensures var n := Exact(TakeApart(literal).value);
            Scientific(literal) == ToScientificString(n) <==> InRange(n)
  {
    hide TakeApart, Written, ToScientificString, Coefficient;
    PartsFit(literal);
    var p := TakeApart(literal).value;
    if InRange(Exact(p)) {
      WritesScientificString(literal);
    } else {
      OutOfRangeDiffers(p.negative, p.digits, p.written - p.fraction);
    }
  }

  /** The number a literal writes, its coefficient's digits included, survives
      exactly when its adjusted exponent is an int above the least one. */
  lemma {:induction false} ValueKeptExactlyWhen(literal: string)
    requires |literal| <= MAX_INT && TakeApart(literal).Some?
    ensures var after, n := TakeApart(Scientific(literal)), Exact(TakeApart(literal).value);
            (after.Some? && Exact(after.value) == n) <==> InRange(n)
  {
    hide TakeApart, Written, AllDigits;
    PartsFit(literal);
    var p := TakeApart(literal).value;
    WrittenReads(p.negative, p.digits, Wrap(p.written - p.fraction));
  }

  lemma {:induction false} PlainStays(written: Int, fraction: nat, digits: nat, length: nat)
    requires 0 < digits <= length <= MAX_INT && fraction < length
    requires written < 0 && fraction > 0 ==> digits + 4 <= length
    ensures var exponent := Wrap(written - fraction);
            (exponent <= 0 && Wrap(exponent + digits - 1) >= -6) <==>
            (written - fraction <= 0 && written - fraction + digits - 1 >= -6)
  {
  }

  /** Plain notation is used exactly when the exponent is not positive and the
      adjusted exponent is at least -6. */
  lemma {:induction false} PlainExactlyWhen(literal: string)
    requires |literal| <= MAX_INT && TakeApart(literal).Some?
    ensures var n := Exact(TakeApart(literal).value);
            ExponentAt(Scientific(literal)) < 0 <==> n.exponent <= 0 && Adjusted(n) >= -6
  {
    hide TakeApart, AllDigits, Written, ExponentAt, Wrap;
    PartsFit(literal);
    var p := TakeApart(literal).value;
    PlainStays(p.written, p.fraction, |p.digits|, |literal|);
    WrittenMarks(p.negative, p.digits, Wrap(p.written - p.fraction));
  }

  lemma {:induction false} WrittenMarks(negative: bool, digits: string, exponent: Int)
    requires Coefficient(digits) && |digits| <= MAX_INT
    ensures ExponentAt(Written(negative, digits, exponent)) < 0 <==>
            exponent <= 0 && Wrap(exponent + |digits| - 1) >= -6
  {
    hide ExponentAt, OnePoint, ExponentText, Plain, AllDigits;
    var adjusted, text := Wrap(exponent + |digits| - 1), Written(negative, digits, exponent);
    if exponent <= 0 && adjusted >= -6 {
      PlainDigital(digits, exponent);
      assert forall j :: 0 <= j < |text| ==> !IsExponentMark(text[j]);
    } else {
      assert text[|Sign(negative)| + |OnePoint(digits)|] == 'E';
    }
  }

  lemma {:induction false} PlainDigital(digits: string, exponent: int)
    requires Coefficient(digits) && exponent <= 0
    ensures Digital(Plain(digits, exponent))
  {
  }

  lemma {:induction false} DigitsShort(n: nat)
    ensures |Digits(n)| <= n / 10 + 2
  {
    if n >= 10 {
      DigitsShort(n / 10);
    }
  }

  lemma {:induction false} AtoiUnsigned(n: nat)
    requires n <= MAX_INT
    ensures Atoi(Digits(n)) == Some(n)
  {
    assert IsDigit(Digits(n)[0]);
    hide Digits, Value;
  }

  lemma {:induction false} TwelveReads()
    ensures TakeApart("12E" + Digits(MAX_INT)) == Some(Parts(false, "12", MAX_INT, 0))
  {
    hide Digits, TakeApart, FromMantissa, Trimmed, Atoi;
    AtoiUnsigned(MAX_INT);
    TakesApart(false, "12", Digits(MAX_INT));
    Concatenates("12", "E", Digits(MAX_INT));
    assert "12" + "E" == "12E";
    MantissaReads(false, "12", "", MAX_INT);
    TrimmedIs("12", 0);
  }

  lemma {:induction false} TwelveWritten()
    ensures TakeApart(Written(false, "12", MAX_INT)) == None
  {
    hide TakeApart, Written;
    WrittenReads(false, "12", MAX_INT);
    assert Wrap(MAX_INT + 1) == MIN_INT;
  }

  /** A literal whose adjusted exponent wraps: twelve times ten to the largest
      int is written with an exponent that no longer reads. */
  lemma {:induction false} ExponentCanWrap()
    ensures |"12E" + Digits(MAX_INT)| <= MAX_INT
    ensures Scientific("12E" + Digits(MAX_INT)) == "1.2E-" + Itoa(MIN_INT)
    ensures TakeApart("1.2E-" + Itoa(MIN_INT)) == None
  {
    hide Digits, TakeApart, Written, Itoa;
    DigitsShort(MAX_INT);
    TwelveReads();
    TwelveWritten();
    TwelveAtMax();
  }

  lemma {:induction false} Concatenates(a: string, b: string, c: string)
    ensures Sign(false) + a + b + c == a + b + c && Sign(false) + a == a
  {
  }

  lemma {:induction false} TwelveAtMax()
    ensures Written(false, "12", MAX_INT) == "1.2E-" + Itoa(MIN_INT)
  {
    hide Digits;
    var tail := Itoa(MIN_INT);
    assert OnePoint("12") == "1.2" && ExponentText(MIN_INT) == "-" + tail;
    hide Itoa;
    assert Written(false, "12", MAX_INT) == Sign(false) + "1.2" + "E" + ("-" + tail);
    assert "1.2" + "E" + ("-" + tail) == "1.2E-" + tail;
  }
}
