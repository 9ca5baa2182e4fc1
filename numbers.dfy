/** Numbers as the application sees them: decimal digit strings, the numeric-string
    test applied to quantity values, the `Number()` conversion of such a string and
    the ECMAScript `Number::toString` rendering used whenever a number is put into
    a template literal or passed to `String()`.

    Numbers are exact decimals `mantissa * 10^exponent`; IEEE-754 rounding is not
    part of this model. */
module Numbers {
  import opened Common

  // ---------------------------------------------------------------------------
  // Digits

  predicate IsDigit(c: char) {
    '0' <= c <= '9'
  }

  predicate AllDigits(s: string) {
    forall k :: 0 <= k < |s| ==> IsDigit(s[k])
  }

  function DigitValue(c: char): nat
    requires IsDigit(c)
  {
    c as int - '0' as int
  }

  function DigitChar(d: nat): (c: char)
    requires d < 10
    ensures IsDigit(c) && DigitValue(c) == d
  {
    ('0' as int + d) as char
  }

  /** The value of a decimal digit string, most significant digit first. */
  function DigitsValue(s: string): nat
    requires AllDigits(s)
    decreases |s|
  {
    if s == [] then 0 else DigitsValue(s[..|s| - 1]) * 10 + DigitValue(s[|s| - 1])
  }

  /** The shortest decimal representation of a natural number. */
  function NatToDigits(n: nat): (r: string)
    ensures |r| >= 1 && AllDigits(r)
    ensures |r| > 1 ==> r[0] != '0'
    decreases n
  {
    if n < 10 then [DigitChar(n)] else NatToDigits(n / 10) + [DigitChar(n % 10)]
  }

  lemma {:induction false} NatToDigitsValue(n: nat)
    ensures DigitsValue(NatToDigits(n)) == n
    decreases n
  {
    if n >= 10 {
      NatToDigitsValue(n / 10);
      var s := NatToDigits(n);
      assert s[..|s| - 1] == NatToDigits(n / 10);
    }
  }

  function IntToString(i: int): string {
    if i < 0 then "-" + NatToDigits(-i) else NatToDigits(i)
  }

  function Pow10(n: nat): (r: nat)
    ensures r >= 1
  {
    if n == 0 then 1 else 10 * Pow10(n - 1)
  }

  function Zeros(n: nat): (r: string)
    ensures |r| == n && AllDigits(r)
    ensures forall k :: 0 <= k < n ==> r[k] == '0'
  {
    seq(n, _ => '0')
  }

  // ---------------------------------------------------------------------------
  // Number::toString (ECMAScript section 6.1.6.1.20) for exact decimals

  datatype Decimal = Decimal(mantissa: int, exponent: int)

  /** Removes trailing decimal zeros from the mantissa, keeping the value. */
  function StripZeros(m: nat, e: int): (r: (nat, int))
    requires m > 0
    ensures r.0 > 0 && r.0 % 10 != 0 && r.1 >= e
    ensures r.0 * Pow10(r.1 - e) == m
    decreases m
  {
    if m % 10 == 0 then
      var r := StripZeros(m / 10, e + 1);
      assert Pow10(r.1 - e) == 10 * Pow10(r.1 - (e + 1));
      r
    else (m, e)
  }

  function Abs(i: int): nat {
    if i < 0 then -i else i
  }

  /** The string form of a positive number `m * 10^e` with the digit string `s`,
      `k = |s|` significant digits and decimal point position `n`. */
  function PositiveToString(m: nat, e: int): (r: string)
    requires m > 0
  {
    var (d, e1) := StripZeros(m, e);
    var s := NatToDigits(d);
    var k := |s|;
    var n := k + e1;
    if k <= n <= 21 then s + Zeros(n - k)
    else if 0 < n <= 21 then s[..n] + "." + s[n..]
    else if -6 < n <= 0 then "0." + Zeros(-n) + s
    else
      var expPart := "e" + (if n - 1 >= 0 then "+" else "-") + NatToDigits(Abs(n - 1));
      if k == 1 then s + expPart else [s[0]] + "." + s[1..] + expPart
  }

  /** `String(x)` for the number `x.mantissa * 10^x.exponent`. */
  function NumberToString(x: Decimal): string {
    if x.mantissa == 0 then "0"
    else if x.mantissa < 0 then "-" + PositiveToString(-x.mantissa, x.exponent)
    else PositiveToString(x.mantissa, x.exponent)
  }

  lemma {:induction false} AppendZeroDigit(m: nat)
    requires m >= 1
    ensures NatToDigits(m * 10) == NatToDigits(m) + ['0']
  {
    var n := m * 10;
    assert n >= 10 && n / 10 == m && n % 10 == 0;
  }

  lemma {:induction false} NatToDigitsShift(d: nat, t: nat)
    requires d > 0
    ensures NatToDigits(d * Pow10(t)) == NatToDigits(d) + Zeros(t)
    decreases t
  {
    if t > 0 {
      var m := d * Pow10(t - 1);
      NatToDigitsShift(d, t - 1);
      calc {
        d * Pow10(t);
        d * (10 * Pow10(t - 1));
        { MulAssoc(d, 10, Pow10(t - 1)); }
        m * 10;
      }
      assert m >= 1 by { MulPositive(d, Pow10(t - 1)); }
      AppendZeroDigit(m);
      assert Zeros(t) == Zeros(t - 1) + ['0'];
    }
  }

  lemma MulAssoc(a: int, b: int, c: int)
    ensures a * (b * c) == (a * c) * b
  {
  }

  lemma MulPositive(a: int, b: int)
    requires a >= 1 && b >= 1
    ensures a * b >= 1
  {
  }

  lemma {:induction false} NatToDigitsLength(m: nat, k: nat)
    requires m < Pow10(k)
    ensures |NatToDigits(m)| <= k || (m == 0 && k == 0)
    decreases k
  {
    if m >= 10 {
      NatToDigitsLength(m / 10, k - 1);
    }
  }

  /** An integer below 10^21 in magnitude is written as its plain decimal digits,
      as `String()` does for the integers FHIR stores in `valueInteger`. */
  lemma {:induction false} IntegerToString(i: int)
    requires Abs(i) < Pow10(21)
    ensures NumberToString(Decimal(i, 0)) == IntToString(i)
  {
    if i != 0 {
      PositiveIntegerToString(Abs(i));
      SignedIntegerToString(Abs(i));
    } else {
      ZeroDigits();
    }
  }

  lemma ZeroDigits()
    ensures NatToDigits(0) == "0"
  {
    assert DigitChar(0) == '0';
  }

  lemma SignedIntegerToString(m: nat)
    requires 0 < m < Pow10(21)
    requires PositiveToString(m, 0) == NatToDigits(m)
    ensures NumberToString(Decimal(m, 0)) == NatToDigits(m)
    ensures NumberToString(Decimal(-(m as int), 0)) == "-" + NatToDigits(m)
  {
  }

  lemma PositiveIntegerToString(m: nat)
    requires 0 < m < Pow10(21)
    ensures PositiveToString(m, 0) == NatToDigits(m)
  {
    var (d, t) := StripZeros(m, 0);
    NatToDigitsShift(d, t);
    NatToDigitsLength(m, 21);
    var s := NatToDigits(d);
    assert |s| <= |s| + t <= 21;
  }

  // ---------------------------------------------------------------------------
  // The numeric-string grammar  -?\d+(?:[.,]\d+)?(?:[eE][+-]?\d+)?

  datatype ExpPart = ExpPart(marker: char, sign: Option<char>, digits: string)

  /** A numeric string split into its parts; `fraction` holds the decimal mark
      ('.' or ',') and the digits after it. */
  datatype NumLexeme = NumLexeme(negative: bool, whole: string, fraction: Option<(char, string)>, exp: Option<ExpPart>)

  predicate WellFormed(x: NumLexeme) {
    x.whole != [] && AllDigits(x.whole) && FractionOk(x.fraction) && ExponentOk(x.exp)
  }

  function RenderFraction(f: Option<(char, string)>): string {
    if f.Some? then [f.value.0] + f.value.1 else ""
  }

  function RenderExponent(x: Option<ExpPart>): string {
    if x.Some? then [x.value.marker] + (if x.value.sign.Some? then [x.value.sign.value] else "") + x.value.digits
    else ""
  }

  /** The text of a lexeme. */
  function Render(x: NumLexeme): string {
    (if x.negative then "-" else "") + x.whole + RenderFraction(x.fraction) + RenderExponent(x.exp)
  }

  /** Length of the longest prefix of `t` made of digits. */
  function DigitRun(t: string): (n: nat)
    ensures n <= |t| && AllDigits(t[..n])
    ensures n < |t| ==> !IsDigit(t[n])
    decreases |t|
  {
    if |t| > 0 && IsDigit(t[0]) then
      var n := 1 + DigitRun(t[1..]);
      assert forall k :: 1 <= k < n ==> t[..n][k] == t[1..][..n - 1][k - 1];
      n
    else 0
  }

  function LexFraction(s: string): (Option<(char, string)>, string) {
    if |s| >= 2 && (s[0] == '.' || s[0] == ',') && IsDigit(s[1]) then
      var f := DigitRun(s[1..]);
      (Some((s[0], s[1..][..f])), s[1..][f..])
    else (None, s)
  }

  function LexExponent(s: string): (Option<ExpPart>, string) {
    if |s| >= 1 && (s[0] == 'e' || s[0] == 'E') then
      var u := s[1..];
      var sign := if |u| > 0 && (u[0] == '+' || u[0] == '-') then Some(u[0]) else None;
      var v := if sign.Some? then u[1..] else u;
      var d := DigitRun(v);
      if d > 0 then (Some(ExpPart(s[0], sign, v[..d])), v[d..]) else (None, s)
    else (None, s)
  }

  predicate FractionOk(f: Option<(char, string)>) {
    f.Some? ==> (f.value.0 == '.' || f.value.0 == ',') && f.value.1 != [] && AllDigits(f.value.1)
  }

  predicate ExponentOk(x: Option<ExpPart>) {
    x.Some? ==>
      (x.value.marker == 'e' || x.value.marker == 'E')
      && (x.value.sign.Some? ==> x.value.sign.value == '+' || x.value.sign.value == '-')
      && x.value.digits != [] && AllDigits(x.value.digits)
  }

  /** Recognises what follows the integer digits: the optional fraction, the
      optional exponent and then the end of the string. */
  function LexTail(s: string): Option<(Option<(char, string)>, Option<ExpPart>)> {
    var fr := LexFraction(s);
    var ex := LexExponent(fr.1);
    if ex.1 == [] then Some((fr.0, ex.0)) else None
  }

  /** Recognises the part after an optional '-'. */
  function LexUnsigned(t: string): Option<NumLexeme> {
    var w := DigitRun(t);
    if w == 0 then None
    else
      var tail := LexTail(t[w..]);
      if tail.Some? then Some(NumLexeme(false, t[..w], tail.value.0, tail.value.1)) else None
  }

  /** Recognises the whole string against the grammar (the regular expression is
      deterministic, so one left-to-right scan decides it). */
  function Lex(s: string): Option<NumLexeme> {
    if |s| > 0 && s[0] == '-' then
      var u := LexUnsigned(s[1..]);
      if u.Some? then Some(u.value.(negative := true)) else None
    else LexUnsigned(s)
  }

  lemma {:induction false} DigitRunConcat(a: string, b: string)
    requires AllDigits(a)
    requires b == [] || !IsDigit(b[0])
    ensures DigitRun(a + b) == |a|
    decreases |a|
  {
    if a != [] {
      assert (a + b)[1..] == a[1..] + b;
      DigitRunConcat(a[1..], b);
    }
  }

  lemma {:induction false} LexExponentRender(x: Option<ExpPart>)
    requires ExponentOk(x)
    ensures LexExponent(RenderExponent(x)) == (x, "")
  {
    if x.Some? {
      var s := RenderExponent(x);
      var dg := x.value.digits;
      var v := if x.value.sign.Some? then s[2..] else s[1..];
      assert v == dg + "";
      DigitRunConcat(dg, "");
      assert v[..|dg|] == dg;
    }
  }

  lemma {:induction false} LexExponentSound(s: string)
    ensures ExponentOk(LexExponent(s).0)
    ensures s == RenderExponent(LexExponent(s).0) + LexExponent(s).1
  {
    if |s| >= 1 && (s[0] == 'e' || s[0] == 'E') {
      var u := s[1..];
      var sign := if |u| > 0 && (u[0] == '+' || u[0] == '-') then Some(u[0]) else None;
      var v := if sign.Some? then u[1..] else u;
      var d := DigitRun(v);
      if d > 0 {
        assert LexExponent(s) == (Some(ExpPart(s[0], sign, v[..d])), v[d..]);
        assert s == [s[0]] + SignText(sign) + v by {
          if sign.Some? { assert u == [u[0]] + v; }
        }
        ExponentSplit(s[0], sign, v, d);
      }
    }
  }

  function SignText(sign: Option<char>): string {
    if sign.Some? then [sign.value] else ""
  }

  lemma ExponentSplit(m: char, sign: Option<char>, v: string, d: nat)
    requires d <= |v|
    ensures RenderExponent(Some(ExpPart(m, sign, v[..d]))) + v[d..] == [m] + SignText(sign) + v
  {
    assert v == v[..d] + v[d..];
  }

  lemma {:induction false} LexFractionRender(f: Option<(char, string)>, rest: string)
    requires FractionOk(f)
    requires rest == [] || !IsDigit(rest[0])
    requires f.None? ==> rest == [] || !(rest[0] == '.' || rest[0] == ',')
    ensures LexFraction(RenderFraction(f) + rest) == (f, rest)
  {
    if f.Some? {
      var mark := f.value.0;
      var fd := f.value.1;
      var s := RenderFraction(f) + rest;
      assert s == [mark] + (fd + rest);
      assert s[1..] == fd + rest;
      assert IsDigit(s[1]) by { assert s[1] == fd[0]; }
      DigitRunConcat(fd, rest);
      var n := DigitRun(s[1..]);
      assert n == |fd|;
      assert s[1..][..n] == fd;
      assert s[1..][n..] == rest;
      assert LexFraction(s) == (Some((mark, fd)), rest);
      assert f.value == (mark, fd);
    } else {
      assert RenderFraction(f) + rest == rest;
    }
  }

  lemma {:induction false} LexFractionSound(s: string)
    ensures FractionOk(LexFraction(s).0)
    ensures s == RenderFraction(LexFraction(s).0) + LexFraction(s).1
  {
    if |s| >= 2 && (s[0] == '.' || s[0] == ',') && IsDigit(s[1]) {
      var t := s[1..];
      var f := DigitRun(t);
      var digits, rest := t[..f], t[f..];
      assert LexFraction(s) == (Some((s[0], digits)), rest);
      assert f >= 1 by { assert IsDigit(t[0]); }
      assert FractionOk(Some((s[0], digits)));
      assert t == digits + rest;
      assert RenderFraction(Some((s[0], digits))) + rest == [s[0]] + t;
      assert s == [s[0]] + t;
    }
  }

  lemma {:induction false} LexTailRender(f: Option<(char, string)>, x: Option<ExpPart>)
    requires FractionOk(f) && ExponentOk(x)
    ensures LexTail(RenderFraction(f) + RenderExponent(x)) == Some((f, x))
  {
    LexFractionRender(f, RenderExponent(x));
    LexExponentRender(x);
  }

  lemma {:induction false} LexUnsignedRender(x: NumLexeme)
    requires WellFormed(x)
    ensures LexUnsigned(RenderUnsigned(x)) == Some(x.(negative := false))
  {
    var rest := RenderFraction(x.fraction) + RenderExponent(x.exp);
    var t := x.whole + rest;
    assert t == x.whole + RenderFraction(x.fraction) + RenderExponent(x.exp);
    assert rest == [] || !IsDigit(rest[0]);
    DigitRunConcat(x.whole, rest);
    assert t[..|x.whole|] == x.whole;
    assert t[|x.whole|..] == rest;
    LexTailRender(x.fraction, x.exp);
  }

  /** The text of the unsigned part of a lexeme. */
  function RenderUnsigned(x: NumLexeme): string {
    x.whole + RenderFraction(x.fraction) + RenderExponent(x.exp)
  }

  lemma RenderSign(x: NumLexeme)
    ensures Render(x) == (if x.negative then "-" else "") + RenderUnsigned(x)
  {
  }

  lemma LexMinus(s: string)
    requires |s| > 0 && s[0] == '-'
    ensures Lex(s) == (if LexUnsigned(s[1..]).Some? then Some(LexUnsigned(s[1..]).value.(negative := true)) else None)
  {
  }

  lemma LexNoMinus(s: string)
    requires !(|s| > 0 && s[0] == '-')
    ensures Lex(s) == LexUnsigned(s)
  {
  }

  /** Rendering a well-formed lexeme and recognising it again gives it back. */
  lemma {:induction false} LexRender(x: NumLexeme)
    requires WellFormed(x)
    ensures Lex(Render(x)) == Some(x)
  {
    var t := RenderUnsigned(x);
    LexUnsignedRender(x);
    RenderSign(x);
    var r := Render(x);
    if x.negative {
      assert r[1..] == t;
      LexMinus(r);
    } else {
      assert r == t;
      assert t[0] == x.whole[0];
      LexNoMinus(r);
    }
  }

  lemma {:induction false} LexTailSound(s: string)
    requires LexTail(s).Some?
    ensures FractionOk(LexTail(s).value.0) && ExponentOk(LexTail(s).value.1)
    ensures s == RenderFraction(LexTail(s).value.0) + RenderExponent(LexTail(s).value.1)
  {
    LexFractionSound(s);
    LexExponentSound(LexFraction(s).1);
  }

  lemma {:induction false} LexUnsignedSound(t: string)
    requires LexUnsigned(t).Some?
    ensures var x := LexUnsigned(t).value;
      WellFormed(x) && !x.negative && RenderUnsigned(x) == t
  {
    var w := DigitRun(t);
    var rest := t[w..];
    LexTailSound(rest);
    assert t == t[..w] + rest;
  }

  /** Everything the recognizer accepts is well formed and is exactly its text. */
  lemma {:induction false} RenderLex(s: string)
    requires Lex(s).Some?
    ensures WellFormed(Lex(s).value) && Render(Lex(s).value) == s
  {
    if |s| > 0 && s[0] == '-' {
      LexMinus(s);
      LexUnsignedSound(s[1..]);
      RenderSign(Lex(s).value);
      assert s == "-" + s[1..];
    } else {
      LexNoMinus(s);
      LexUnsignedSound(s);
      RenderSign(Lex(s).value);
    }
  }

  /** The regular-expression test `isNumericString`, applied after `trim()`. */
  predicate IsNumericString(s: string) {
    Lex(Trim(s)).Some?
  }

  /** The grammar the test accepts, stated without the scanner. */
  lemma {:induction false} IsNumericStringGrammar(s: string)
    ensures IsNumericString(s) <==> exists x :: WellFormed(x) && Render(x) == Trim(s)
  {
    if IsNumericString(s) {
      RenderLex(Trim(s));
    }
    if exists x :: WellFormed(x) && Render(x) == Trim(s) {
      var x :| WellFormed(x) && Render(x) == Trim(s);
      LexRender(x);
    }
  }

  function FractionDigits(x: NumLexeme): string {
    if x.fraction.Some? then x.fraction.value.1 else ""
  }

  function ExponentValue(x: Option<ExpPart>): int
    requires x.Some? ==> AllDigits(x.value.digits)
  {
    if x.None? then 0
    else if x.value.sign == Some('-') then 0 - DigitsValue(x.value.digits) as int
    else DigitsValue(x.value.digits)
  }

  /** The exact value a lexeme denotes. */
  function LexemeValue(x: NumLexeme): Decimal
    requires WellFormed(x)
  {
    var fd := FractionDigits(x);
    var m: int := DigitsValue(x.whole + fd);
    Decimal(if x.negative then -m else m, ExponentValue(x.exp) - |fd|)
  }

  /** `Number(s)` for strings in the decimal-literal form with a '.' mark (after
      the whitespace trim `Number` performs). Other forms are not produced by the
      callers and yield None. */
  function StringToNumber(s: string): Option<Decimal> {
    var l := Lex(Trim(s));
    if l.Some? && (l.value.fraction.None? || l.value.fraction.value.0 == '.') then
      RenderLex(Trim(s));
      Some(LexemeValue(l.value))
    else None
  }

  /** The fraction with its decimal mark turned into '.'. */
  function DotMark(f: Option<(char, string)>): Option<(char, string)> {
    if f.Some? then Some(('.', f.value.1)) else None
  }

  lemma NoCommaInDigits(s: string)
    requires AllDigits(s)
    ensures ',' !in s
  {
  }

  lemma NoCommaInExponent(x: Option<ExpPart>)
    requires ExponentOk(x)
    ensures ',' !in RenderExponent(x)
  {
    if x.Some? {
      NoCommaInDigits(x.value.digits);
      var sg := if x.value.sign.Some? then [x.value.sign.value] else "";
      assert RenderExponent(x) == [x.value.marker] + sg + x.value.digits;
    }
  }

  /** In the text of a lexeme the only ',' is the decimal mark, so replacing the
      first ',' by '.' only changes the mark. */
  lemma ReplaceCommaInLexeme(x: NumLexeme)
    requires WellFormed(x)
    ensures ReplaceFirst(Render(x), ',', '.') == Render(x.(fraction := DotMark(x.fraction)))
  {
    var head := (if x.negative then "-" else "") + x.whole;
    var re := RenderExponent(x.exp);
    NoCommaInDigits(x.whole);
    NoCommaInExponent(x.exp);
    assert ',' !in head;
    assert Render(x) == head + (RenderFraction(x.fraction) + re);
    ReplaceFirstAfter(head, RenderFraction(x.fraction) + re, ',', '.');
    ReplaceCommaInFraction(x.fraction, re);
    var y := x.(fraction := DotMark(x.fraction));
    assert Render(y) == head + (RenderFraction(y.fraction) + re);
  }

  /** The decimal mark is the first ',' of a fraction followed by a text
      without one. */
  lemma ReplaceCommaInFraction(f: Option<(char, string)>, re: string)
    requires FractionOk(f) && ',' !in re
    ensures ReplaceFirst(RenderFraction(f) + re, ',', '.') == RenderFraction(DotMark(f)) + re
  {
    if f.Some? {
      var fd := f.value.1;
      NoCommaInDigits(fd);
      var tail := fd + re;
      assert RenderFraction(f) + re == [f.value.0] + tail;
      assert RenderFraction(DotMark(f)) + re == ['.'] + tail;
      if f.value.0 != ',' {
        assert ',' !in tail;
        ReplaceFirstAbsent(tail, ',', '.');
      }
    } else {
      assert RenderFraction(f) + re == re;
      ReplaceFirstAbsent(re, ',', '.');
    }
  }

  lemma StringToNumberOfLexeme(t: string, y: NumLexeme)
    requires WellFormed(y) && Trim(t) == Render(y)
    requires y.fraction.None? || y.fraction.value.0 == '.'
    ensures StringToNumber(t) == Some(LexemeValue(y))
  {
    LexRender(y);
  }

  /** What `normalizeQuantity` relies on: for a numeric string, turning the first
      ',' into '.' yields a string `Number()` converts, and its value is the one
      the numeric string denotes (the mark does not matter). */
  lemma {:induction false} CommaFixValue(s: string)
    requires IsNumericString(s)
    ensures StringToNumber(ReplaceFirst(s, ',', '.')) == Some(LexemeValue(Lex(Trim(s)).value))
  {
    var x := Lex(Trim(s)).value;
    RenderLex(Trim(s));
    var y := x.(fraction := DotMark(x.fraction));
    assert Trim(ReplaceFirst(s, ',', '.')) == Render(y) by {
      TrimReplaceFirst(s, ',', '.');
      ReplaceCommaInLexeme(x);
    }
    StringToNumberOfLexeme(ReplaceFirst(s, ',', '.'), y);
    assert LexemeValue(y) == LexemeValue(x);
  }
}
