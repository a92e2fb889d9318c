/**
 * Numeric coercion, `pd.to_numeric(..., errors='coerce')`: numeric cells keep
 * their value, blank cells are missing, and text is read as a decimal number
 * (optional sign, digits with at most one point, optional exponent); text
 * that is not such a number becomes missing instead of raising.
 */
module Numeric {
  import opened Cells

  predicate IsDigit(c: char) {
    '0' <= c <= '9'
  }

  predicate AllDigits(s: string) {
    forall i :: 0 <= i < |s| ==> IsDigit(s[i])
  }

  /** Every character a text that coerces to a number can contain. */
  predicate NumberChar(c: char) {
    IsDigit(c) || c == '.' || c == '+' || c == '-' || c == 'e' || c == 'E'
  }

  function DigitValue(c: char): (d: nat)
    requires IsDigit(c)
    ensures d < 10
  {
    (c as int - '0' as int) as nat
  }

  /** The value of a string of decimal digits, most significant first. */
  function NatValue(s: string): nat
    requires AllDigits(s)
  {
    if s == [] then 0 else 10 * NatValue(s[..|s| - 1]) + DigitValue(s[|s| - 1])
  }

  function Pow10(n: nat): (r: nat)
    ensures r > 0
  {
    if n == 0 then 1 else 10 * Pow10(n - 1)
  }

  /** The position of the first character of `s` that is in `cs`, or `|s|` if none is. */
  function IndexOf(s: string, cs: set<char>): (i: nat)
    ensures i <= |s|
    ensures i < |s| ==> s[i] in cs
    ensures forall k :: 0 <= k < i ==> s[k] !in cs
  {
    if s == [] then 0 else if s[0] in cs then 0 else 1 + IndexOf(s[1..], cs)
  }

  lemma IndexOfAbsent(s: string, cs: set<char>)
    requires forall k :: 0 <= k < |s| ==> s[k] !in cs
    ensures IndexOf(s, cs) == |s|
  {
  }

  lemma QuotientNonNegative(n: nat, d: nat)
    requires d > 0
    ensures n as real / d as real >= 0.0
  {
  }

  /** Whole digits and fractional digits: `w + ds / 10^|ds|`. */
  function MantissaValue(whole: string, frac: string): (v: real)
    requires AllDigits(whole) && AllDigits(frac)
    ensures v >= 0.0
  {
    var fraction := NatValue(frac) as real / Pow10(|frac|) as real;
    assert fraction >= 0.0 by { QuotientNonNegative(NatValue(frac), Pow10(|frac|)); }
    NatValue(whole) as real + fraction
  }

  /** Digits with at most one decimal point and at least one digit: `12`, `12.5`, `.5`, `12.`. */
  function ParseMantissa(s: string): (r: Option<real>)
    ensures r.Some? ==> 0 < |s|
    ensures r.Some? ==> forall i :: 0 <= i < |s| ==> NumberChar(s[i])
    ensures r.Some? ==> r.value >= 0.0
  {
    var p := IndexOf(s, {'.'});
    var whole := s[..p];
    var frac := if p < |s| then s[p + 1..] else [];
    if AllDigits(whole) && AllDigits(frac) && |whole| + |frac| > 0 then
      assert forall i :: 0 <= i < |s| && i != p ==> s[i] == (if i < p then whole[i] else frac[i - p - 1]);
      Some(MantissaValue(whole, frac))
    else
      None
  }

  /** An exponent: an optional sign, then at least one digit. */
  function ParseExponent(s: string): (r: Option<int>)
    ensures r.Some? ==> forall i :: 0 <= i < |s| ==> NumberChar(s[i])
  {
    var signed := |s| > 0 && (s[0] == '-' || s[0] == '+');
    var digits := if signed then s[1..] else s;
    if |digits| > 0 && AllDigits(digits) then
      assert forall i :: 0 < i < |s| && signed ==> s[i] == digits[i - 1];
      Some(if signed && s[0] == '-' then -(NatValue(digits) as int) else NatValue(digits))
    else
      None
  }

  /** `x * 10^e`. */
  function Scale10(x: real, e: int): real {
    if e >= 0 then x * Pow10(e) as real else x / Pow10(-e) as real
  }

  /** A mantissa, optionally followed by `e` or `E` and an exponent. */
  function ParseUnsigned(s: string): (r: Option<real>)
    ensures r.Some? ==> 0 < |s|
    ensures r.Some? ==> forall i :: 0 <= i < |s| ==> NumberChar(s[i])
  {
    var e := IndexOf(s, {'e', 'E'});
    if e == |s| then
      ParseMantissa(s)
    else
      match (ParseMantissa(s[..e]), ParseExponent(s[e + 1..]))
      case (Some(m), Some(x)) =>
        assert forall i :: 0 <= i < |s| && i != e ==> s[i] == (if i < e then s[..e][i] else s[e + 1..][i - e - 1]);
        Some(Scale10(m, x))
      case _ => None
  }

  lemma SignedChars(s: string)
    requires s != [] && NumberChar(s[0])
    requires forall i :: 0 <= i < |s[1..]| ==> NumberChar(s[1..][i])
    ensures forall i :: 0 <= i < |s| ==> NumberChar(s[i])
  {
    forall i | 0 < i < |s| ensures NumberChar(s[i]) {
      assert s[i] == s[1..][i - 1];
    }
  }

  /**
   * The coercion of one text: an optional sign before an unsigned number.
   * Only texts made of digits, signs, points and exponent letters coerce, so
   * a text holding `%` or surrounding whitespace is missing.
   */
  function ParseNumber(s: string): (r: Option<real>)
    ensures r.Some? ==> 0 < |s| && forall i :: 0 <= i < |s| ==> NumberChar(s[i])
  {
    if |s| > 0 && (s[0] == '-' || s[0] == '+') then
      var r := ParseUnsigned(s[1..]);
      if r.Some? then
        SignedChars(s);
        Some(if s[0] == '-' then -r.value else r.value)
      else
        None
    else
      ParseUnsigned(s)
  }

  /** `pd.to_numeric` with `errors='coerce'` on one cell. */
  function ToNumeric(c: Cell): Option<real> {
    match c
    case Blank => None
    case Num(x) => Some(x)
    case Text(s) => ParseNumber(s)
  }

  /** `pd.to_numeric` on a whole column: cell by cell. */
  function ToNumericColumn(col: seq<Cell>): (r: seq<Option<real>>)
    ensures |r| == |col|
    ensures forall i :: 0 <= i < |col| ==> r[i] == ToNumeric(col[i])
  {
    seq(|col|, i requires 0 <= i < |col| => ToNumeric(col[i]))
  }

  // ---- Decimal rendering, the partner of ParseNumber ----

  function DigitChar(d: nat): (c: char)
    requires d < 10
    ensures IsDigit(c) && DigitValue(c) == d
  {
    ('0' as int + d) as char
  }

  /** The decimal digits of `n`, without leading zeros. */
  function ShowNat(n: nat): (s: string)
    ensures 0 < |s| && AllDigits(s)
  {
    if n < 10 then [DigitChar(n)] else ShowNat(n / 10) + [DigitChar(n % 10)]
  }

  /** A rendered number holds no `%` and neither starts nor ends with whitespace. */
  lemma ShowNatPlain(n: nat)
    ensures '%' !in ShowNat(n)
    ensures !IsSpace(ShowNat(n)[0]) && !IsSpace(ShowNat(n)[|ShowNat(n)| - 1])
  {
    var s := ShowNat(n);
    assert IsDigit(s[0]) && IsDigit(s[|s| - 1]);
    forall k | 0 <= k < |s| ensures s[k] != '%' {
      assert IsDigit(s[k]);
    }
  }

  /** The decimal rendering of an integer, with a leading `-` when negative. */
  function ShowInt(n: int): string {
    if n < 0 then "-" + ShowNat(-n) else ShowNat(n)
  }

  lemma {:induction false} NatValueShowNat(n: nat)
    ensures NatValue(ShowNat(n)) == n
  {
    if n >= 10 {
      var s := ShowNat(n / 10) + [DigitChar(n % 10)];
      assert s[..|s| - 1] == ShowNat(n / 10);
      NatValueShowNat(n / 10);
    }
  }

  /** Reading back the rendering of a whole number gives that number. */
  lemma ParseShowNat(n: nat)
    ensures ParseNumber(ShowNat(n)) == Some(n as real)
  {
    var s := ShowNat(n);
    assert s[0] != '-' && s[0] != '+' by { assert IsDigit(s[0]); }
    IndexOfAbsent(s, {'e', 'E'});
    IndexOfAbsent(s, {'.'});
    assert s[..|s|] == s;
    NatValueShowNat(n);
  }

  /** Reading back the rendering of any integer, sign included, gives that integer. */
  lemma ParseShowInt(n: int)
    ensures ParseNumber(ShowInt(n)) == Some(n as real)
  {
    ParseShowNat(if n < 0 then -n else n);
    if n < 0 {
      var s := ShowInt(n);
      assert s[1..] == ShowNat(-n);
      var t := ShowNat(-n);
      assert IsDigit(t[0]);
    }
  }

  // ---- Decimal fractions and exponents ----

  lemma ShiftDigit(x: nat, p: nat, y: nat, d: nat)
    ensures 10 * (x * p + y) + d == x * (10 * p) + (10 * y + d)
  {
  }

  /** Digits after digits: the first part's value shifts left by the second's length. */
  lemma {:induction false} NatValueAppend(a: string, b: string)
    requires AllDigits(a) && AllDigits(b)
    ensures AllDigits(a + b)
    ensures NatValue(a + b) == NatValue(a) * Pow10(|b|) + NatValue(b)
  {
    if b == [] {
      assert a + b == a;
    } else {
      var b' := b[..|b| - 1];
      var ab := a + b;
      assert ab[..|ab| - 1] == a + b' && ab[|ab| - 1] == b[|b| - 1];
      NatValueAppend(a, b');
      assert NatValue(ab) == 10 * NatValue(a + b') + DigitValue(b[|b| - 1]);
      ShiftDigit(NatValue(a), Pow10(|b'|), NatValue(b'), DigitValue(b[|b| - 1]));
    }
  }

  /** The first character of `s` in `cs` is at `k` when `s[k]` is and nothing before it is. */
  lemma {:induction false} IndexOfAt(s: string, cs: set<char>, k: nat)
    requires k < |s| && s[k] in cs
    requires forall i :: 0 <= i < k ==> s[i] !in cs
    ensures IndexOf(s, cs) == k
  {
    if k > 0 {
      IndexOfAt(s[1..], cs, k - 1);
    }
  }

  lemma SplitQuotient(a: nat, b: nat, d: nat)
    requires d > 0
    ensures a as real + b as real / d as real == (a * d + b) as real / d as real
  {
    assert (a * d) as real == a as real * d as real;
  }

  /** A mantissa with its point at `p` is the value of the digits on either side. */
  lemma MantissaAtPoint(s: string, p: nat)
    requires p == IndexOf(s, {'.'}) && p < |s|
    requires AllDigits(s[..p]) && AllDigits(s[p + 1..]) && p + |s[p + 1..]| > 0
    ensures ParseMantissa(s) == Some(MantissaValue(s[..p], s[p + 1..]))
  {
  }

  /** The text `w.ds` is split at its point into its whole and fractional digits. */
  lemma MantissaParts(w: string, ds: string)
    requires AllDigits(w) && AllDigits(ds) && |w| + |ds| > 0
    ensures ParseMantissa(w + "." + ds) == Some(MantissaValue(w, ds))
  {
    var s := w + "." + ds;
    assert s[|w|] == '.';
    forall i | 0 <= i < |w| ensures s[i] !in {'.'} {
      assert s[i] == w[i] && IsDigit(w[i]);
    }
    IndexOfAt(s, {'.'}, |w|);
    assert s[..|w|] == w;
    assert s[|w| + 1..] == ds;
    assert |w| < |s|;
    MantissaAtPoint(s, |w|);
  }

  /** Whole digits plus fractional digits over `10^|ds|` is all the digits over `10^|ds|`. */
  lemma DecimalValue(w: string, ds: string)
    requires AllDigits(w) && AllDigits(ds)
    ensures AllDigits(w + ds)
    ensures MantissaValue(w, ds) == NatValue(w + ds) as real / Pow10(|ds|) as real
  {
    NatValueAppend(w, ds);
    SplitQuotient(NatValue(w), NatValue(ds), Pow10(|ds|));
  }

  /** The unsigned decimal `w.ds`, read as all its digits over a power of ten. */
  lemma ParseMantissaDecimal(w: string, ds: string)
    requires AllDigits(w) && AllDigits(ds) && |w| + |ds| > 0
    ensures AllDigits(w + ds)
    ensures ParseMantissa(w + "." + ds) == Some(NatValue(w + ds) as real / Pow10(|ds|) as real)
  {
    MantissaParts(w, ds);
    DecimalValue(w, ds);
  }

  /** A decimal text holds no exponent letter and starts with no sign. */
  lemma DecimalTextPlain(w: string, ds: string)
    requires AllDigits(w) && AllDigits(ds)
    ensures var s := w + "." + ds;
            && (forall k :: 0 <= k < |s| ==> s[k] !in {'e', 'E'})
            && s[0] != '-' && s[0] != '+'
  {
    var s := w + "." + ds;
    forall k | 0 <= k < |s| ensures s[k] !in {'e', 'E'} && (k == 0 ==> s[k] != '-' && s[k] != '+') {
      if k < |w| {
        assert s[k] == w[k];
      } else if k > |w| {
        assert s[k] == ds[k - |w| - 1];
      }
    }
  }

  /** Without an exponent letter, the text is read as a mantissa. */
  lemma UnsignedWithoutExponent(s: string)
    requires forall k :: 0 <= k < |s| ==> s[k] !in {'e', 'E'}
    ensures ParseUnsigned(s) == ParseMantissa(s)
  {
    IndexOfAbsent(s, {'e', 'E'});
  }

  /** A text that does not start with a sign is read unsigned. */
  lemma NumberWithoutSign(s: string)
    requires s != [] && s[0] != '-' && s[0] != '+'
    ensures ParseNumber(s) == ParseUnsigned(s)
  {
  }

  /** A sign before an unsigned text negates its value after `-` and keeps it after `+`. */
  lemma NumberWithSign(c: char, s: string, v: real)
    requires c == '-' || c == '+'
    requires ParseUnsigned(s) == Some(v)
    ensures ParseNumber([c] + s) == Some(if c == '-' then -v else v)
  {
    assert ([c] + s)[0] == c && ([c] + s)[1..] == s;
  }

  /**
   * Digits, a point and digits (`0.95`, `12.5`, `.5`, `3.`): the number is
   * all the digits over ten to the number of fractional digits.
   */
  lemma ParseDecimal(w: string, ds: string)
    requires AllDigits(w) && AllDigits(ds) && |w| + |ds| > 0
    ensures AllDigits(w + ds)
    ensures ParseNumber(w + "." + ds) == Some(NatValue(w + ds) as real / Pow10(|ds|) as real)
  {
    var s := w + "." + ds;
    ParseMantissaDecimal(w, ds);
    DecimalTextPlain(w, ds);
    UnsignedWithoutExponent(s);
    NumberWithoutSign(s);
  }

  /** The same after a sign: `-` negates the value and `+` keeps it. */
  lemma ParseSignedDecimal(c: char, w: string, ds: string)
    requires c == '-' || c == '+'
    requires AllDigits(w) && AllDigits(ds) && |w| + |ds| > 0
    ensures AllDigits(w + ds)
    ensures var v := NatValue(w + ds) as real / Pow10(|ds|) as real;
            ParseNumber([c] + (w + "." + ds)) == Some(if c == '-' then -v else v)
  {
    var s := w + "." + ds;
    ParseMantissaDecimal(w, ds);
    DecimalTextPlain(w, ds);
    UnsignedWithoutExponent(s);
    NumberWithSign(c, s, NatValue(w + ds) as real / Pow10(|ds|) as real);
  }

  /** The rendering of a natural number reads back as that exponent. */
  lemma ParseExponentShowNat(n: nat)
    ensures ParseExponent(ShowNat(n)) == Some(n)
  {
    var t := ShowNat(n);
    NatValueShowNat(n);
    assert IsDigit(t[0]);
  }

  /** The rendering of an integer reads back as that exponent. */
  lemma ParseExponentShowInt(x: int)
    ensures ParseExponent(ShowInt(x)) == Some(x)
  {
    if x < 0 {
      var t := ShowNat(-x);
      NatValueShowNat(-x);
      assert ShowInt(x)[0] == '-' && ShowInt(x)[1..] == t;
    } else {
      ParseExponentShowNat(x);
    }
  }

  /** A mantissa without exponent letters, then `e` and an exponent. */
  lemma UnsignedWithExponent(mant: string, ex: string)
    requires forall k :: 0 <= k < |mant| ==> mant[k] !in {'e', 'E'}
    ensures ParseUnsigned(mant + "e" + ex) == match (ParseMantissa(mant), ParseExponent(ex))
                                             case (Some(m), Some(x)) => Some(Scale10(m, x))
                                             case _ => None
  {
    var s := mant + "e" + ex;
    assert s[|mant|] == 'e';
    assert forall k :: 0 <= k < |mant| ==> s[k] == mant[k];
    IndexOfAt(s, {'e', 'E'}, |mant|);
    assert s[..|mant|] == mant && s[|mant| + 1..] == ex;
  }

  /** A decimal followed by `e` and an integer exponent is scaled by that power of ten. */
  lemma ParseScientific(w: string, ds: string, x: int)
    requires AllDigits(w) && AllDigits(ds) && |w| + |ds| > 0
    ensures AllDigits(w + ds)
    ensures ParseNumber(w + "." + ds + "e" + ShowInt(x))
            == Some(Scale10(NatValue(w + ds) as real / Pow10(|ds|) as real, x))
  {
    var mant := w + "." + ds;
    var s := mant + "e" + ShowInt(x);
    ParseMantissaDecimal(w, ds);
    DecimalTextPlain(w, ds);
    ParseExponentShowInt(x);
    UnsignedWithExponent(mant, ShowInt(x));
    assert s[0] == mant[0];
    NumberWithoutSign(s);
  }

  lemma DigitsOfFraction()
    ensures AllDigits("095") && NatValue("095") == 95
  {
    assert "095"[..2] == "09" && "09"[..1] == "0" && "0"[..0] == "";
  }

  lemma DigitsOfDecimal()
    ensures AllDigits("125") && NatValue("125") == 125
  {
    assert "125"[..2] == "12" && "12"[..1] == "1" && "1"[..0] == "";
  }

  /** `0.95` reads as 0.95. */
  lemma FractionTextExample(s: string)
    requires s == "0.95"
    ensures ParseNumber(s) == Some(0.95)
  {
    var w, ds := "0", "95";
    assert AllDigits(w) && AllDigits(ds);
    ParseDecimal(w, ds);
    assert w + "." + ds == s && w + ds == "095";
    DigitsOfFraction();
    assert Pow10(|ds|) == 100;
  }

  /** `12.5` reads as 12.5. */
  lemma DecimalTextExample(s: string)
    requires s == "12.5"
    ensures ParseNumber(s) == Some(12.5)
  {
    var w, ds := "12", "5";
    assert AllDigits(w) && AllDigits(ds);
    ParseDecimal(w, ds);
    assert w + "." + ds == s && w + ds == "125";
    DigitsOfDecimal();
    assert Pow10(|ds|) == 10;
  }
}
