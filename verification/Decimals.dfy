/** Decimal text of numbers, printed and read back. */
module Decimals {
  import opened Text

  function DigitOf(n: nat): (c: char)
    requires n < 10
    ensures IsAsciiDigit(c) && c as int - '0' as int == n
  {
    '0' + n as char
  }

  function Decimal(n: nat): (s: string)
    ensures s != [] && forall i :: 0 <= i < |s| ==> IsAsciiDigit(s[i])
  {
    if n < 10 then [DigitOf(n)] else Decimal(n / 10) + [DigitOf(n % 10)]
  }

  function Signed(n: int): string {
    if n < 0 then "-" + Decimal(-n) else Decimal(n)
  }

  predicate AllDigits(s: string) {
    s != [] && forall i :: 0 <= i < |s| ==> IsAsciiDigit(s[i])
  }

  /** The value of some digits; 0 for none. */
  function Number(s: string): nat
    requires forall i :: 0 <= i < |s| ==> IsAsciiDigit(s[i])
  {
    if s == [] then 0
    else
      assert IsAsciiDigit(s[|s| - 1]);
      10 * Number(s[..|s| - 1]) + (s[|s| - 1] as int - '0' as int)
  }

  lemma {:induction false} NumberOfDecimal(n: nat)
    ensures Number(Decimal(n)) == n
  {
    var s := Decimal(n);
    if n >= 10 {
      NumberOfDecimal(n / 10);
      assert s[..|s| - 1] == Decimal(n / 10);
    } else {
      assert s[..0] == [];
    }
  }

  // ---------------------------------------------------------------- numerals at the front of a text

  /** Where the digits from `k` on end. */
  function DigitEnd(s: string, k: nat): (e: nat)
    requires k <= |s|
    ensures k <= e <= |s| && forall i :: k <= i < e ==> IsAsciiDigit(s[i])
    decreases |s| - k
  {
    if k < |s| && IsAsciiDigit(s[k]) then DigitEnd(s, k + 1) else k
  }

  function SignEnd(s: string): (e: nat)
    ensures e <= |s| && e <= 1
  {
    if s != [] && (s[0] == '+' || s[0] == '-') then 1 else 0
  }

  function Signum(s: string): int {
    if s != [] && s[0] == '-' then -1 else 1
  }

  function DigitsValue(s: string, k: nat): nat
    requires k <= |s|
  {
    Number(s[k..DigitEnd(s, k)])
  }

  /** The end of the whole number at the front; 0 if there is none. */
  function WholeEnd(s: string): (e: nat)
    ensures e <= |s|
  {
    var e := DigitEnd(s, SignEnd(s));
    if e == SignEnd(s) then 0 else e
  }

  function WholeValue(s: string): int {
    if WholeEnd(s) == 0 then 0 else Signum(s) * DigitsValue(s, SignEnd(s))
  }

  /** Where the digits after a decimal point end. */
  function FractionEnd(s: string): (e: nat)
    ensures DigitEnd(s, SignEnd(s)) <= e <= |s|
  {
    var e := DigitEnd(s, SignEnd(s));
    if e < |s| && s[e] == '.' then DigitEnd(s, e + 1) else e
  }

  predicate HasDigits(s: string) {
    var e := DigitEnd(s, SignEnd(s));
    e > SignEnd(s) || FractionEnd(s) > e + 1
  }

  /** Where the digits of an exponent start, if one may follow. */
  function ExponentStart(s: string): (e: nat)
    ensures e <= |s|
  {
    var e := FractionEnd(s);
    if e < |s| && (s[e] == 'e' || s[e] == 'E') then e + 1 + SignEnd(s[e + 1..]) else e
  }

  predicate HasExponent(s: string) {
    ExponentStart(s) > FractionEnd(s) && DigitEnd(s, ExponentStart(s)) > ExponentStart(s)
  }

  /** The end of the decimal number at the front; 0 if there is none. */
  function FloatEnd(s: string): (e: nat)
    ensures e <= |s|
  {
    if !HasDigits(s) then 0 else if HasExponent(s) then DigitEnd(s, ExponentStart(s)) else FractionEnd(s)
  }

  function PowerOfTen(e: int): real
    decreases if e < 0 then -e else e
  {
    if e == 0 then 1.0 else if e > 0 then 10.0 * PowerOfTen(e - 1) else PowerOfTen(e + 1) / 10.0
  }

  function Exponent(s: string): int {
    if HasExponent(s) then Signum(s[FractionEnd(s) + 1..]) * DigitsValue(s, ExponentStart(s)) else 0
  }

  /** The parts of a decimal number: `places` digits, of value `fraction`, after the point. */
  datatype Numeral = Numeral(sign: int, whole: nat, places: nat, fraction: nat, exponent: int)

  function FractionStart(s: string): (k: nat)
    ensures k <= |s|
  {
    var e := DigitEnd(s, SignEnd(s));
    if FractionEnd(s) > e then e + 1 else e
  }

  function NumeralOf(s: string): Numeral {
    var k := FractionStart(s);
    var places := if FractionEnd(s) > k then FractionEnd(s) - k else 0;
    Numeral(Signum(s), DigitsValue(s, SignEnd(s)), places, if places > 0 then DigitsValue(s, k) else 0, Exponent(s))
  }

  function ValueOf(n: Numeral): real {
    n.sign as real * (n.whole as real * PowerOfTen(n.places) + n.fraction as real) * PowerOfTen(n.exponent - n.places)
  }

  /** The value of the decimal number at the front; 0 if there is none. */
  function FloatValue(s: string): real {
    if HasDigits(s) then ValueOf(NumeralOf(s)) else 0.0
  }

  // ---------------------------------------------------------------- printed numerals are read back

  lemma {:induction false} DigitEndIs(s: string, k: nat, e: nat)
    requires k <= e <= |s| && (forall i :: k <= i < e ==> IsAsciiDigit(s[i])) && (e == |s| || !IsAsciiDigit(s[e]))
    ensures DigitEnd(s, k) == e
    decreases e - k
  {
    if k < e { DigitEndIs(s, k + 1, e); }
  }

  lemma SignOf(n: int)
    ensures SignEnd(Signed(n)) == (if n < 0 then 1 else 0) && Signum(Signed(n)) == (if n < 0 then -1 else 1)
    ensures forall i :: SignEnd(Signed(n)) <= i < |Signed(n)| ==> IsAsciiDigit(Signed(n)[i])
    ensures SignEnd(Signed(n)) < |Signed(n)| && Signed(n)[SignEnd(Signed(n))..] == Decimal(if n < 0 then -n else n)
  {
    var d := Decimal(if n < 0 then -n else n);
    assert n >= 0 ==> IsAsciiDigit(d[0]) && d[0..] == d;
  }

  /** A printed integer is a whole number and nothing else, and its value is the integer. */
  lemma WholeOfSigned(n: int)
    ensures WholeEnd(Signed(n)) == |Signed(n)| && WholeValue(Signed(n)) == n
  {
    var s := Signed(n);
    SignOf(n);
    DigitEndIs(s, SignEnd(s), |s|);
    assert s[SignEnd(s)..|s|] == s[SignEnd(s)..];
    NumberOfDecimal(if n < 0 then -n else n);
  }

  /** The text `w.fed`. */
  predicate LaidOut(s: string, w: string, f: string, d: string) {
    && |s| == |w| + |f| + 2 + |d|
    && s[..|w|] == w && s[|w|] == '.' && s[|w| + 1..|w| + 1 + |f|] == f && s[|w| + 1 + |f|] == 'e'
    && s[|w| + |f| + 2..] == d
  }

  lemma Layout(w: string, f: string, d: string)
    ensures LaidOut(w + "." + f + "e" + d, w, f, d)
  {
  }

  lemma DigitsAt(s: string, k: nat, w: string)
    requires AllDigits(w) && k + |w| <= |s| && s[k..k + |w|] == w
    requires k + |w| == |s| || !IsAsciiDigit(s[k + |w|])
    ensures DigitEnd(s, k) == k + |w| && DigitsValue(s, k) == Number(w)
  {
    assert forall i :: k <= i < k + |w| ==> s[i] == w[i - k];
    DigitEndIs(s, k, k + |w|);
  }

  lemma PartsFound(s: string, w: string, f: string, d: string)
    requires AllDigits(w) && AllDigits(f) && LaidOut(s, w, f, d)
    ensures SignEnd(s) == 0 && Signum(s) == 1 && DigitEnd(s, 0) == |w| && DigitsValue(s, 0) == Number(w)
    ensures FractionEnd(s) == |w| + 1 + |f| && HasDigits(s)
    ensures FractionStart(s) == |w| + 1 && DigitsValue(s, |w| + 1) == Number(f)
  {
    assert s[0] == s[..|w|][0] == w[0];
    assert s[0..0 + |w|] == w;
    DigitsAt(s, 0, w);
    DigitsAt(s, |w| + 1, f);
  }

  lemma SliceSlice(s: string, i: nat, k: nat)
    requires i + k <= |s|
    ensures s[i..][k..] == s[i + k..]
  {
  }

  lemma ExponentDigits(s: string, k: nat, x: int, d: string)
    requires d == Signed(x) && SignEnd(d) <= k <= |s| && s[k..] == d[SignEnd(d)..]
    ensures DigitEnd(s, k) == |s| > k && Signum(d) * DigitsValue(s, k) == x
  {
    SignOf(x);
    var digits := d[SignEnd(d)..];
    assert digits == Decimal(if x < 0 then -x else x);
    assert s[k..k + |digits|] == s[k..];
    DigitsAt(s, k, digits);
    NumberOfDecimal(if x < 0 then -x else x);
  }

  lemma ExponentFound(s: string, w: string, f: string, x: int)
    requires LaidOut(s, w, f, Signed(x)) && FractionEnd(s) == |w| + 1 + |f|
    ensures HasExponent(s) && Exponent(s) == x && DigitEnd(s, ExponentStart(s)) == |s|
  {
    var d, e := Signed(x), |w| + |f| + 2;
    assert s[e..] == d;
    assert ExponentStart(s) == e + SignEnd(d);
    SliceSlice(s, e, SignEnd(d));
    ExponentDigits(s, e + SignEnd(d), x, d);
  }

  /** Digits, a point, digits and an exponent are read as what they are. */
  lemma NumeralOfParts(w: string, f: string, x: int)
    requires AllDigits(w) && AllDigits(f)
    ensures
      var s := w + "." + f + "e" + Signed(x);
      FloatEnd(s) == |s| && NumeralOf(s) == Numeral(1, Number(w), |f|, Number(f), x)
  {
    var s := w + "." + f + "e" + Signed(x);
    Layout(w, f, Signed(x));
    PartsFound(s, w, f, Signed(x));
    ExponentFound(s, w, f, x);
  }

  // ---------------------------------------------------------------- what follows does not matter

  /** Text that cannot continue a number. */
  predicate Stops(tail: string) {
    tail == [] || !(IsAsciiDigit(tail[0]) || tail[0] in {'.', 'e', 'E', '+', '-'})
  }

  lemma {:induction false} DigitEndTail(s: string, tail: string, k: nat)
    requires k <= |s| && Stops(tail)
    ensures DigitEnd(s + tail, k) == DigitEnd(s, k)
    decreases |s| - k
  {
    if k < |s| && IsAsciiDigit(s[k]) { DigitEndTail(s, tail, k + 1); }
  }

  lemma DigitsTail(s: string, tail: string, k: nat)
    requires k <= |s| && Stops(tail)
    ensures DigitEnd(s + tail, k) == DigitEnd(s, k) && DigitsValue(s + tail, k) == DigitsValue(s, k)
  {
    DigitEndTail(s, tail, k);
    assert (s + tail)[k..DigitEnd(s, k)] == s[k..DigitEnd(s, k)];
  }

  lemma SignTail(s: string, tail: string)
    requires Stops(tail)
    ensures SignEnd(s + tail) == SignEnd(s) && Signum(s + tail) == Signum(s)
  {
    if s == [] { assert s + tail == tail; }
  }

  lemma WholeTail(s: string, tail: string)
    requires Stops(tail)
    ensures WholeEnd(s + tail) == WholeEnd(s) && WholeValue(s + tail) == WholeValue(s)
  {
    SignTail(s, tail);
    DigitsTail(s, tail, SignEnd(s));
  }

  lemma FractionTail(s: string, tail: string)
    requires Stops(tail)
    ensures FractionEnd(s + tail) == FractionEnd(s) && HasDigits(s + tail) == HasDigits(s)
  {
    SignTail(s, tail);
    DigitEndTail(s, tail, SignEnd(s));
    var e := DigitEnd(s, SignEnd(s));
    if e < |s| && s[e] == '.' { DigitEndTail(s, tail, e + 1); }
  }

  lemma ExponentStartTail(s: string, tail: string)
    requires Stops(tail)
    ensures FractionEnd(s + tail) == FractionEnd(s) && ExponentStart(s + tail) == ExponentStart(s)
    ensures ExponentStart(s) > FractionEnd(s) ==>
      Signum((s + tail)[FractionEnd(s) + 1..]) == Signum(s[FractionEnd(s) + 1..])
  {
    FractionTail(s, tail);
    var e := FractionEnd(s);
    if e < |s| && (s[e] == 'e' || s[e] == 'E') {
      assert (s + tail)[e + 1..] == s[e + 1..] + tail;
      SignTail(s[e + 1..], tail);
    }
  }

  lemma ExponentTail(s: string, tail: string)
    requires Stops(tail)
    ensures ExponentStart(s + tail) == ExponentStart(s) && HasExponent(s + tail) == HasExponent(s)
    ensures Exponent(s + tail) == Exponent(s)
  {
    ExponentStartTail(s, tail);
    DigitsTail(s, tail, ExponentStart(s));
  }

  lemma FloatEndTail(s: string, tail: string)
    requires Stops(tail)
    ensures FloatEnd(s + tail) == FloatEnd(s)
  {
    FractionTail(s, tail);
    ExponentTail(s, tail);
    DigitEndTail(s, tail, ExponentStart(s));
  }

  lemma NumeralTail(s: string, tail: string)
    requires Stops(tail)
    ensures NumeralOf(s + tail) == NumeralOf(s)
  {
    FractionTail(s, tail);
    ExponentTail(s, tail);
    SignTail(s, tail);
    DigitsTail(s, tail, SignEnd(s));
    DigitsTail(s, tail, FractionStart(s));
  }

  lemma FloatValueTail(s: string, tail: string)
    requires Stops(tail)
    ensures FloatValue(s + tail) == FloatValue(s)
  {
    FractionTail(s, tail);
    NumeralTail(s, tail);
  }
}
