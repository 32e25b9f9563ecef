/**
 The JSON grammar (sections 2 to 7 of RFC 8259) as a relation between texts and document trees, without a reader: which
 stretches of a text spell which document. The recursive descent of `JsonGrammar` finds exactly these.
 */
module Spelling {
  import opened Bytes
  import opened Decimals
  import opened Recognizer

  // ---- blanks and marks ----

  predicate IsBlankByte(b: byte) {
    b == ' ' as int || b == '\t' as int || b == '\n' as int || b == '\r' as int
  }

  ghost predicate Blanks(s: seq<byte>, i: nat, j: nat) {
    i <= j <= |s| && forall k | i <= k < j :: IsBlankByte(s[k])
  }

  /** Blanks, and one mark at the end. */
  ghost predicate Mark(s: seq<byte>, i: nat, j: nat, mark: char) {
    i < j <= |s| && Blanks(s, i, j - 1) && s[j - 1] == mark as int
  }

  lemma SpaceIs(s: seq<byte>, i: nat, k: nat)
    requires i <= |s|
    ensures Blanks(s, i, k) && (k < |s| ==> !IsBlankByte(s[k])) <==> Space(s, i) == k
  {
    var j := Space(s, i);
    if Blanks(s, i, k) && (k < |s| ==> !IsBlankByte(s[k])) {
      assert !(j < k) && !(k < j);
    }
  }

  lemma MarkIs(s: seq<byte>, i: nat, j: nat, mark: char)
    requires i <= |s| && j > 0 && mark in "\",:[]{}"
    ensures Mark(s, i, j, mark) <==> Space(s, i) == j - 1 < |s| && s[j - 1] == mark as int
  {
    hide Space;
    SpaceIs(s, i, j - 1);
  }

  // ---- strings ----

  /** The values of a hexadecimal digit. */
  ghost predicate IsHex(b: byte, v: nat) {
    || ('0' as int <= b <= '9' as int && v == b - '0' as int)
    || ('A' as int <= b <= 'F' as int && v == b - 'A' as int + 10)
    || ('a' as int <= b <= 'f' as int && v == b - 'a' as int + 10)
  }

  /** What a byte behind a backslash stands for. */
  ghost predicate IsShort(b: byte, c: Code) {
    || (b == c && (b == '\"' as int || b == '\\' as int || b == '/' as int))
    || (b == 'b' as int && c == 8) || (b == 't' as int && c == '\t' as int) || (b == 'n' as int && c == '\n' as int)
    || (b == 'f' as int && c == 12) || (b == 'r' as int && c == '\r' as int)
  }

  /** Four hexadecimal digits and the code they stand for. */
  ghost predicate IsLong(s: seq<byte>, i: nat, c: Code) {
    exists v: nat, w: nat, x: nat, y: nat :: IsFourHex(s, i, v, w, x, y) && c == v * 4096 + w * 256 + x * 16 + y
  }

  ghost predicate IsFourHex(s: seq<byte>, i: nat, v: nat, w: nat, x: nat, y: nat) {
    && i + 4 <= |s|
    && IsHex(s[i], v) && IsHex(s[i + 1], w) && IsHex(s[i + 2], x) && IsHex(s[i + 3], y)
  }

  /** From `i` to `j` the text spells one code of a string: a plain byte, or an escape. */
  ghost predicate PieceSpelled(s: seq<byte>, i: nat, j: nat, c: Code) {
    && i < j <= |s|
    && if s[i] == '\\' as int then
         || (j == i + 2 && IsShort(s[i + 1], c))
         || (j == i + 6 && s[i + 1] == 'u' as int && IsLong(s, i + 2, c))
       else j == i + 1 && s[i] == c && ' ' as int <= c && c != '\"' as int
  }

  /** From behind its opening quote to behind its closing quote the text spells a string. */
  ghost predicate StringSpelled(s: seq<byte>, i: nat, j: nat, text: seq<Code>)
    decreases |text|
  {
    if text == [] then i + 1 == j <= |s| && s[i] == '\"' as int
    else exists k: nat :: PieceSpelled(s, i, k, text[0]) && StringSpelled(s, k, j, text[1..])
  }

  lemma HexIs(b: byte, v: nat)
    ensures HexValue(b) == Some(v) <==> IsHex(b, v)
  {
  }

  lemma ShortIs(b: byte, c: Code)
    ensures Unescaped(b) == Some(c) <==> IsShort(b, c)
    ensures b == LOWER_U ==> Unescaped(b) == None
  {
  }

  lemma LongIs(s: seq<byte>, i: nat, c: Code)
    requires i < |s| && s[i] == LOWER_U && i + 5 <= |s|
    ensures Escape(s, i) == Ok(c, i + 5) <==> IsLong(s, i + 1, c)
  {
    hide HexValue, IsHex;
    if IsLong(s, i + 1, c) {
      var v: nat, w: nat, x: nat, y: nat :| IsFourHex(s, i + 1, v, w, x, y) && c == v * 4096 + w * 256 + x * 16 + y;
      HexIs(s[i + 1], v);
      HexIs(s[i + 2], w);
      HexIs(s[i + 3], x);
      HexIs(s[i + 4], y);
    } else if Escape(s, i).Ok? {
      var v, w, x, y := HexValue(s[i + 1]), HexValue(s[i + 2]), HexValue(s[i + 3]), HexValue(s[i + 4]);
      HexIs(s[i + 1], v.value);
      HexIs(s[i + 2], w.value);
      HexIs(s[i + 3], x.value);
      HexIs(s[i + 4], y.value);
      assert IsFourHex(s, i + 1, v.value, w.value, x.value, y.value);
    }
  }

  lemma EscapeIs(s: seq<byte>, i: nat, j: nat, c: Code)
    requires i < |s| && s[i] == BACKSLASH
    ensures Escape(s, i + 1) == Ok(c, j) <==> PieceSpelled(s, i, j, c)
  {
    hide HexValue, Unescaped, IsShort, IsLong;
    if i + 1 < |s| {
      ShortIs(s[i + 1], c);
      if s[i + 1] == LOWER_U && i + 6 <= |s| { LongIs(s, i + 1, c); }
    }
  }

  lemma {:induction false} StringIsSpelled(s: seq<byte>, i: nat)
    requires i <= |s| && Str(s, i).Ok?
    ensures StringSpelled(s, i, Str(s, i).next, Str(s, i).value)
    decreases |s| - i
  {
    hide Escape;
    var text, j := Str(s, i).value, Str(s, i).next;
    if s[i] != QUOTE {
      var k := if s[i] == BACKSLASH then Escape(s, i + 1).next else i + 1;
      if s[i] == BACKSLASH { EscapeIs(s, i, k, text[0]); }
      assert PieceSpelled(s, i, k, text[0]);
      StringIsSpelled(s, k);
      assert text[1..] == Str(s, k).value;
    }
  }

  lemma {:induction false} SpelledIsString(s: seq<byte>, i: nat, j: nat, text: seq<Code>)
    requires i <= |s| && StringSpelled(s, i, j, text)
    ensures Str(s, i) == Ok(text, j)
    decreases |text|
  {
    hide Escape;
    if text != [] {
      var k: nat :| PieceSpelled(s, i, k, text[0]) && StringSpelled(s, k, j, text[1..]);
      if s[i] == BACKSLASH { EscapeIs(s, i, k, text[0]); }
      SpelledIsString(s, k, j, text[1..]);
      assert text == [text[0]] + text[1..];
    }
  }

  /** A string is read as a text exactly when it spells it. */
  lemma StringsAreSpelled(s: seq<byte>, i: nat, j: nat, text: seq<Code>)
    requires i <= |s|
    ensures Str(s, i) == Ok(text, j) <==> StringSpelled(s, i, j, text)
  {
    hide Str, StringSpelled;
    if Str(s, i).Ok? { StringIsSpelled(s, i); }
    if StringSpelled(s, i, j, text) { SpelledIsString(s, i, j, text); }
  }

  // ---- numbers ----

  ghost predicate DigitsSpelled(s: seq<byte>, i: nat, j: nat) {
    i < j <= |s| && forall k | i <= k < j :: '0' as int <= s[k] <= '9' as int
  }

  ghost predicate ExponentSpelled(s: seq<byte>, i: nat, j: nat) {
    && i < |s| && (s[i] == 'e' as int || s[i] == 'E' as int)
    && (DigitsSpelled(s, i + 1, j)
        || (i + 1 < |s| && (s[i + 1] == '+' as int || s[i + 1] == '-' as int) && DigitsSpelled(s, i + 2, j)))
  }

  /**
   A sign up to `a`, digits up to `b` with no leading zero, a fraction up to `c`, an exponent up to `j`, each but the
   digits possibly missing; and nothing follows that could still belong to the number.
   */
  ghost predicate PartsSpelled(s: seq<byte>, i: nat, a: nat, b: nat, c: nat, j: nat) {
    && (a == i || (a == i + 1 <= |s| && s[i] == '-' as int))
    && DigitsSpelled(s, a, b) && (s[a] == '0' as int ==> b == a + 1)
    && (c == b || (b < |s| && s[b] == '.' as int && DigitsSpelled(s, b + 1, c)))
    && (j == c || ExponentSpelled(s, c, j))
    && (j < |s| ==>
          && !('0' as int <= s[j] <= '9' as int)
          && (j == c ==> s[j] != 'e' as int && s[j] != 'E' as int)
          && (j == b ==> s[j] != '.' as int))
  }

  /** A number is negative if it has a sign, and an integer if it has neither fraction nor exponent. */
  ghost predicate NumberSpelled(s: seq<byte>, i: nat, j: nat, negative: bool, whole: Option<nat>) {
    exists a: nat, b: nat, c: nat :: IsNumber(s, i, a, b, c, j, negative, whole)
  }

  ghost predicate IsNumber(s: seq<byte>, i: nat, a: nat, b: nat, c: nat, j: nat, negative: bool, whole: Option<nat>) {
    && PartsSpelled(s, i, a, b, c, j)
    && (negative <==> a == i + 1)
    && whole == if j == b then Some(ValueOf(s, a, b)) else None
  }

  ghost function ValueOf(s: seq<byte>, a: nat, b: nat): nat
    requires DigitsSpelled(s, a, b)
  {
    assert forall k | 0 <= k < b - a :: s[a..b][k] == s[a + k];
    PlaceValue(s[a..b])
  }

  lemma DigitsIs(s: seq<byte>, i: nat, j: nat)
    requires i <= |s|
    ensures DigitsSpelled(s, i, j) && (j < |s| ==> !IsDigit(s[j]))
            <==> i < |s| && IsDigit(s[i]) && Digits(s, i) == j
  {
    var k := Digits(s, i);
    if DigitsSpelled(s, i, j) && (j < |s| ==> !IsDigit(s[j])) { assert !(j < k) && !(k < j); }
  }

  predicate StopsDigits(s: seq<byte>, j: nat) {
    j < |s| ==> !IsDigit(s[j])
  }

  predicate StopsNumber(s: seq<byte>, j: nat) {
    j < |s| ==> !IsDigit(s[j]) && s[j] != LOWER_E && s[j] != UPPER_E
  }

  lemma ExponentIs(s: seq<byte>, i: nat, j: nat)
    requires i < |s| && (s[i] == LOWER_E || s[i] == UPPER_E)
    ensures Exponent(s, i) == Ok((), j) <==> ExponentSpelled(s, i, j) && StopsDigits(s, j)
  {
    hide Digits, DigitsSpelled;
    DigitsIs(s, i + 1, j);
    if i + 2 <= |s| { DigitsIs(s, i + 2, j); }
    SignIsNoDigit(s, i + 1, j);
  }

  lemma SignIsNoDigit(s: seq<byte>, i: nat, j: nat)
    ensures DigitsSpelled(s, i, j) ==> i < j <= |s| && IsDigit(s[i]) && s[i] != PLUS && s[i] != MINUS
  {
  }

  ghost predicate FractionSpelled(s: seq<byte>, i: nat, c: nat, j: nat) {
    && DigitsSpelled(s, i + 1, c)
    && ((j == c && StopsNumber(s, j)) || (ExponentSpelled(s, c, j) && StopsDigits(s, j)))
  }

  lemma FractionIs(s: seq<byte>, i: nat, c: nat, j: nat)
    requires i < |s| && s[i] == DOT
    ensures Fraction(s, i) == Ok((), j) && c == Digits(s, i + 1) <==> FractionSpelled(s, i, c, j)
  {
    hide Digits, DigitsSpelled, Exponent, ExponentSpelled;
    ExponentStarts(s, c, j);
    DigitsIs(s, i + 1, c);
    if c < |s| && (s[c] == LOWER_E || s[c] == UPPER_E) { ExponentIs(s, c, j); }
  }

  lemma ExponentStarts(s: seq<byte>, i: nat, j: nat)
    ensures ExponentSpelled(s, i, j) ==> i < j <= |s| && (s[i] == LOWER_E || s[i] == UPPER_E)
  {
  }

  /** The digits in front of a fraction or exponent, and what is left. */
  ghost predicate TailSpelled(s: seq<byte>, b: nat, c: nat, j: nat) {
    && b <= |s|
    && if c > b then b < |s| && s[b] == DOT && FractionSpelled(s, b, c, j)
       else c == b && if j > b then ExponentSpelled(s, b, j) && StopsDigits(s, j)
                      else j == b && StopsNumber(s, j) && (j < |s| ==> s[j] != DOT)
  }

  lemma PartsAre(s: seq<byte>, i: nat, a: nat, b: nat, c: nat, j: nat)
    ensures PartsSpelled(s, i, a, b, c, j)
            <==> && (a == i || (a == i + 1 <= |s| && s[i] == MINUS))
                 && DigitsSpelled(s, a, b) && (s[a] == ZERO ==> b == a + 1) && TailSpelled(s, b, c, j)
  {
    hide DigitsSpelled, ExponentSpelled;
    ExponentStarts(s, c, j);
    SignIsNoDigit(s, b + 1, c);
    SignIsNoDigit(s, a, b);
  }

  /** What the reader finds behind the digits. */
  function Tail(s: seq<byte>, b: nat): (r: Scan<()>)
    requires b <= |s|
    ensures r.Ok? ==> b <= r.next <= |s|
  {
    if b < |s| && s[b] == DOT then Fraction(s, b)
    else if b < |s| && (s[b] == LOWER_E || s[b] == UPPER_E) then Exponent(s, b)
    else Ok((), b)
  }

  lemma TailIs(s: seq<byte>, b: nat, c: nat, j: nat)
    requires b <= |s|
    ensures TailSpelled(s, b, c, j)
            <==> && StopsDigits(s, b) && Tail(s, b) == Ok((), j)
                 && c == if b < |s| && s[b] == DOT then Digits(s, b + 1) else b
  {
    hide Digits, DigitsSpelled, Exponent, ExponentSpelled, Fraction, FractionSpelled;
    ExponentStarts(s, b, j);
    if b < |s| && s[b] == DOT {
      FractionIs(s, b, c, j);
      FractionIsLonger(s, b, c, j);
    } else if b < |s| && (s[b] == LOWER_E || s[b] == UPPER_E) {
      ExponentIs(s, b, j);
    }
  }

  lemma FractionIsLonger(s: seq<byte>, i: nat, c: nat, j: nat)
    ensures FractionSpelled(s, i, c, j) ==> i < c <= j
    ensures i < |s| && s[i] == DOT ==> Digits(s, i + 1) > i
  {
    hide ExponentSpelled;
    ExponentStarts(s, c, j);
  }

  /** The digits in front of the rest of a number. */
  lemma IntegerIs(s: seq<byte>, a: nat, b: nat)
    requires StopsDigits(s, b)
    ensures DigitsSpelled(s, a, b) && (s[a] == ZERO ==> b == a + 1)
            <==> a < |s| && IsDigit(s[a]) && b == if s[a] == ZERO then a + 1 else Digits(s, a)
  {
    hide Digits;
    if a <= |s| { DigitsIs(s, a, b); }
  }

  ghost function MagnitudeFrom(s: seq<byte>, a: nat, b: nat): nat
    requires a <= b <= |s|
  {
    var digits := s[a..b];
    if AllDigits(digits) then Magnitude(digits) else 0
  }

  lemma MagnitudeFromIs(s: seq<byte>, a: nat, b: nat)
    requires DigitsSpelled(s, a, b)
    ensures MagnitudeFrom(s, a, b) == ValueOf(s, a, b)
  {
    hide Magnitude, PlaceValue;
    assert forall k | 0 <= k < b - a :: s[a..b][k] == s[a + k];
    MagnitudeIsPlaceValue(s[a..b]);
  }

  lemma NumIs(s: seq<byte>, i: nat)
    requires i < |s|
    ensures
      var a := if s[i] == MINUS then i + 1 else i;
      if a == |s| || !IsDigit(s[a]) then !Num(s, i).Ok?
      else
        var b := if s[a] == ZERO then a + 1 else Digits(s, a);
        if !StopsDigits(s, b) || !Tail(s, b).Ok? then !Num(s, i).Ok?
        else
          var j := Tail(s, b).next;
          Num(s, i) == Ok(Numeral(s[i] == MINUS, j == b, if j == b then MagnitudeFrom(s, a, b) else 0), j)
  {
    hide Magnitude, AllDigits, Digits, Fraction, Exponent;
    var a := if s[i] == MINUS then i + 1 else i;
    if a < |s| && IsDigit(s[a]) { SliceOfDigits(s, a, if s[a] == ZERO then a + 1 else Digits(s, a)); }
  }

  lemma SliceOfDigits(s: seq<byte>, a: nat, b: nat)
    requires a <= b <= |s| && forall k | a <= k < b :: IsDigit(s[k])
    ensures AllDigits(s[a..b])
  {
  }

  /** The number a numeral stands for, if it is an integer. */
  function WholeOf(n: Numeral): Option<nat> {
    if n.integral then Some(n.magnitude) else None
  }

  lemma NumberIsSpelled(s: seq<byte>, i: nat)
    requires i < |s| && Num(s, i).Ok?
    ensures NumberSpelled(s, i, Num(s, i).next, Num(s, i).value.negative, WholeOf(Num(s, i).value))
  {
    hide Num, Tail, TailSpelled, Digits, DigitsSpelled, PartsSpelled, MagnitudeFrom, ValueOf;
    NumIs(s, i);
    var a := if s[i] == MINUS then i + 1 else i;
    var b := if s[a] == ZERO then a + 1 else Digits(s, a);
    var c := if b < |s| && s[b] == DOT then Digits(s, b + 1) else b;
    var j := Num(s, i).next;
    assert Tail(s, b).value == ();
    IntegerIs(s, a, b);
    TailIs(s, b, c, j);
    PartsAre(s, i, a, b, c, j);
    MagnitudeFromIs(s, a, b);
    assert IsNumber(s, i, a, b, c, j, Num(s, i).value.negative, WholeOf(Num(s, i).value));
  }

  lemma SpelledIsNumber(s: seq<byte>, i: nat, j: nat, negative: bool, whole: Option<nat>)
    requires NumberSpelled(s, i, j, negative, whole)
    ensures i < |s|
    ensures Num(s, i) == Ok(Numeral(negative, whole.Some?, if whole.Some? then whole.value else 0), j)
  {
    hide Num, Tail, TailSpelled, Digits, DigitsSpelled, PartsSpelled, MagnitudeFrom, ValueOf;
    var a: nat, b: nat, c: nat :| IsNumber(s, i, a, b, c, j, negative, whole);
    PartsAre(s, i, a, b, c, j);
    SignIsNoDigit(s, a, b);
    TailIs(s, b, c, j);
    IntegerIs(s, a, b);
    NumIs(s, i);
    MagnitudeFromIs(s, a, b);
  }

  /** A number is read with a sign and a magnitude exactly when it spells them. */
  lemma NumbersAreSpelled(s: seq<byte>, i: nat, j: nat, negative: bool, whole: Option<nat>)
    requires i < |s|
    ensures NumberSpelled(s, i, j, negative, whole)
            <==> Num(s, i) == Ok(Numeral(negative, whole.Some?, if whole.Some? then whole.value else 0), j)
  {
    hide Num, NumberSpelled;
    if Num(s, i).Ok? { NumberIsSpelled(s, i); }
    if NumberSpelled(s, i, j, negative, whole) { SpelledIsNumber(s, i, j, negative, whole); }
  }
}
