/**
 A left-to-right reader of JSON text (sections 2 to 7 of RFC 8259) that says, for every position, whether the
 text there is complete, runs out, or is wrong. It is the part of the JSON library the usage scanner leans on.

 The central fact is *stability*: an answer reached without touching the end of the text is not changed by
 appending more bytes.
 */
module Recognizer {
  import opened Bytes
  import opened Decimals

  /**
   `Ok` read a value that ends at `next`; `Cut` ran out of bytes; `Bad` met bytes that no JSON text allows.
   `Cut(true)` is the one case the library does not report as end of input: a skipped number that stops after
   its sign, its point or its exponent letter.
   */
  datatype Scan<+T> = Ok(value: T, next: nat) | Cut(inNumber: bool) | Bad {
    predicate IsFailure() {
      !Ok?
    }
    function PropagateFailure<U>(): Scan<U>
      requires !Ok?
    {
      if Bad? then Bad else Cut(inNumber)
    }
    function Extract(): (T, nat)
      requires Ok?
    {
      (value, next)
    }
  }

  /** The answer was reached strictly before the end of the text. */
  ghost predicate Settled<T>(r: Scan<T>, p: seq<byte>) {
    r.Bad? || (r.Ok? && r.next < |p|)
  }

  /** The answer stands even if the last byte read is the last byte there is. */
  ghost predicate Final<T>(r: Scan<T>) {
    !r.Cut?
  }

  /** The bytes that a number can stop on without being finished. */
  predicate IsNumberGap(b: byte) {
    b == MINUS || b == PLUS || b == DOT || b == LOWER_E || b == UPPER_E
  }

  ghost predicate EndsInGap(s: seq<byte>) {
    s != [] && IsNumberGap(s[|s| - 1])
  }

  // ---- whitespace ----

  function Space(s: seq<byte>, i: nat): (j: nat)
    requires i <= |s|
    ensures i <= j <= |s|
    ensures j < |s| ==> !IsJsonSpace(s[j])
    ensures forall k | i <= k < j :: IsJsonSpace(s[k])
    decreases |s| - i
  {
    if i < |s| && IsJsonSpace(s[i]) then Space(s, i + 1) else i
  }

  lemma SpaceStable(p: seq<byte>, s: seq<byte>, i: nat)
    requires Extends(p, s) && i <= |p|
    requires Space(p, i) < |p|
    ensures Space(s, i) == Space(p, i)
  {
    var j := Space(p, i);
    var k := Space(s, i);
    assert s[j] == p[j];
    assert k <= j;
    assert p[k] == s[k];
  }

  // ---- strings ----

  function HexValue(b: byte): (r: Option<nat>)
    ensures r.Some? ==> r.value < 16
  {
    if IsDigit(b) then Some(b - ZERO)
    else if 65 <= b <= 70 then Some(b - 55)
    else if 97 <= b <= 102 then Some(b - 87)
    else None
  }

  function Unescaped(b: byte): Option<Code> {
    if b == QUOTE || b == BACKSLASH || b == SLASH then Some(b)
    else if b == LOWER_B then Some(8)
    else if b == LOWER_F then Some(12)
    else if b == LOWER_N then Some(10)
    else if b == LOWER_R then Some(13)
    else if b == LOWER_T then Some(9)
    else None
  }

  /** The escape whose backslash ends just before `i`. Four bytes have to be there before any digit is looked at. */
  function Escape(s: seq<byte>, i: nat): (r: Scan<Code>)
    requires i <= |s|
    ensures r.Ok? ==> i < r.next <= |s|
    ensures r.Cut? ==> r == Cut(false)
  {
    if i == |s| then Cut(false)
    else if s[i] == LOWER_U then
      if |s| < i + 5 then Cut(false)
      else
        match (HexValue(s[i + 1]), HexValue(s[i + 2]), HexValue(s[i + 3]), HexValue(s[i + 4]))
        case (Some(a), Some(b), Some(c), Some(d)) => Ok(((a * 16 + b) * 16 + c) * 16 + d, i + 5)
        case _ => Bad
    else
      match Unescaped(s[i])
      case Some(c) => Ok(c, i + 1)
      case None => Bad
  }

  /** The rest of a string whose opening quote ends just before `i`; the value is the decoded text. */
  function Str(s: seq<byte>, i: nat): (r: Scan<seq<Code>>)
    requires i <= |s|
    ensures r.Ok? ==> i < r.next <= |s|
    ensures r.Cut? ==> r == Cut(false)
    decreases |s| - i
  {
    if i == |s| then Cut(false)
    else if s[i] == QUOTE then Ok([], i + 1)
    else if s[i] == BACKSLASH then
      var (c, j) :- Escape(s, i + 1);
      var (text, k) :- Str(s, j);
      Ok([c] + text, k)
    else if s[i] < SPACE then Bad
    else
      var (text, k) :- Str(s, i + 1);
      Ok([s[i]] + text, k)
  }

  lemma {:induction false} StrStable(p: seq<byte>, s: seq<byte>, i: nat)
    requires Extends(p, s) && i <= |p|
    requires Final(Str(p, i))
    ensures Str(s, i) == Str(p, i)
    decreases |p| - i
  {
    if p[i] == QUOTE {
    } else if p[i] == BACKSLASH {
      assert Escape(s, i + 1) == Escape(p, i + 1);
      if Escape(p, i + 1).Ok? { StrStable(p, s, Escape(p, i + 1).next); }
    } else if p[i] >= SPACE {
      StrStable(p, s, i + 1);
    }
  }

  // ---- numbers ----

  datatype Numeral = Numeral(negative: bool, integral: bool, magnitude: nat)

  function Digits(s: seq<byte>, i: nat): (j: nat)
    requires i <= |s|
    ensures i <= j <= |s|
    ensures forall k | i <= k < j :: IsDigit(s[k])
    ensures j < |s| ==> !IsDigit(s[j])
    decreases |s| - i
  {
    if i < |s| && IsDigit(s[i]) then Digits(s, i + 1) else i
  }

  function Exponent(s: seq<byte>, i: nat): (r: Scan<()>)
    requires i < |s| && (s[i] == LOWER_E || s[i] == UPPER_E)
    ensures r.Ok? ==> i < r.next <= |s|
    ensures r.Cut? ==> EndsInGap(s)
  {
    var d := if i + 1 < |s| && (s[i + 1] == PLUS || s[i + 1] == MINUS) then i + 2 else i + 1;
    if d == |s| then Cut(true)
    else if !IsDigit(s[d]) then Bad
    else Ok((), Digits(s, d))
  }

  function Fraction(s: seq<byte>, i: nat): (r: Scan<()>)
    requires i < |s| && s[i] == DOT
    ensures r.Ok? ==> i < r.next <= |s|
    ensures r.Cut? ==> EndsInGap(s)
  {
    if i + 1 == |s| then Cut(true)
    else if !IsDigit(s[i + 1]) then Bad
    else
      var c := Digits(s, i + 1);
      if c < |s| && (s[c] == LOWER_E || s[c] == UPPER_E) then Exponent(s, c) else Ok((), c)
  }

  function Num(s: seq<byte>, i: nat): (r: Scan<Numeral>)
    requires i < |s|
    ensures r.Ok? ==> i < r.next <= |s|
    ensures r.Cut? ==> EndsInGap(s)
  {
    var negative := s[i] == MINUS;
    var a := if negative then i + 1 else i;
    if a == |s| then Cut(true)
    else if !IsDigit(s[a]) then Bad
    else
      var b := if s[a] == ZERO then a + 1 else Digits(s, a);
      if s[a] == ZERO && b < |s| && IsDigit(s[b]) then Bad
      else if b < |s| && s[b] == DOT then
        var (_, c) :- Fraction(s, b);
        Ok(Numeral(negative, false, 0), c)
      else if b < |s| && (s[b] == LOWER_E || s[b] == UPPER_E) then
        var (_, c) :- Exponent(s, b);
        Ok(Numeral(negative, false, 0), c)
      else Ok(Numeral(negative, true, Magnitude(s[a..b])), b)
  }

  lemma SliceStable(p: seq<byte>, s: seq<byte>, a: nat, b: nat)
    requires Extends(p, s) && a <= b <= |p|
    ensures s[a..b] == p[a..b]
  {
  }

  lemma DigitsStable(p: seq<byte>, s: seq<byte>, i: nat)
    requires Extends(p, s) && i <= |p|
    ensures Digits(p, i) < |p| ==> Digits(s, i) == Digits(p, i)
    ensures Digits(p, i) <= Digits(s, i)
  {
    var j := Digits(p, i);
    var k := Digits(s, i);
    if j < |p| { assert s[j] == p[j]; }
    if k < |p| { assert p[k] == s[k]; }
  }

  lemma ExponentStable(p: seq<byte>, s: seq<byte>, i: nat)
    requires Extends(p, s) && i < |p| && (p[i] == LOWER_E || p[i] == UPPER_E)
    requires Settled(Exponent(p, i), p)
    ensures Exponent(s, i) == Exponent(p, i)
  {
    var d := if i + 1 < |p| && (p[i + 1] == PLUS || p[i + 1] == MINUS) then i + 2 else i + 1;
    DigitsStable(p, s, d);
  }

  lemma FractionStable(p: seq<byte>, s: seq<byte>, i: nat)
    requires Extends(p, s) && i < |p| && p[i] == DOT
    requires Settled(Fraction(p, i), p)
    ensures Fraction(s, i) == Fraction(p, i)
  {
    DigitsStable(p, s, i + 1);
    var c := Digits(p, i + 1);
    if IsDigit(p[i + 1]) && (p[c] == LOWER_E || p[c] == UPPER_E) { ExponentStable(p, s, c); }
  }

  lemma NumStable(p: seq<byte>, s: seq<byte>, i: nat)
    requires Extends(p, s) && i < |p|
    requires Settled(Num(p, i), p)
    ensures Num(s, i) == Num(p, i)
  {
    hide Magnitude, Digits, Exponent, Fraction;
    var a := if p[i] == MINUS then i + 1 else i;
    if IsDigit(p[a]) {
      DigitsStable(p, s, a);
      var b := if p[a] == ZERO then a + 1 else Digits(p, a);
      SliceStable(p, s, a, b);
      if !(p[a] == ZERO && IsDigit(p[b])) {
        if p[b] == DOT {
          FractionStable(p, s, b);
        } else if p[b] == LOWER_E || p[b] == UPPER_E {
          ExponentStable(p, s, b);
        }
      }
    }
  }

  // ---- literals and scalars ----

  function Word(s: seq<byte>, i: nat, word: seq<byte>): (r: Scan<()>)
    requires i <= |s|
    ensures r.Ok? ==> r.next == i + |word| <= |s|
    ensures r.Cut? ==> r == Cut(false)
    decreases |word|
  {
    if word == [] then Ok((), i)
    else if i == |s| then Cut(false)
    else if s[i] != word[0] then Bad
    else Word(s, i + 1, word[1..])
  }

  lemma {:induction false} WordStable(p: seq<byte>, s: seq<byte>, i: nat, word: seq<byte>)
    requires Extends(p, s) && i <= |p|
    requires Final(Word(p, i, word))
    ensures Word(s, i, word) == Word(p, i, word)
    decreases |word|
  {
    if word != [] && p[i] == word[0] { WordStable(p, s, i + 1, word[1..]); }
  }

  const NULL_TAIL: seq<byte> := [117, 108, 108]
  const TRUE_TAIL: seq<byte> := [114, 117, 101]
  const FALSE_TAIL: seq<byte> := [97, 108, 115, 101]

  /** A literal, number or string. */
  function Scalar(s: seq<byte>, i: nat): (r: Scan<()>)
    requires i < |s|
    ensures r.Ok? ==> i < r.next <= |s|
    ensures r == Cut(true) ==> EndsInGap(s)
  {
    if s[i] == LOWER_N then Word(s, i + 1, NULL_TAIL)
    else if s[i] == LOWER_T then Word(s, i + 1, TRUE_TAIL)
    else if s[i] == LOWER_F then Word(s, i + 1, FALSE_TAIL)
    else if s[i] == QUOTE then
      var (_, j) :- Str(s, i + 1);
      Ok((), j)
    else if s[i] == MINUS || IsDigit(s[i]) then
      var (_, j) :- Num(s, i);
      Ok((), j)
    else Bad
  }

  lemma ScalarStable(p: seq<byte>, s: seq<byte>, i: nat)
    requires Extends(p, s) && i < |p|
    requires Settled(Scalar(p, i), p)
    ensures Scalar(s, i) == Scalar(p, i)
  {
    hide Num, Str, Word;
    if p[i] == LOWER_N {
      WordStable(p, s, i + 1, NULL_TAIL);
    } else if p[i] == LOWER_T {
      WordStable(p, s, i + 1, TRUE_TAIL);
    } else if p[i] == LOWER_F {
      WordStable(p, s, i + 1, FALSE_TAIL);
    } else if p[i] == QUOTE {
      StrStable(p, s, i + 1);
    } else if p[i] == MINUS || IsDigit(p[i]) {
      NumStable(p, s, i);
    }
  }

  // ---- object punctuation ----

  function Colon(s: seq<byte>, i: nat): (r: Scan<()>)
    requires i <= |s|
    ensures r.Ok? ==> i < r.next <= |s|
    ensures r.Cut? ==> r == Cut(false)
  {
    var j := Space(s, i);
    if j == |s| then Cut(false) else if s[j] == COLON then Ok((), j + 1) else Bad
  }

  lemma ColonStable(p: seq<byte>, s: seq<byte>, i: nat)
    requires Extends(p, s) && i <= |p|
    requires Final(Colon(p, i))
    ensures Colon(s, i) == Colon(p, i)
  {
    SpaceStable(p, s, i);
  }

  /** A key in key position: whitespace, then a string. */
  function Key(s: seq<byte>, i: nat): (r: Scan<seq<Code>>)
    requires i <= |s|
    ensures r.Ok? ==> i < r.next <= |s|
    ensures r.Cut? ==> r == Cut(false)
  {
    var j := Space(s, i);
    if j == |s| then Cut(false) else if s[j] == QUOTE then Str(s, j + 1) else Bad
  }

  lemma KeyStable(p: seq<byte>, s: seq<byte>, i: nat)
    requires Extends(p, s) && i <= |p|
    requires Final(Key(p, i))
    ensures Key(s, i) == Key(p, i)
  {
    SpaceStable(p, s, i);
    var j := Space(p, i);
    if p[j] == QUOTE { StrStable(p, s, j + 1); }
  }

  // ---- skipping a value ----

  datatype Frame = InArray | InObject

  datatype Due = AnyValue | ValueOrClose | KeyOrClose | NextKey | CommaOrClose

  function Closer(f: Frame): byte {
    if f.InArray? then CLOSE_BRACKET else CLOSE_BRACE
  }

  /**
   Step over one value without building it. `open` holds the enclosing brackets, innermost first, so nesting
   costs no recursion: the value is over when nothing is open and nothing is due.
   */
  function Skip(s: seq<byte>, i: nat, open: seq<Frame>, due: Due): (r: Scan<()>)
    requires i <= |s|
    ensures r.Ok? ==> i <= r.next <= |s|
    ensures r == Cut(true) ==> EndsInGap(s)
    decreases |s| - i
  {
    if open == [] && due.CommaOrClose? then Ok((), i)
    else
      var j := Space(s, i);
      if j == |s| then Cut(false)
      else
        match due
        case CommaOrClose =>
          if s[j] == COMMA then Skip(s, j + 1, open, if open[0].InArray? then AnyValue else NextKey)
          else if s[j] == Closer(open[0]) then Skip(s, j + 1, open[1..], CommaOrClose)
          else Bad
        case KeyOrClose =>
          if open != [] && s[j] == CLOSE_BRACE then Skip(s, j + 1, open[1..], CommaOrClose)
          else Entry(s, j, open)
        case NextKey => Entry(s, j, open)
        case ValueOrClose =>
          if open != [] && s[j] == CLOSE_BRACKET then Skip(s, j + 1, open[1..], CommaOrClose)
          else Element(s, j, open)
        case AnyValue => Element(s, j, open)
  }

  /** A key, its colon, and everything that follows. */
  function Entry(s: seq<byte>, i: nat, open: seq<Frame>): (r: Scan<()>)
    requires i < |s| && Space(s, i) == i
    ensures r.Ok? ==> i <= r.next <= |s|
    ensures r == Cut(true) ==> EndsInGap(s)
    decreases |s| - i, 0
  {
    var (_, j) :- Key(s, i);
    var (_, k) :- Colon(s, j);
    Skip(s, k, open, AnyValue)
  }

  /** A value starting at `i`, and everything that follows. */
  function Element(s: seq<byte>, i: nat, open: seq<Frame>): (r: Scan<()>)
    requires i < |s| && Space(s, i) == i
    ensures r.Ok? ==> i <= r.next <= |s|
    ensures r == Cut(true) ==> EndsInGap(s)
    decreases |s| - i, 0
  {
    if s[i] == OPEN_BRACKET then Skip(s, i + 1, [InArray] + open, ValueOrClose)
    else if s[i] == OPEN_BRACE then Skip(s, i + 1, [InObject] + open, KeyOrClose)
    else
      var (_, j) :- Scalar(s, i);
      Skip(s, j, open, CommaOrClose)
  }

  lemma {:induction false} SkipStable(p: seq<byte>, s: seq<byte>, i: nat, open: seq<Frame>, due: Due)
    requires Extends(p, s) && i <= |p|
    requires Settled(Skip(p, i, open, due), p)
    ensures Skip(s, i, open, due) == Skip(p, i, open, due)
    decreases |p| - i, 1
  {
    hide Space, Entry, Element;
    if !(open == [] && due.CommaOrClose?) {
      SpaceStable(p, s, i);
      var j := Space(p, i);
      match due
      case CommaOrClose =>
        if p[j] == COMMA {
          SkipStable(p, s, j + 1, open, if open[0].InArray? then AnyValue else NextKey);
        } else if p[j] == Closer(open[0]) {
          SkipStable(p, s, j + 1, open[1..], CommaOrClose);
        }
      case KeyOrClose =>
        if open != [] && p[j] == CLOSE_BRACE {
          SkipStable(p, s, j + 1, open[1..], CommaOrClose);
        } else {
          EntryStable(p, s, j, open);
        }
      case NextKey => EntryStable(p, s, j, open);
      case ValueOrClose =>
        if open != [] && p[j] == CLOSE_BRACKET {
          SkipStable(p, s, j + 1, open[1..], CommaOrClose);
        } else {
          ElementStable(p, s, j, open);
        }
      case AnyValue => ElementStable(p, s, j, open);
    }
  }

  lemma {:induction false} EntryStable(p: seq<byte>, s: seq<byte>, i: nat, open: seq<Frame>)
    requires Extends(p, s) && i < |p| && Space(p, i) == i
    requires Settled(Entry(p, i, open), p)
    ensures Space(s, i) == i && Entry(s, i, open) == Entry(p, i, open)
    decreases |p| - i, 0
  {
    hide Key, Colon;
    SpaceStable(p, s, i);
    KeyStable(p, s, i);
    if Key(p, i).Ok? {
      var j := Key(p, i).next;
      ColonStable(p, s, j);
      if Colon(p, j).Ok? { SkipStable(p, s, Colon(p, j).next, open, AnyValue); }
    }
  }

  lemma {:induction false} ElementStable(p: seq<byte>, s: seq<byte>, i: nat, open: seq<Frame>)
    requires Extends(p, s) && i < |p| && Space(p, i) == i
    requires Settled(Element(p, i, open), p)
    ensures Space(s, i) == i && Element(s, i, open) == Element(p, i, open)
    decreases |p| - i, 0
  {
    hide Scalar;
    SpaceStable(p, s, i);
    if p[i] == OPEN_BRACKET {
      SkipStable(p, s, i + 1, [InArray] + open, ValueOrClose);
    } else if p[i] == OPEN_BRACE {
      SkipStable(p, s, i + 1, [InObject] + open, KeyOrClose);
    } else {
      if Scalar(p, i).Ok? {
        var j := Scalar(p, i).next;
        var r := Skip(p, j, open, CommaOrClose);
        assert j == |p| ==> !Settled(r, p);
        ScalarStable(p, s, i);
        SkipStable(p, s, j, open, CommaOrClose);
      } else {
        ScalarStable(p, s, i);
      }
    }
  }

  // ---- what follows a number gap ----

  predicate FollowsGap(b: byte) {
    IsDigit(b) || b == PLUS || b == MINUS
  }

  /** `s` goes on after `p` with a byte that a stopped number can go on with. */
  ghost predicate ResumesNumber(p: seq<byte>, s: seq<byte>) {
    |p| < |s| && FollowsGap(s[|p|])
  }

  lemma ExponentGap(p: seq<byte>, s: seq<byte>, i: nat)
    requires Extends(p, s) && i < |p| && (p[i] == LOWER_E || p[i] == UPPER_E)
    requires Exponent(p, i).Cut? && Exponent(s, i).Ok?
    ensures ResumesNumber(p, s)
  {
  }

  lemma FractionGap(p: seq<byte>, s: seq<byte>, i: nat)
    requires Extends(p, s) && i < |p| && p[i] == DOT
    requires Fraction(p, i).Cut? && Fraction(s, i).Ok?
    ensures ResumesNumber(p, s)
  {
    if i + 1 < |p| {
      DigitsStable(p, s, i + 1);
      ExponentGap(p, s, Digits(p, i + 1));
    }
  }

  lemma NumGap(p: seq<byte>, s: seq<byte>, i: nat)
    requires Extends(p, s) && i < |p|
    requires Num(p, i).Cut? && Num(s, i).Ok?
    ensures ResumesNumber(p, s)
  {
    hide Magnitude, Digits, Exponent, Fraction;
    var a := if p[i] == MINUS then i + 1 else i;
    if a < |p| {
      DigitsStable(p, s, a);
      var b := if p[a] == ZERO then a + 1 else Digits(p, a);
      if p[b] == DOT { FractionGap(p, s, b); } else { ExponentGap(p, s, b); }
    }
  }

  lemma {:induction false} SkipGap(p: seq<byte>, s: seq<byte>, i: nat, open: seq<Frame>, due: Due)
    requires Extends(p, s) && i <= |p|
    requires Skip(p, i, open, due) == Cut(true) && Skip(s, i, open, due).Ok?
    ensures ResumesNumber(p, s)
    decreases |p| - i, 2
  {
    hide Space, Entry, Element;
    SpaceStable(p, s, i);
    var j := Space(p, i);
    if due.CommaOrClose? {
      AfterValueGap(p, s, i, open);
    } else if open != [] && due.KeyOrClose? && p[j] == CLOSE_BRACE {
      SkipGap(p, s, j + 1, open[1..], CommaOrClose);
    } else if open != [] && due.ValueOrClose? && p[j] == CLOSE_BRACKET {
      SkipGap(p, s, j + 1, open[1..], CommaOrClose);
    } else if due.KeyOrClose? || due.NextKey? {
      EntryGap(p, s, j, open);
    } else {
      ElementGap(p, s, j, open);
    }
  }

  lemma {:induction false} AfterValueGap(p: seq<byte>, s: seq<byte>, i: nat, open: seq<Frame>)
    requires Extends(p, s) && i <= |p|
    requires Skip(p, i, open, CommaOrClose) == Cut(true) && Skip(s, i, open, CommaOrClose).Ok?
    ensures ResumesNumber(p, s)
    decreases |p| - i, 1
  {
    hide Space, Entry, Element;
    SpaceStable(p, s, i);
    var j := Space(p, i);
    if p[j] == COMMA {
      SkipGap(p, s, j + 1, open, if open[0].InArray? then AnyValue else NextKey);
    } else {
      SkipGap(p, s, j + 1, open[1..], CommaOrClose);
    }
  }

  lemma {:induction false} EntryGap(p: seq<byte>, s: seq<byte>, i: nat, open: seq<Frame>)
    requires Extends(p, s) && i < |p| && Space(p, i) == i && Space(s, i) == i
    requires Entry(p, i, open) == Cut(true) && Entry(s, i, open).Ok?
    ensures ResumesNumber(p, s)
    decreases |p| - i, 0
  {
    hide Key, Colon;
    KeyStable(p, s, i);
    var j := Key(p, i).next;
    ColonStable(p, s, j);
    SkipGap(p, s, Colon(p, j).next, open, AnyValue);
  }

  lemma {:induction false} ElementGap(p: seq<byte>, s: seq<byte>, i: nat, open: seq<Frame>)
    requires Extends(p, s) && i < |p| && Space(p, i) == i && Space(s, i) == i
    requires Element(p, i, open) == Cut(true) && Element(s, i, open).Ok?
    ensures ResumesNumber(p, s)
    decreases |p| - i, 0
  {
    hide Scalar;
    if p[i] == OPEN_BRACKET {
      SkipGap(p, s, i + 1, [InArray] + open, ValueOrClose);
    } else if p[i] == OPEN_BRACE {
      SkipGap(p, s, i + 1, [InObject] + open, KeyOrClose);
    } else {
      ScalarGap(p, s, i);
      if Scalar(p, i).Ok? {
        var j := Scalar(p, i).next;
        NothingToSkip(p, open);
        ScalarStable(p, s, i);
        SkipGap(p, s, j, open, CommaOrClose);
      }
    }
  }

  lemma NothingToSkip(p: seq<byte>, open: seq<Frame>)
    ensures Skip(p, |p|, open, CommaOrClose) != Cut(true)
  {
  }

  lemma ScalarGap(p: seq<byte>, s: seq<byte>, i: nat)
    requires Extends(p, s) && i < |p|
    ensures Scalar(p, i) == Cut(true) && Scalar(s, i).Ok? ==> ResumesNumber(p, s)
  {
    hide Word, Str, Num;
    if Scalar(p, i) == Cut(true) && Scalar(s, i).Ok? { NumGap(p, s, i); }
  }
}
