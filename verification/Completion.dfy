/**
 Which rejected buffers could still have become usable objects: exactly those that stop inside a skipped number. Such
 a buffer is completed by a zero and the closing brackets of everything that is open.
 */
module Completion {
  import opened Bytes
  import opened Decimals
  import opened Recognizer
  import opened TokenUsages
  import opened UsageProbe

  /** What closes the open brackets, innermost first. */
  function Closers(open: seq<Frame>): (text: seq<byte>)
    ensures |text| == |open|
  {
    if open == [] then [] else [Closer(open[0])] + Closers(open[1..])
  }

  lemma {:induction false} ClosersClose(s: seq<byte>, i: nat, open: seq<Frame>)
    requires i + |open| <= |s| && s[i..i + |open|] == Closers(open)
    ensures Skip(s, i, open, CommaOrClose) == Ok((), i + |open|)
    decreases |open|
  {
    hide Recognizer.Entry, Element;
    if open != [] {
      assert s[i] == Closers(open)[0] == Closer(open[0]);
      assert Space(s, i) == i;
      assert s[i + 1..i + |open|] == Closers(open)[1..];
      ClosersClose(s, i + 1, open[1..]);
    }
  }

  // ---- a zero finishes a number that was cut in a gap ----

  /** `s` goes on after `p` with a zero and a byte that ends a number. */
  ghost predicate AddsZero(p: seq<byte>, s: seq<byte>) {
    && Extends(p, s) && |p| + 1 < |s| && s[|p|] == ZERO
    && (s[|p| + 1] == CLOSE_BRACKET || s[|p| + 1] == CLOSE_BRACE)
  }

  lemma ExponentResumes(p: seq<byte>, s: seq<byte>, i: nat)
    requires AddsZero(p, s) && i < |p| && (p[i] == LOWER_E || p[i] == UPPER_E)
    requires Exponent(p, i).Cut?
    ensures Exponent(s, i) == Ok((), |p| + 1)
  {
    assert Digits(s, |p|) == |p| + 1;
  }

  lemma FractionResumes(p: seq<byte>, s: seq<byte>, i: nat)
    requires AddsZero(p, s) && i < |p| && p[i] == DOT
    requires Fraction(p, i).Cut?
    ensures Fraction(s, i) == Ok((), |p| + 1)
  {
    if i + 1 == |p| {
      assert Digits(s, |p|) == |p| + 1;
    } else {
      DigitsStable(p, s, i + 1);
      ExponentResumes(p, s, Digits(p, i + 1));
    }
  }

  lemma NumResumes(p: seq<byte>, s: seq<byte>, i: nat)
    requires AddsZero(p, s) && i < |p| && Num(p, i).Cut?
    ensures Num(s, i).Ok? && Num(s, i).next == |p| + 1
  {
    hide Magnitude, Digits, Exponent, Fraction;
    var a := if p[i] == MINUS then i + 1 else i;
    if a < |p| {
      DigitsStable(p, s, a);
      var b := if p[a] == ZERO then a + 1 else Digits(p, a);
      if p[b] == DOT { FractionResumes(p, s, b); } else { ExponentResumes(p, s, b); }
    }
  }

  lemma ScalarResumes(p: seq<byte>, s: seq<byte>, i: nat)
    requires AddsZero(p, s) && i < |p| && Scalar(p, i) == Cut(true)
    ensures Scalar(s, i) == Ok((), |p| + 1)
  {
    hide Word, Str, Num;
    NumResumes(p, s, i);
  }

  // ---- the skipper and the member loop, completed ----

  /** `d` starts like the end of the enclosing object. */
  predicate ClosesObject(d: seq<byte>) {
    d != [] && d[0] == CLOSE_BRACE
  }

  lemma {:induction false} SkipCompletes(p: seq<byte>, i: nat, open: seq<Frame>, due: Due, d: seq<byte>)
    returns (c: seq<byte>)
    requires i <= |p| && Skip(p, i, open, due) == Cut(true) && ClosesObject(d)
    ensures Skip(p + c + d, i, open, due) == Ok((), |p + c|)
    decreases |p| - i, 2
  {
    hide Space, Entry, Element;
    var j := Space(p, i);
    if due.CommaOrClose? {
      c := AfterValueCompletes(p, i, open, d);
    } else if open != [] && due.KeyOrClose? && p[j] == CLOSE_BRACE {
      c := SkipCompletes(p, j + 1, open[1..], CommaOrClose, d);
    } else if open != [] && due.ValueOrClose? && p[j] == CLOSE_BRACKET {
      c := SkipCompletes(p, j + 1, open[1..], CommaOrClose, d);
    } else if due.KeyOrClose? || due.NextKey? {
      c := EntryCompletes(p, j, open, d);
    } else {
      c := ElementCompletes(p, j, open, d);
    }
    SpaceStable(p, p + c + d, i);
  }

  lemma {:induction false} AfterValueCompletes(p: seq<byte>, i: nat, open: seq<Frame>, d: seq<byte>)
    returns (c: seq<byte>)
    requires i <= |p| && Skip(p, i, open, CommaOrClose) == Cut(true) && ClosesObject(d)
    ensures Skip(p + c + d, i, open, CommaOrClose) == Ok((), |p + c|)
    decreases |p| - i, 1
  {
    hide Space, Entry, Element;
    var j := Space(p, i);
    if p[j] == COMMA {
      c := SkipCompletes(p, j + 1, open, if open[0].InArray? then AnyValue else NextKey, d);
    } else {
      c := SkipCompletes(p, j + 1, open[1..], CommaOrClose, d);
    }
    SpaceStable(p, p + c + d, i);
  }

  lemma {:induction false} EntryCompletes(p: seq<byte>, i: nat, open: seq<Frame>, d: seq<byte>)
    returns (c: seq<byte>)
    requires i < |p| && Space(p, i) == i && Entry(p, i, open) == Cut(true) && ClosesObject(d)
    ensures Space(p + c + d, i) == i && Entry(p + c + d, i, open) == Ok((), |p + c|)
    decreases |p| - i, 0
  {
    hide Key, Colon, Skip;
    var j := Key(p, i).next;
    c := SkipCompletes(p, Colon(p, j).next, open, AnyValue, d);
    var s := p + c + d;
    SpaceStable(p, s, i);
    KeyStable(p, s, i);
    ColonStable(p, s, j);
  }

  lemma {:induction false} ElementCompletes(p: seq<byte>, i: nat, open: seq<Frame>, d: seq<byte>)
    returns (c: seq<byte>)
    requires i < |p| && Space(p, i) == i && Element(p, i, open) == Cut(true) && ClosesObject(d)
    ensures Space(p + c + d, i) == i && Element(p + c + d, i, open) == Ok((), |p + c|)
    decreases |p| - i, 0
  {
    hide Scalar, Skip;
    if p[i] == OPEN_BRACKET {
      c := SkipCompletes(p, i + 1, [InArray] + open, ValueOrClose, d);
    } else if p[i] == OPEN_BRACE {
      c := SkipCompletes(p, i + 1, [InObject] + open, KeyOrClose, d);
    } else if Scalar(p, i).Ok? {
      NothingToSkip(p, open);
      c := SkipCompletes(p, Scalar(p, i).next, open, CommaOrClose, d);
      ScalarStable(p, p + c + d, i);
    } else {
      c := [ZERO] + Closers(open);
      ZeroAndClosers(p, open, d);
      ScalarResumes(p, p + c + d, i);
    }
    SpaceStable(p, p + c + d, i);
  }

  lemma ZeroAndClosers(p: seq<byte>, open: seq<Frame>, d: seq<byte>)
    requires ClosesObject(d)
    ensures
      var c := [ZERO] + Closers(open);
      var s := p + c + d;
      AddsZero(p, s) && Skip(s, |p| + 1, open, CommaOrClose) == Ok((), |p + c|)
  {
    hide Skip;
    var c := [ZERO] + Closers(open);
    var s := p + c + d;
    assert s[|p| + 1..|p| + 1 + |open|] == Closers(open);
    assert open == [] ==> s[|p| + 1] == d[0];
    assert open != [] ==> s[|p| + 1] == Closers(open)[0];
    ClosersClose(s, |p| + 1, open);
  }

  lemma {:induction false} NestedCompletes(p: seq<byte>, i: nat, blank: Fields, d: seq<byte>) returns (c: seq<byte>)
    requires i <= |p| && Nested(p, i, blank) == Cut(true)
    ensures Nested(p + c + d, i, blank).Ok? && Nested(p + c + d, i, blank).next == |p + c|
    decreases |p| - i, 1
  {
    hide Members, Scalar;
    c := MembersComplete(p, Space(p, i) + 1, true, blank, d);
    SpaceStable(p, p + c + d, i);
  }

  lemma {:induction false} MemberCompletes(p: seq<byte>, i: nat, key: seq<Code>, acc: Fields, d: seq<byte>)
    returns (c: seq<byte>)
    requires i <= |p| && Member(p, i, key, acc) == Cut(true) && ClosesObject(d)
    ensures Member(p + c + d, i, key, acc).Ok? && Member(p + c + d, i, key, acc).next == |p + c|
    decreases |p| - i, 2
  {
    hide Skip, Counter, Nested, Word;
    match acc
    case ResponseFields(_) =>
      if key != USAGE {
        c := SkipCompletes(p, i, [], AnyValue, d);
      } else {
        NestedAtEnd(p, UsageFields(NO_USAGE, {}));
        c := NestedCompletes(p, i, UsageFields(NO_USAGE, {}), d);
        SpaceStable(p, p + c + d, i);
      }
    case UsageFields(body, seen) =>
      if key == PROMPT_DETAILS || key == COMPLETION_DETAILS {
        c := NestedCompletes(p, i, DetailFields(NO_DETAILS, {}), d);
      } else {
        c := SkipCompletes(p, i, [], AnyValue, d);
      }
    case DetailFields(details, seen) => c := SkipCompletes(p, i, [], AnyValue, d);
  }

  lemma {:induction false} MembersComplete(p: seq<byte>, i: nat, first: bool, acc: Fields, d: seq<byte>)
    returns (c: seq<byte>)
    requires i <= |p| && Members(p, i, first, acc) == Cut(true)
    ensures Members(p + c + d, i, first, acc).Ok? && Members(p + c + d, i, first, acc).next == |p + c|
    decreases |p| - i, 0
  {
    hide MemberKey, MembersFrom;
    match MemberKey(p, i, first)
    case Ok(Some(key), j) =>
      c := MembersFromComplete(p, j, key, acc, d);
      MemberKeyStable(p, p + c + d, i, first);
  }

  lemma {:induction false} MembersFromComplete(p: seq<byte>, i: nat, key: seq<Code>, acc: Fields, d: seq<byte>)
    returns (c: seq<byte>)
    requires i <= |p| && MembersFrom(p, i, key, acc) == Cut(true)
    ensures MembersFrom(p + c + d, i, key, acc).Ok? && MembersFrom(p + c + d, i, key, acc).next == |p + c|
    decreases |p| - i, 3
  {
    hide Members, Colon, Member;
    var j := Colon(p, i).next;
    var value := Member(p, j, key, acc);
    if value.Ok? {
      MembersAtEnd(p, value.value);
      c := MembersComplete(p, value.next, false, value.value, d);
      MemberStable(p, p + c + d, j, key, acc);
    } else {
      var inner := MemberCompletes(p, j, key, acc, [CLOSE_BRACE] + d);
      c := inner + [CLOSE_BRACE];
      assert p + c + d == p + inner + ([CLOSE_BRACE] + d);
      MembersClose(p + c + d, |p + inner|, Member(p + c + d, j, key, acc).value);
    }
    ColonStable(p, p + c + d, i);
  }

  lemma MembersClose(s: seq<byte>, i: nat, acc: Fields)
    requires i < |s| && s[i] == CLOSE_BRACE
    ensures Members(s, i, false, acc) == Ok(acc, i + 1)
  {
    hide Key, MembersFrom;
    assert Space(s, i) == i;
  }

  lemma GapCompletes(p: seq<byte>) returns (s: seq<byte>)
    requires InNumberGap(p)
    ensures Extends(p, s) && Classify(s).Done?
  {
    hide Members, Scalar;
    var j := Space(p, 0);
    var acc := ResponseFields(Bytes.None);
    var c := MembersComplete(p, j + 1, true, acc, []);
    s := p + c + [];
    SpaceStable(p, s, 0);
    assert Space(s, |p + c|) == |s|;
  }

  /**
   A rejected buffer can still be continued to a usable object exactly when it stops inside a skipped number. A buffer
   that does not end in a sign, a point or an exponent letter never does, so its rejection is final.
   */
  lemma RejectedIsFinal(p: seq<byte>)
    requires Classify(p).Rejected?
    ensures InNumberGap(p) <==> exists s :: Extends(p, s) && Classify(s).Done?
    ensures !EndsInGap(p) ==> forall s | Extends(p, s) :: !Classify(s).Done?
  {
    hide Parse;
    if InNumberGap(p) {
      var s := GapCompletes(p);
    } else {
      forall s | Extends(p, s) ensures !Classify(s).Done? {
        BadIsFinal(p, s);
      }
    }
  }
}
