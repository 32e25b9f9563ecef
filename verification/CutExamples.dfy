/** Concrete cuts that change what is read: each one shows that a condition of `Chunking` or `PlainBodies` is needed. */
module CutExamples {
  import opened Bytes
  import opened Recognizer
  import opened TokenUsages
  import opened UsageProbe
  import opened CandidateSplit
  import opened UsageScanning
  import opened Feeding
  import opened Events
  import opened SingleCuts

  // ---- a space in a key ----

  // `{" usage":{}}`, and the same text without the space.
  const SPACED: seq<byte> := [123, 34, 32, 117, 115, 97, 103, 101, 34, 58, 123, 125, 125]
  const CLOSED_UP: seq<byte> := [123, 34, 117, 115, 97, 103, 101, 34, 58, 123, 125, 125]

  lemma SpacedKey() returns (key: seq<Code>)
    ensures MemberKey(SPACED, 1, true) == Ok(Some(key), 9) && |key| == 6
  {
    var s := SPACED;
    assert Str(s, 8) == Ok([], 9);
    assert Str(s, 6).Ok? && Str(s, 6).next == 9 && |Str(s, 6).value| == 2;
    assert Str(s, 4).Ok? && Str(s, 4).next == 9 && |Str(s, 4).value| == 4;
    assert Str(s, 2).Ok? && Str(s, 2).next == 9 && |Str(s, 2).value| == 6;
    key := Str(s, 2).value;
  }

  lemma SpacedHasNoUsage()
    ensures Classify(SPACED) == Done(None)
  {
    hide Str;
    var s := SPACED;
    var acc := ResponseFields(None);
    var key := SpacedKey();
    assert |USAGE| == 5;
    assert Colon(s, 9) == Ok((), 10);
    assert Skip(s, 11, [InObject], KeyOrClose) == Ok((), 12);
    assert Element(s, 10, []) == Ok((), 12);
    assert Member(s, 10, key, acc) == Ok(acc, 12);
    assert MemberKey(s, 12, false) == Ok(None, 13);
    assert Members(s, 12, false, acc) == Ok(acc, 13);
    assert Members(s, 1, true, acc) == Ok(acc, 13);
  }

  lemma ClosedUpKey()
    ensures MemberKey(CLOSED_UP, 1, true) == Ok(Some(USAGE), 8)
  {
    var s := CLOSED_UP;
    assert Str(s, 7) == Ok([], 8);
    assert Str(s, 5).Ok? && Str(s, 5).next == 8 && Str(s, 5).value == [103, 101];
    assert Str(s, 3).Ok? && Str(s, 3).next == 8 && Str(s, 3).value == [115, 97, 103, 101];
    assert Str(s, 2).Ok? && Str(s, 2).next == 8 && Str(s, 2).value == [117, 115, 97, 103, 101];
    assert USAGE == [117, 115, 97, 103, 101];
  }

  lemma ClosedUpHasUsage()
    ensures Classify(CLOSED_UP) == Done(Some(FromBody(NO_USAGE)))
  {
    hide Str;
    var s := CLOSED_UP;
    var acc := ResponseFields(None);
    var inner := UsageFields(NO_USAGE, {});
    ClosedUpKey();
    assert Colon(s, 8) == Ok((), 9);
    assert MemberKey(s, 10, true) == Ok(None, 11);
    assert Members(s, 10, true, inner) == Ok(inner, 11);
    assert Nested(s, 9, inner) == Ok(inner, 11);
    var found := ResponseFields(Some(FromBody(NO_USAGE)));
    assert Member(s, 9, USAGE, acc) == Ok(found, 11);
    assert MemberKey(s, 11, false) == Ok(None, 12);
    assert Members(s, 11, false, found) == Ok(found, 12);
    assert Members(s, 1, true, acc) == Ok(found, 12);
  }

  lemma MarkerStart(data: seq<byte>, k: nat)
    requires OccursAt(data, MARKER, k)
    ensures data[k] == MARKER[0]
  {
    assert data[k] == data[k..k + |MARKER|][0];
  }

  lemma NoMarkerIn(data: seq<byte>)
    requires forall k | 0 <= k < |data| :: data[k] != MARKER[0]
    ensures !HasMarker(data)
  {
    if HasMarker(data) {
      var k := Find(data, MARKER).value;
      MarkerStart(data, k);
      assert false;
    }
  }

  lemma SpacedInOneFrame()
    ensures Push(EMPTY, SPACED) == EMPTY
  {
    hide Classify, Find, Trim;
    NoMarkerIn(SPACED);
    SpacedHasNoUsage();
    TrimCore(SPACED);
    SplitUnmarked(SPACED);
    OfferOne(EMPTY, SPACED);
    assert [] + SPACED == SPACED;
  }

  lemma SpacedStart()
    ensures Push(EMPTY, SPACED[..3]) == State(CLOSED_UP[..2], None)
  {
    hide Classify, Find, Trim;
    var frame, held := SPACED[..3], CLOSED_UP[..2];
    NoMarkerIn(frame);
    assert frame == held + [SPACE];
    TrimIgnoresBlank(held, [SPACE]);
    TrimCore(held);
    SplitUnmarked(frame);
    OfferOne(EMPTY, held);
    assert [] + held == held;
    ClosedUpHasUsage();
    PrefixViability(CLOSED_UP, 2);
  }

  lemma SpacedEnd()
    ensures Push(State(CLOSED_UP[..2], None), SPACED[3..]) == State([], Some(FromBody(NO_USAGE)))
  {
    hide Classify, Find, Trim, Push, SplitClosed, OfferAll;
    var frame, st := SPACED[3..], State(CLOSED_UP[..2], None);
    NoMarkerIn(frame);
    PushOpen(st, frame);
    assert frame[..|frame|] == frame && frame[|frame|..] == [];
    NothingLeft(Offer(st, frame));
    assert CLOSED_UP[..2] + frame == CLOSED_UP;
    ClosedUpHasUsage();
  }

  /**
   A first fragment that ends in whitespace is trimmed, also inside a string: cut after its space, the key ` usage`
   turns into `usage`, and a body without any usage is read as having one.
   */
  lemma TrimmedFragmentChangesUsage()
    ensures
      var a, b := SPACED[..3], SPACED[3..];
      && Push(EMPTY, a + b) == EMPTY
      && PushAll(EMPTY, [a, b]) == State([], Some(FromBody(NO_USAGE)))
  {
    hide Classify, Push, PushAll;
    var a, b := SPACED[..3], SPACED[3..];
    assert a + b == SPACED;
    SpacedInOneFrame();
    SpacedStart();
    SpacedEnd();
    TwoPushes(a, b);
  }

  // ---- a payload that is no JSON ----

  const UNKNOWN_TEXT: seq<byte> := [120, SPACE] + CLOSED_UP  // x {"usage":{}}
  const BLANK_LINE: seq<byte> := [NEWLINE, NEWLINE]

  lemma ClosedUpIsTight()
    ensures Trim(CLOSED_UP) == CLOSED_UP && OneLine(CLOSED_UP) && !HasMarker(CLOSED_UP) && |CLOSED_UP| == 12
  {
    hide Find, Trim;
    TrimCore(CLOSED_UP);
    NoMarkerIn(CLOSED_UP);
    forall k: nat ensures !OccursAt(CLOSED_UP, LINE_END, k) {
      if OccursAt(CLOSED_UP, LINE_END, k) { NewlineAt(CLOSED_UP, k); }
    }
    FindNothing(CLOSED_UP, LINE_END);
  }

  lemma UnknownIsDropped(more: seq<byte>)
    ensures Offer(EMPTY, Trim([120] + more)) == EMPTY
  {
    hide Classify, Trim;
    EmptyIsOpen();
    FirstIsJunk([120] + more);
    OfferJunk(EMPTY, [120] + more);
  }

  lemma OneLetterIsOneLine(b: byte)
    requires b != NEWLINE
    ensures OneLine([b])
  {
    hide Find;
    forall k: nat ensures !OccursAt([b], LINE_END, k) {
      if OccursAt([b], LINE_END, k) { NewlineAt([b], k); }
    }
    FindNothing([b], LINE_END);
  }

  /** The payload `x {"usage":{}}` has no usage; cut behind its space, the rest is read as an object that has one. */
  lemma CutInventsUsage()
    ensures
      var first, second := MARKER + [SPACE] + [120] + [SPACE], CLOSED_UP + BLANK_LINE;
      && first + second == BlockText(Data([SPACE], UNKNOWN_TEXT, BLANK_LINE))
      && Push(EMPTY, first + second) == EMPTY
      && PushAll(EMPTY, [first, second]) == State([], Some(FromBody(NO_USAGE)))
  {
    hide Classify, Trim, Find, Push, PushAll, OneLine, Offer;
    var first, second := MARKER + [SPACE] + [120] + [SPACE], CLOSED_UP + BLANK_LINE;
    EmptyIsOpen();
    ClosedUpIsTight();
    OneLetterIsOneLine(SPACE);
    OneLetterIsOneLine(120);
    UnknownIsOneLine();
    StartPiece(EMPTY, [SPACE], UNKNOWN_TEXT, BLANK_LINE);
    assert first + second == MARKER + [SPACE] + UNKNOWN_TEXT + BLANK_LINE;
    UnknownIsDropped([SPACE] + CLOSED_UP);
    assert [120] + ([SPACE] + CLOSED_UP) == UNKNOWN_TEXT;
    StartPiece(EMPTY, [SPACE], [120], [SPACE]);
    UnknownIsDropped([]);
    assert [120] + [] == [120];
    BlanksUnmarked(BLANK_LINE);
    FindMarkerJoin(CLOSED_UP, BLANK_LINE);
    assert [] + CLOSED_UP + BLANK_LINE == second;
    FirstFragment(EMPTY, [], CLOSED_UP, BLANK_LINE);
    OfferClosedUp();
    TwoPushes(first, second);
  }

  lemma UnknownIsOneLine()
    ensures OneLine(UNKNOWN_TEXT)
  {
    hide OneLine;
    ClosedUpIsTight();
    OneLetterIsOneLine(120);
    OneLetterIsOneLine(SPACE);
    NoLineEndJoin([120], [SPACE]);
    assert [120, SPACE] == [120] + [SPACE];
    NoLineEndJoin([120, SPACE], CLOSED_UP);
  }

  lemma OfferClosedUp()
    ensures Offer(EMPTY, CLOSED_UP) == State([], Some(FromBody(NO_USAGE)))
  {
    hide Classify;
    ClosedUpHasUsage();
    assert [] + CLOSED_UP == CLOSED_UP;
  }

  // ---- a line that is cut in front of its last letter ----

  // `event: completio`, and the rest of the line.
  const LINE_START: seq<byte> := [101, 118, 101, 110, 116, 58, 32, 99, 111, 109, 112, 108, 101, 116, 105, 111]
  const LINE_REST: seq<byte> := [LOWER_N, NEWLINE]

  lemma LetterIsOpen()
    ensures Classify([LOWER_N]) == Eof
  {
    hide Members, Str, Num;
    var s: seq<byte> := [LOWER_N];
    assert Space(s, 0) == 0;
    assert Scalar(s, 0) == Cut(false);
  }

  lemma LetterIsHeld()
    ensures Classify([LOWER_N]) == Eof && Trim(LINE_REST) == [LOWER_N]
  {
    hide Classify, Trim;
    var s: seq<byte> := [LOWER_N];
    LetterIsOpen();
    TrimIgnoresBlank(s, [NEWLINE]);
    TrimCore(s);
    assert LINE_REST == s + [NEWLINE];
  }

  lemma LetterSpoilsObject(text: seq<byte>)
    requires text != [] && text[0] == OPEN_BRACE
    ensures Classify([LOWER_N] + text) == Rejected
  {
    var s := [LOWER_N] + text;
    assert Space(s, 0) == 0 && s[1] == OPEN_BRACE;
    assert Scalar(s, 0).Bad?;
  }

  /**
   The line `event: completion` cut in front of its last letter: the letter is held as the start of `null`, and whatever
   event comes next is glued to it and lost.
   */
  lemma LineCutLosesEvent(b: Block)
    requires WellFormed(b) && IsUsable(b)
    ensures PushAll(EMPTY, [LINE_START, LINE_REST, BlockText(b)]) == EMPTY
  {
    hide Classify, Trim, Find, Push, Offer, OfferAll, SplitClosed, OneLine, IsUseless, HasMarker, BlockText, IsObject;
    EmptyIsOpen();
    LettersUnmarked();
    FirstIsJunk(LINE_START);
    JunkIsIdle(EMPTY, LINE_START);
    LetterIsHeld();
    PushUnmarked(EMPTY, LINE_REST);
    OfferLetter();
    var held := State([LOWER_N], None);
    EventAfterLetter(held, b);
    ThreePushes(LINE_START, LINE_REST, BlockText(b));
  }

  lemma LettersUnmarked()
    ensures !HasMarker(LINE_START) && !HasMarker(LINE_REST) && StartsNoObject(LINE_START[0])
  {
    NoMarkerIn(LINE_START);
    NoMarkerIn(LINE_REST);
  }

  lemma OfferLetter()
    ensures Offer(EMPTY, [LOWER_N]) == State([LOWER_N], None)
  {
    hide Classify;
    LetterIsHeld();
    assert [] + [LOWER_N] == [LOWER_N];
  }

  lemma EventAfterLetter(held: State, b: Block)
    requires held == State([LOWER_N], None) && WellFormed(b) && IsUsable(b)
    ensures Push(held, BlockText(b)) == EMPTY
  {
    hide Classify, Trim, Find, Offer, OfferAll, SplitClosed, OneLine, IsUseless, IsObject;
    LetterIsHeld();
    assert Inv(held);
    ObjectIsBraced(b.text);
    var line := b.lead + b.text;
    assert BlockText(b) == MARKER + line + b.end;
    assert BlockText(b)[0..|MARKER|] == MARKER;
    PushAtMarker(held, BlockText(b));
    NoLineEndJoin(b.lead, b.text);
    assert BlockText(b) + [] == BlockText(b);
    LineThenMore(held, line, b.end, []);
    TrimSkipsBlank(b.lead, b.text);
    LetterSpoilsObject(b.text);
    OfferSpoiled(b.text);
    NothingLeft(EMPTY);
  }

  lemma OfferSpoiled(text: seq<byte>)
    requires Classify([LOWER_N] + text) == Rejected
    ensures Offer(State([LOWER_N], None), text) == EMPTY
  {
    hide Classify;
  }

  lemma ThreePushes(a: seq<byte>, b: seq<byte>, c: seq<byte>)
    ensures PushAll(EMPTY, [a, b, c]) == Push(Push(Push(EMPTY, a), b), c)
  {
    hide Push;
    assert [a, b, c][1..] == [b, c] && [b, c][1..] == [c] && [c][1..] == [];
    assert PushAll(Push(Push(EMPTY, a), b), [c]) == Push(Push(Push(EMPTY, a), b), c);
    assert PushAll(Push(EMPTY, a), [b, c]) == PushAll(Push(Push(EMPTY, a), b), [c]);
  }
}
