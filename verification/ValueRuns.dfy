/**
 Taking a run of blanks out of a string. In a value this changes nothing the probe looks at, and neither does it in a
 key, unless the key becomes one of the names the probe looks for.
 */
module ValueRuns {
  import opened Bytes
  import opened Recognizer
  import opened UsageProbe
  import opened JsonGrammar
  import opened ProbeMeaning
  import opened BlankRuns
  import opened Shapes

  // ---- the string around a position ----

  /** Behind the closing quote of the string that position `k` is in. */
  function StringStop(s: seq<byte>, k: nat): (j: nat)
    requires k <= |s|
    ensures k <= j <= |s|
    decreases |s| - k
  {
    if k == |s| || LexAt(s, k) == Outside then k else StringStop(s, k + 1)
  }

  /** Behind the opening quote of the string that position `k` is in. */
  function StringStart(s: seq<byte>, k: nat): (i: nat)
    requires k <= |s|
    ensures i <= k
  {
    if k == 0 || LexAt(s, k - 1) == Outside then k else StringStart(s, k - 1)
  }

  predicate ColonFollows(s: seq<byte>, k: nat)
    requires k <= |s|
  {
    var j := Space(s, k);
    j < |s| && s[j] == COLON
  }

  /** The closed-up string is one of the names the probe looks for. */
  predicate BecomesName(s: seq<byte>, a: nat, b: nat)
    requires a <= b <= |s|
  {
    var text := Str(ClosedUp(s, a, b), StringStart(s, a));
    text.Ok? && IsName(text.value)
  }

  /** The run is outside strings, in a value, or in a key that does not become a name when it is taken out. */
  predicate IsHarmless(s: seq<byte>, a: nat, b: nat)
    requires a <= b <= |s|
  {
    LexAt(s, a) == Outside || !ColonFollows(s, StringStop(s, a)) || !BecomesName(s, a, b)
  }

  lemma EscapeInside(s: seq<byte>, i: nat, m: nat)
    requires i <= |s| && Escape(s, i).Ok? && LexAt(s, i) == Escaped && i <= m <= Escape(s, i).next
    ensures LexAt(s, m) != Outside
  {
    hide LexAt, Escape;
    EscapeBytes(s, i);
    LexStep(s, i);
    if s[i] == LOWER_U {
      LexStep(s, i + 1);
      LexStep(s, i + 2);
      LexStep(s, i + 3);
      LexStep(s, i + 4);
    }
  }

  lemma {:induction false} StrInside(s: seq<byte>, i: nat, m: nat)
    requires i <= |s| && Str(s, i).Ok? && LexAt(s, i) == Inside && i <= m < Str(s, i).next
    ensures LexAt(s, m) != Outside
    decreases |s| - i
  {
    hide LexAt, Escape;
    if i < m {
      LexStep(s, i);
      if s[i] == BACKSLASH {
        var j := Escape(s, i + 1).next;
        if m <= j {
          EscapeInside(s, i + 1, m);
        } else {
          EscapeLex(s, i + 1);
          StrInside(s, j, m);
        }
      } else {
        StrInside(s, i + 1, m);
      }
    }
  }

  lemma StrEnds(s: seq<byte>, i: nat)
    requires i <= |s| && Str(s, i).Ok? && LexAt(s, i) == Inside
    ensures LexAt(s, Str(s, i).next) == Outside
  {
    hide LexAt, Str;
    StrMoves(s, i, i, i);
  }

  lemma {:induction false} StopIs(s: seq<byte>, i: nat, m: nat)
    requires i <= |s| && Str(s, i).Ok? && LexAt(s, i) == Inside && i <= m < Str(s, i).next
    ensures StringStop(s, m) == Str(s, i).next
    decreases |s| - m
  {
    hide LexAt, Str;
    StrInside(s, i, m);
    if m + 1 < Str(s, i).next { StopIs(s, i, m + 1); } else { StrEnds(s, i); }
  }

  lemma {:induction false} StartIs(s: seq<byte>, i: nat, m: nat)
    requires 0 < i <= |s| && Str(s, i).Ok? && LexAt(s, i - 1) == Outside && LexAt(s, i) == Inside
    requires i <= m < Str(s, i).next
    ensures StringStart(s, m) == i
  {
    hide LexAt, Str;
    if i < m {
      StrInside(s, i, m - 1);
      StartIs(s, i, m - 1);
    }
  }

  // ---- keys ----

  lemma {:induction false} StrHasSpace(s: seq<byte>, i: nat, a: nat)
    requires i <= |s| && Str(s, i).Ok? && LexAt(s, i) == Inside && i <= a < Str(s, i).next && IsJsonSpace(s[a])
    ensures exists k :: 0 <= k < |Str(s, i).value| && Str(s, i).value[k] == SPACE
    decreases |s| - i
  {
    hide LexAt, Escape;
    LexStep(s, i);
    var value := Str(s, i).value;
    if i == a {
      assert value[0] == SPACE;
    } else {
      var next := i + 1;
      if s[i] == BACKSLASH {
        EscapeBytes(s, i + 1);
        EscapeLex(s, i + 1);
        next := Escape(s, i + 1).next;
      }
      StrHasSpace(s, next, a);
      var k :| 0 <= k < |Str(s, next).value| && Str(s, next).value[k] == SPACE;
      assert value[k + 1] == SPACE;
    }
  }

  predicate HasNoSpace(text: string) {
    forall k | 0 <= k < |text| :: text[k] != ' '
  }

  lemma NamesHaveNoSpace(key: seq<Code>, k: nat)
    requires IsName(key) && k < |key|
    ensures key[k] != SPACE
  {
    assert HasNoSpace("usage") && HasNoSpace("prompt_tokens") && HasNoSpace("completion_tokens");
    assert HasNoSpace("total_tokens") && HasNoSpace("prompt_tokens_details");
    assert HasNoSpace("completion_tokens_details") && HasNoSpace("cached_tokens") && HasNoSpace("reasoning_tokens");
  }

  lemma SpacedIsNoName(s: seq<byte>, i: nat, a: nat)
    requires i <= |s| && Str(s, i).Ok? && LexAt(s, i) == Inside && i <= a < Str(s, i).next && IsJsonSpace(s[a])
    ensures !IsName(Str(s, i).value)
  {
    hide LexAt, Str, IsName;
    StrHasSpace(s, i, a);
    var k :| 0 <= k < |Str(s, i).value| && Str(s, i).value[k] == SPACE;
    if IsName(Str(s, i).value) { NamesHaveNoSpace(Str(s, i).value, k); }
  }

  lemma KeyShape(s: seq<byte>, a: nat, b: nat, i: nat)
    requires BlankRun(s, a, b) && a < b && IsHarmless(s, a, b)
    requires i <= |s| && Clear(a, b, i) && LexAt(s, i) == Outside
    requires Key(s, i).Ok? && Colon(s, Key(s, i).next).Ok?
    ensures
      var t, k := ClosedUp(s, a, b), Moved(a, b, i);
      k <= |t| && Key(t, k).Ok? && ShapeKey(Key(t, k).value) == ShapeKey(Key(s, i).value)
  {
    hide LexAt, ClosedUp, Str, IsName, StringStop, StringStart;
    RunByte(s, a, b, a);
    SpaceMoves(s, a, b, i);
    MarkMoves(s, a, b, i);
    var start := Space(s, i) + 1;
    StrMoves(s, a, b, start);
    if start <= a < Str(s, start).next {
      StrInside(s, start, a);
      StopIs(s, start, a);
      StartIs(s, start, a);
      SpacedIsNoName(s, start, a);
    }
  }

  // ---- documents ----

  /** The run is taken out, `i` is a place outside strings, and nothing the probe looks for appears. */
  ghost predicate Ready(s: seq<byte>, a: nat, b: nat, i: nat) {
    BlankRun(s, a, b) && a < b && IsHarmless(s, a, b) && i <= |s| && Clear(a, b, i) && LexAt(s, i) == Outside
  }

  lemma ReadyIs(s: seq<byte>, a: nat, b: nat, i: nat)
    requires Ready(s, a, b, i)
    ensures BlankRun(s, a, b) && a < b <= |s| && IsHarmless(s, a, b) && i <= |s| && Clear(a, b, i)
    ensures LexAt(s, i) == Outside
  {
    hide IsHarmless, LexAt;
  }

  lemma ReadyAt(s: seq<byte>, a: nat, b: nat, i: nat, j: nat)
    requires Ready(s, a, b, i) && j <= |s| && Clear(a, b, j) && LexAt(s, j) == Outside
    ensures Ready(s, a, b, j)
  {
    hide IsHarmless, LexAt;
  }

  /** Behind one byte of punctuation and the blanks before it. */
  lemma ReadyBehind(s: seq<byte>, a: nat, b: nat, i: nat)
    requires Ready(s, a, b, i) && Space(s, i) < |s| && s[Space(s, i)] != QUOTE
    ensures Ready(s, a, b, Space(s, i) + 1) && Moved(a, b, Space(s, i) + 1) == Moved(a, b, Space(s, i)) + 1
    ensures
      var t, k := ClosedUp(s, a, b), Moved(a, b, i);
      && k <= |t| && Space(t, k) == Moved(a, b, Space(s, i)) < |t| && t[Space(t, k)] == s[Space(s, i)]
      && Moved(a, b, Space(s, i)) + 1 <= |t|
  {
    hide *;
    ReadyIs(s, a, b, i);
    MarkMoves(s, a, b, i);
    ReadyAt(s, a, b, i, Space(s, i) + 1);
  }

  lemma ReadyValue(s: seq<byte>, a: nat, b: nat, i: nat)
    requires Ready(s, a, b, i) && ValueAt(s, i).Ok? && Follows(s, ValueAt(s, i).next)
    ensures
      var t, k := ClosedUp(s, a, b), Moved(a, b, i);
      && k <= |t| && ValueAt(t, k).Ok? && ValueAt(t, k).next == Moved(a, b, ValueAt(s, i).next)
      && Ready(s, a, b, ValueAt(s, i).next)
  {
    var t, k := ClosedUp(s, a, b), Moved(a, b, i);
    hide ClosedUp, BlankRun, Moved, Follows, ValueAt, LexAt, IsHarmless;
    ValueMoves(s, a, b, i);
  }

  lemma {:induction false} ValueShape(s: seq<byte>, a: nat, b: nat, i: nat)
    requires Ready(s, a, b, i) && ValueAt(s, i).Ok? && Follows(s, ValueAt(s, i).next)
    ensures
      var t, k := ClosedUp(s, a, b), Moved(a, b, i);
      k <= |t| && ValueAt(t, k).Ok? && Shape(ValueAt(t, k).value) == Shape(ValueAt(s, i).value)
    decreases |s| - i, 1
  {
    hide ClosedUp, BlankRun, Moved, Follows, ScalarAt, ArrayAt, ObjectAt, Clear, Ready, LexAt, ItemShapes, MemberShapes,
         IsHarmless;
    ReadyValue(s, a, b, i);
    ReadyIs(s, a, b, i);
    MarkMoves(s, a, b, i);
    var j := Space(s, i);
    if s[j] == OPEN_BRACKET {
      ReadyBehind(s, a, b, i);
      ArrayShape(s, a, b, j + 1);
    } else if s[j] == OPEN_BRACE {
      ReadyBehind(s, a, b, i);
      ObjectShape(s, a, b, j + 1);
    } else {
      ScalarMoves(s, a, b, j);
    }
  }

  lemma {:induction false} ArrayShape(s: seq<byte>, a: nat, b: nat, i: nat)
    requires Ready(s, a, b, i) && ArrayAt(s, i).Ok?
    ensures
      var t, k := ClosedUp(s, a, b), Moved(a, b, i);
      k <= |t| && ArrayAt(t, k).Ok? && ItemShapes(ArrayAt(t, k).value) == ItemShapes(ArrayAt(s, i).value)
    decreases |s| - i, 3
  {
    hide ClosedUp, BlankRun, Moved, ElementsAt, Ready, LexAt, Shape, IsHarmless;
    ReadyIs(s, a, b, i);
    SpaceMoves(s, a, b, i);
    var j := Space(s, i);
    MarkMoves(s, a, b, i);
    if s[j] != CLOSE_BRACKET {
      ReadyAt(s, a, b, i, j);
      ElementsShape(s, a, b, j);
    }
  }

  lemma {:induction false} ElementsShape(s: seq<byte>, a: nat, b: nat, i: nat)
    requires Ready(s, a, b, i) && ElementsAt(s, i).Ok?
    ensures
      var t, k := ClosedUp(s, a, b), Moved(a, b, i);
      k <= |t| && ElementsAt(t, k).Ok? && ItemShapes(ElementsAt(t, k).value) == ItemShapes(ElementsAt(s, i).value)
    decreases |s| - i, 2
  {
    hide ClosedUp, BlankRun, Moved, ElementsAt, Ready, LexAt, Shape, ValueAt, Space, IsHarmless;
    ReadyIs(s, a, b, i);
    var t, k := ClosedUp(s, a, b), Moved(a, b, i);
    ElementsIs(s, i);
    ReadyValue(s, a, b, i);
    ValueShape(s, a, b, i);
    var n := ValueAt(s, i).next;
    var j := Space(s, n);
    CommaIsNoQuote();
    ReadyBehind(s, a, b, n);
    if s[j] == COMMA {
      ElementsShape(s, a, b, j + 1);
      ItemShapesCons(ValueAt(s, i).value, ElementsAt(s, j + 1).value);
      ItemShapesCons(ValueAt(t, k).value, ElementsAt(t, Moved(a, b, j) + 1).value);
    } else {
      ItemShapesOne(ValueAt(s, i).value);
      ItemShapesOne(ValueAt(t, k).value);
      FollowsMoved(s, a, b, n);
    }
    ElementsIs(t, k);
  }

  lemma CommaIsNoQuote()
    ensures COMMA != QUOTE && CLOSE_BRACKET != QUOTE && CLOSE_BRACE != QUOTE && CLOSE_BRACKET != CLOSE_BRACE
    ensures CLOSE_BRACKET != COMMA && COMMA != CLOSE_BRACE
  {
  }

  lemma FollowsMoved(s: seq<byte>, a: nat, b: nat, n: nat)
    requires Ready(s, a, b, n) && Follows(s, n)
    ensures Moved(a, b, n) <= |ClosedUp(s, a, b)| && Follows(ClosedUp(s, a, b), Moved(a, b, n))
  {
    hide ClosedUp, BlankRun, Moved, LexAt, Space, IsHarmless;
    ReadyIs(s, a, b, n);
    SpaceMoves(s, a, b, n);
  }

  lemma ItemShapesCons(first: Doc, rest: seq<Doc>)
    ensures ItemShapes([first] + rest) == [Shape(first)] + ItemShapes(rest)
  {
    hide Shape;
    assert ([first] + rest)[1..] == rest;
  }

  lemma ItemShapesOne(first: Doc)
    ensures ItemShapes([first]) == [Shape(first)]
  {
    hide Shape;
    ItemShapesCons(first, []);
    assert [first] + [] == [first];
  }

  lemma MemberShapesCons(first: Entry, rest: seq<Entry>)
    ensures MemberShapes([first] + rest) == [EntryShape(first)] + MemberShapes(rest)
  {
    hide EntryShape;
    assert ([first] + rest)[1..] == rest;
  }

  lemma {:induction false} ObjectShape(s: seq<byte>, a: nat, b: nat, i: nat)
    requires Ready(s, a, b, i) && ObjectAt(s, i).Ok?
    ensures
      var t, k := ClosedUp(s, a, b), Moved(a, b, i);
      k <= |t| && ObjectAt(t, k).Ok? && MemberShapes(ObjectAt(t, k).value) == MemberShapes(ObjectAt(s, i).value)
    decreases |s| - i, 3
  {
    hide ClosedUp, BlankRun, Moved, EntriesAt, Ready, LexAt, EntryShape, IsHarmless;
    ReadyIs(s, a, b, i);
    SpaceMoves(s, a, b, i);
    var j := Space(s, i);
    MarkMoves(s, a, b, i);
    if s[j] != CLOSE_BRACE {
      ReadyAt(s, a, b, i, j);
      EntriesShape(s, a, b, j);
    }
  }

  lemma {:induction false} EntriesShape(s: seq<byte>, a: nat, b: nat, i: nat)
    requires Ready(s, a, b, i) && EntriesAt(s, i).Ok?
    ensures
      var t, k := ClosedUp(s, a, b), Moved(a, b, i);
      k <= |t| && EntriesAt(t, k).Ok? && MemberShapes(EntriesAt(t, k).value) == MemberShapes(EntriesAt(s, i).value)
    decreases |s| - i, 2
  {
    hide ClosedUp, BlankRun, Moved, Key, EntriesFrom, LexAt, Ready, EntryShape, ShapeKey, IsHarmless;
    hide MemberShapes, Clear;
    ReadyIs(s, a, b, i);
    KeyMoves(s, a, b, i);
    var t, k := ClosedUp(s, a, b), Moved(a, b, i);
    var next := Key(s, i).next;
    EntriesFromOk(s, next, Key(s, i).value);
    KeyShape(s, a, b, i);
    ReadyAt(s, a, b, i, next);
    EntriesFromShape(s, a, b, next, Key(s, i).value, Key(t, k).value);
  }

  lemma EntriesFromOk(s: seq<byte>, i: nat, key: seq<Code>)
    requires i <= |s| && EntriesFrom(s, i, key).Ok?
    ensures Colon(s, i).Ok? && ValueAt(s, Colon(s, i).next).Ok?
    ensures
      var value := ValueAt(s, Colon(s, i).next);
      && EntriesEndAt(s, value.next).Ok? && Follows(s, value.next)
      && EntriesFrom(s, i, key).value == [Entry(key, value.value)] + EntriesEndAt(s, value.next).value
  {
    hide ValueAt, EntriesEndAt, Colon, Follows;
    EntriesFollow(s, ValueAt(s, Colon(s, i).next).next);
  }

  lemma EntriesFromIs(s: seq<byte>, i: nat, key: seq<Code>)
    requires i <= |s| && Colon(s, i).Ok? && ValueAt(s, Colon(s, i).next).Ok?
    requires EntriesEndAt(s, ValueAt(s, Colon(s, i).next).next).Ok?
    ensures
      var value := ValueAt(s, Colon(s, i).next);
      && EntriesFrom(s, i, key).Ok?
      && EntriesFrom(s, i, key).value == [Entry(key, value.value)] + EntriesEndAt(s, value.next).value
  {
    hide ValueAt, EntriesEndAt, Colon;
  }

  lemma {:induction false} EntriesFromShape(s: seq<byte>, a: nat, b: nat, i: nat, key: seq<Code>, moved: seq<Code>)
    requires Ready(s, a, b, i) && EntriesFrom(s, i, key).Ok? && ShapeKey(moved) == ShapeKey(key)
    ensures
      var t, k := ClosedUp(s, a, b), Moved(a, b, i);
      && k <= |t| && EntriesFrom(t, k, moved).Ok?
      && MemberShapes(EntriesFrom(t, k, moved).value) == MemberShapes(EntriesFrom(s, i, key).value)
    decreases |s| - i, 2
  {
    hide ClosedUp, BlankRun, Moved, LexAt, Ready, IsHarmless, MemberShapes, Clear, EntriesFrom, ValueAt, EntriesEndAt,
         Colon, Shape, ShapeKey, Follows;
    ReadyIs(s, a, b, i);
    var t, k := ClosedUp(s, a, b), Moved(a, b, i);
    EntriesFromOk(s, i, key);
    ColonMoves(s, a, b, i);
    var j := Colon(s, i).next;
    ReadyAt(s, a, b, i, j);
    ReadyValue(s, a, b, j);
    ValueShape(s, a, b, j);
    var value, other := ValueAt(s, j), ValueAt(t, Moved(a, b, j));
    EntriesEndShape(s, a, b, value.next);
    EntriesFromIs(t, k, moved);
    MemberShapesCons(Entry(key, value.value), EntriesEndAt(s, value.next).value);
    MemberShapesCons(Entry(moved, other.value), EntriesEndAt(t, other.next).value);
  }

  lemma {:induction false} EntriesEndShape(s: seq<byte>, a: nat, b: nat, i: nat)
    requires Ready(s, a, b, i) && EntriesEndAt(s, i).Ok?
    ensures
      var t, k := ClosedUp(s, a, b), Moved(a, b, i);
      && k <= |t| && EntriesEndAt(t, k).Ok?
      && MemberShapes(EntriesEndAt(t, k).value) == MemberShapes(EntriesEndAt(s, i).value)
    decreases |s| - i, 3
  {
    hide ClosedUp, BlankRun, Moved, EntriesAt, Ready, LexAt, EntryShape, IsHarmless;
    ReadyIs(s, a, b, i);
    var j := Space(s, i);
    CommaIsNoQuote();
    ReadyBehind(s, a, b, i);
    if s[j] == COMMA { EntriesShape(s, a, b, j + 1); }
  }

  lemma DocumentShape(s: seq<byte>, a: nat, b: nat)
    requires BlankRun(s, a, b) && a < b && DocumentOf(s).Some? && IsHarmless(s, a, b)
    ensures
      var t := ClosedUp(s, a, b);
      DocumentOf(t).Some? && MemberShapes(DocumentOf(t).value) == MemberShapes(DocumentOf(s).value)
  {
    RunBounds(s, a, b);
    StartStays(s, a, b);
    assert Ready(s, a, b, 0);
    hide *;
    var t := ClosedUp(s, a, b);
    DocumentMoves(s, a, b);
    DocumentIs(s);
    DocumentIs(t);
    BraceIsNoQuote();
    ReadyBehind(s, a, b, 0);
    StartStays(s, a, b);
    ObjectShape(s, a, b, Space(s, 0) + 1);
  }

  /**
   Closing up a run of blanks in a document does not change the verdict, unless it turns a key into one of the names
   the probe looks for.
   */
  lemma ClosedUpKeepsVerdict(s: seq<byte>, a: nat, b: nat)
    requires BlankRun(s, a, b) && DocumentOf(s).Some?
    ensures a < b && IsHarmless(s, a, b) ==> Classify(ClosedUp(s, a, b)) == Classify(s)
    ensures a == b ==> ClosedUp(s, a, b) == s
  {
    hide Classify, DocumentOf, IsHarmless, MemberShapes;
    if a == b {
      assert s[..a] + s[a..] == s;
    } else if IsHarmless(s, a, b) {
      DocumentShape(s, a, b);
      SameShapeSameVerdict(s, ClosedUp(s, a, b));
    }
  }
}
