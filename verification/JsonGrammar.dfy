/**
 The grammar of JSON values as plain recursive descent (sections 2 to 7 of RFC 8259), building the document tree, and
 its agreement with the stack-based skipper on every text.
 */
module JsonGrammar {
  import opened Bytes
  import opened Recognizer

  /** A parsed document. Of a number only the sign and, for an integer, the magnitude are kept. */
  datatype Doc =
    | Null
    | Bool(flag: bool)
    | Number(negative: bool, whole: Option<nat>)
    | String(text: seq<Code>)
    | Array(items: seq<Doc>)
    | Object(members: seq<Entry>)

  datatype Entry = Entry(key: seq<Code>, value: Doc)

  // ---- the grammar ----

  /** A literal, string or number. */
  function ScalarAt(s: seq<byte>, i: nat): (r: Scan<Doc>)
    requires i < |s|
    ensures r.Ok? ==> i < r.next <= |s|
  {
    if s[i] == LOWER_N then
      var (_, j) :- Word(s, i + 1, NULL_TAIL);
      Ok(Null, j)
    else if s[i] == LOWER_T then
      var (_, j) :- Word(s, i + 1, TRUE_TAIL);
      Ok(Bool(true), j)
    else if s[i] == LOWER_F then
      var (_, j) :- Word(s, i + 1, FALSE_TAIL);
      Ok(Bool(false), j)
    else if s[i] == QUOTE then
      var (text, j) :- Str(s, i + 1);
      Ok(String(text), j)
    else if s[i] == MINUS || IsDigit(s[i]) then
      var (n, j) :- Num(s, i);
      Ok(Number(n.negative, if n.integral then Some(n.magnitude) else None), j)
    else Bad
  }

  function ValueAt(s: seq<byte>, i: nat): (r: Scan<Doc>)
    requires i <= |s|
    ensures r.Ok? ==> i < r.next <= |s|
    decreases |s| - i, 1
  {
    var j := Space(s, i);
    if j == |s| then Cut(false)
    else if s[j] == OPEN_BRACKET then
      var (items, k) :- ArrayAt(s, j + 1);
      Ok(Array(items), k)
    else if s[j] == OPEN_BRACE then
      var (members, k) :- ObjectAt(s, j + 1);
      Ok(Object(members), k)
    else ScalarAt(s, j)
  }

  /** Behind an opening bracket. */
  function ArrayAt(s: seq<byte>, i: nat): (r: Scan<seq<Doc>>)
    requires i <= |s|
    ensures r.Ok? ==> i < r.next <= |s|
    decreases |s| - i, 3
  {
    var j := Space(s, i);
    if j == |s| then Cut(false) else if s[j] == CLOSE_BRACKET then Ok([], j + 1) else ElementsAt(s, j)
  }

  /** One or more values separated by commas, and the closing bracket. */
  function ElementsAt(s: seq<byte>, i: nat): (r: Scan<seq<Doc>>)
    requires i <= |s|
    ensures r.Ok? ==> i < r.next <= |s|
    decreases |s| - i, 2
  {
    var (first, k) :- ValueAt(s, i);
    var j := Space(s, k);
    if j == |s| then Cut(false)
    else if s[j] == COMMA then
      var (rest, n) :- ElementsAt(s, j + 1);
      Ok([first] + rest, n)
    else if s[j] == CLOSE_BRACKET then Ok([first], j + 1)
    else Bad
  }

  /** Behind an opening brace. */
  function ObjectAt(s: seq<byte>, i: nat): (r: Scan<seq<Entry>>)
    requires i <= |s|
    ensures r.Ok? ==> i < r.next <= |s|
    decreases |s| - i, 3
  {
    var j := Space(s, i);
    if j == |s| then Cut(false) else if s[j] == CLOSE_BRACE then Ok([], j + 1) else EntriesAt(s, j)
  }

  /** One or more keys with values separated by commas, and the closing brace. */
  function EntriesAt(s: seq<byte>, i: nat): (r: Scan<seq<Entry>>)
    requires i <= |s|
    ensures r.Ok? ==> i < r.next <= |s|
    decreases |s| - i, 2
  {
    var (key, a) :- Key(s, i);
    EntriesFrom(s, a, key)
  }

  /** Behind the key of the first of these entries. */
  function EntriesFrom(s: seq<byte>, i: nat, key: seq<Code>): (r: Scan<seq<Entry>>)
    requires i <= |s|
    ensures r.Ok? ==> i < r.next <= |s|
    decreases |s| - i, 2
  {
    var (_, b) :- Colon(s, i);
    var (value, c) :- ValueAt(s, b);
    var (rest, n) :- EntriesEndAt(s, c);
    Ok([Entry(key, value)] + rest, n)
  }

  /** Behind the value of a key: the closing brace, or a comma and more. */
  function EntriesEndAt(s: seq<byte>, i: nat): (r: Scan<seq<Entry>>)
    requires i <= |s|
    ensures r.Ok? ==> i < r.next <= |s|
    decreases |s| - i, 3
  {
    var j := Space(s, i);
    if j == |s| then Cut(false)
    else if s[j] == COMMA then EntriesAt(s, j + 1)
    else if s[j] == CLOSE_BRACE then Ok([], j + 1)
    else Bad
  }

  // ---- the skipper gives the grammar's answer ----

  /** Go on behind a value, with `open` still open. */
  function Then<T>(r: Scan<T>, s: seq<byte>, open: seq<Frame>): Scan<()>
    requires r.Ok? ==> r.next <= |s|
  {
    match r
    case Ok(_, next) => Skip(s, next, open, CommaOrClose)
    case Cut(inNumber) => Cut(inNumber)
    case Bad => Bad
  }

  /** The answer without the value. */
  function Erased<T>(r: Scan<T>): Scan<()> {
    match r
    case Ok(_, next) => Ok((), next)
    case Cut(inNumber) => Cut(inNumber)
    case Bad => Bad
  }

  lemma ScalarIsScalar(s: seq<byte>, i: nat)
    requires i < |s|
    ensures Scalar(s, i) == Erased(ScalarAt(s, i))
  {
    hide Word, Str, Num;
    var r := Scalar(s, i);
    assert r.Ok? ==> r.value == ();
  }

  lemma SpaceTwice(s: seq<byte>, i: nat)
    requires i <= |s|
    ensures Space(s, Space(s, i)) == Space(s, i)
  {
  }

  lemma {:induction false} SkipIsValue(s: seq<byte>, i: nat, open: seq<Frame>)
    requires i <= |s|
    ensures Skip(s, i, open, AnyValue) == Then(ValueAt(s, i), s, open)
    ensures i < |s| && Space(s, i) == i ==> Element(s, i, open) == Then(ValueAt(s, i), s, open)
    decreases |s| - i, 1
  {
    hide Scalar, ScalarAt, ArrayAt, ObjectAt, Space, Recognizer.Entry;
    SpaceTwice(s, i);
    var j := Space(s, i);
    if j < |s| {
      ScalarIsScalar(s, j);
      if s[j] == OPEN_BRACKET {
        SkipIsArray(s, j + 1, open);
      } else if s[j] == OPEN_BRACE {
        SkipIsObject(s, j + 1, open);
      }
    }
  }

  lemma {:induction false} SkipIsArray(s: seq<byte>, i: nat, open: seq<Frame>)
    requires i <= |s|
    ensures Skip(s, i, [InArray] + open, ValueOrClose) == Then(ArrayAt(s, i), s, open)
    decreases |s| - i, 3
  {
    hide Element, ElementsAt, Recognizer.Entry;
    var j := Space(s, i);
    SpaceTwice(s, i);
    assert ([InArray] + open)[1..] == open;
    if j < |s| && s[j] != CLOSE_BRACKET { SkipIsElements(s, j, open); }
  }

  /** From an element on, whether or not whitespace comes first. */
  lemma {:induction false} SkipIsElements(s: seq<byte>, i: nat, open: seq<Frame>)
    requires i <= |s|
    ensures Skip(s, i, [InArray] + open, AnyValue) == Then(ElementsAt(s, i), s, open)
    ensures i < |s| && Space(s, i) == i ==> Element(s, i, [InArray] + open) == Then(ElementsAt(s, i), s, open)
    decreases |s| - i, 2
  {
    hide Element, ValueAt, Recognizer.Entry, Skip;
    var inner := [InArray] + open;
    SkipIsValue(s, i, inner);
    if ValueAt(s, i).Ok? {
      var k := ValueAt(s, i).next;
      var j := Space(s, k);
      ArrayStep(s, k, open);
      if j < |s| && s[j] == COMMA { SkipIsElements(s, j + 1, open); }
    }
  }

  /** What may follow an element: a comma, the closing bracket, or nothing good. */
  lemma ArrayStep(s: seq<byte>, k: nat, open: seq<Frame>)
    requires k <= |s|
    ensures
      var j := Space(s, k);
      Skip(s, k, [InArray] + open, CommaOrClose)
      == if j == |s| then Cut(false)
         else if s[j] == COMMA then Skip(s, j + 1, [InArray] + open, AnyValue)
         else if s[j] == CLOSE_BRACKET then Skip(s, j + 1, open, CommaOrClose)
         else Bad
  {
    hide Element, Recognizer.Entry;
    assert ([InArray] + open)[1..] == open;
  }

  lemma ObjectStep(s: seq<byte>, k: nat, open: seq<Frame>)
    requires k <= |s|
    ensures
      var j := Space(s, k);
      Skip(s, k, [InObject] + open, CommaOrClose)
      == if j == |s| then Cut(false)
         else if s[j] == COMMA then Skip(s, j + 1, [InObject] + open, NextKey)
         else if s[j] == CLOSE_BRACE then Skip(s, j + 1, open, CommaOrClose)
         else Bad
  {
    hide Element, Recognizer.Entry;
    assert ([InObject] + open)[1..] == open;
  }

  lemma {:induction false} SkipIsObject(s: seq<byte>, i: nat, open: seq<Frame>)
    requires i <= |s|
    ensures Skip(s, i, [InObject] + open, KeyOrClose) == Then(ObjectAt(s, i), s, open)
    decreases |s| - i, 3
  {
    hide Element, EntriesAt, Recognizer.Entry;
    var j := Space(s, i);
    SpaceTwice(s, i);
    assert ([InObject] + open)[1..] == open;
    if j < |s| && s[j] != CLOSE_BRACE { SkipIsEntries(s, j, open); }
  }

  lemma KeyAfterSpace(s: seq<byte>, i: nat)
    requires i <= |s|
    ensures Key(s, Space(s, i)) == Key(s, i)
    ensures Space(s, i) == |s| ==> Key(s, i) == Cut(false)
  {
    SpaceTwice(s, i);
  }

  lemma {:induction false} SkipIsEntries(s: seq<byte>, i: nat, open: seq<Frame>)
    requires i <= |s|
    ensures Skip(s, i, [InObject] + open, NextKey) == Then(EntriesAt(s, i), s, open)
    ensures i < |s| && Space(s, i) == i ==> Recognizer.Entry(s, i, [InObject] + open) == Then(EntriesAt(s, i), s, open)
    decreases |s| - i, 2
  {
    hide Element, ValueAt, Key, Colon;
    var inner := [InObject] + open;
    KeyAfterSpace(s, i);
    if Key(s, i).Ok? {
      var a := Key(s, i).next;
      if Colon(s, a).Ok? {
        var b := Colon(s, a).next;
        SkipIsValue(s, b, inner);
        if ValueAt(s, b).Ok? { SkipIsEntriesEnd(s, ValueAt(s, b).next, open); }
      }
    }
  }

  lemma {:induction false} SkipIsEntriesEnd(s: seq<byte>, i: nat, open: seq<Frame>)
    requires i <= |s|
    ensures Skip(s, i, [InObject] + open, CommaOrClose) == Then(EntriesEndAt(s, i), s, open)
    decreases |s| - i, 3
  {
    hide Skip, EntriesAt;
    ObjectStep(s, i, open);
    var j := Space(s, i);
    if j < |s| && s[j] == COMMA { SkipIsEntries(s, j + 1, open); }
  }

  /** On every text, stepping over a value with an explicit stack gives the grammar's answer. */
  lemma SkipIsGrammar(s: seq<byte>, i: nat)
    requires i <= |s|
    ensures Skip(s, i, [], AnyValue) == Erased(ValueAt(s, i))
  {
    SkipIsValue(s, i, []);
  }

  // ---- more bytes do not change a value that has ended ----

  lemma ScalarAtStable(p: seq<byte>, s: seq<byte>, i: nat)
    requires Extends(p, s) && i < |p| && ScalarAt(p, i).Ok? && ScalarAt(p, i).next < |p|
    ensures ScalarAt(s, i) == ScalarAt(p, i)
  {
    hide Num, Str, Word;
    if p[i] == LOWER_N {
      WordStable(p, s, i + 1, NULL_TAIL);
    } else if p[i] == LOWER_T {
      WordStable(p, s, i + 1, TRUE_TAIL);
    } else if p[i] == LOWER_F {
      WordStable(p, s, i + 1, FALSE_TAIL);
    } else if p[i] == QUOTE {
      StrStable(p, s, i + 1);
    } else {
      NumStable(p, s, i);
    }
  }

  lemma {:induction false} ValueStable(p: seq<byte>, s: seq<byte>, i: nat)
    requires Extends(p, s) && i <= |p| && ValueAt(p, i).Ok? && ValueAt(p, i).next < |p|
    ensures ValueAt(s, i) == ValueAt(p, i)
    decreases |p| - i, 1
  {
    hide ScalarAt, ArrayAt, ObjectAt;
    SpaceStable(p, s, i);
    var j := Space(p, i);
    if p[j] == OPEN_BRACKET {
      ArrayStable(p, s, j + 1);
    } else if p[j] == OPEN_BRACE {
      ObjectStable(p, s, j + 1);
    } else {
      ScalarAtStable(p, s, j);
    }
  }

  lemma {:induction false} ArrayStable(p: seq<byte>, s: seq<byte>, i: nat)
    requires Extends(p, s) && i <= |p| && ArrayAt(p, i).Ok?
    ensures ArrayAt(s, i) == ArrayAt(p, i)
    decreases |p| - i, 3
  {
    hide ElementsAt;
    SpaceStable(p, s, i);
    var j := Space(p, i);
    if p[j] != CLOSE_BRACKET { ElementsStable(p, s, j); }
  }

  lemma {:induction false} ElementsStable(p: seq<byte>, s: seq<byte>, i: nat)
    requires Extends(p, s) && i <= |p| && ElementsAt(p, i).Ok?
    ensures ElementsAt(s, i) == ElementsAt(p, i)
    decreases |p| - i, 2
  {
    hide ValueAt;
    var k := ValueAt(p, i).next;
    var j := Space(p, k);
    ValueStable(p, s, i);
    SpaceStable(p, s, k);
    if p[j] == COMMA { ElementsStable(p, s, j + 1); }
  }

  lemma {:induction false} ObjectStable(p: seq<byte>, s: seq<byte>, i: nat)
    requires Extends(p, s) && i <= |p| && ObjectAt(p, i).Ok?
    ensures ObjectAt(s, i) == ObjectAt(p, i)
    decreases |p| - i, 3
  {
    hide EntriesAt;
    SpaceStable(p, s, i);
    var j := Space(p, i);
    if p[j] != CLOSE_BRACE { EntriesStable(p, s, j); }
  }

  lemma {:induction false} EntriesStable(p: seq<byte>, s: seq<byte>, i: nat)
    requires Extends(p, s) && i <= |p| && EntriesAt(p, i).Ok?
    ensures EntriesAt(s, i) == EntriesAt(p, i)
    decreases |p| - i, 2
  {
    hide Key, EntriesFrom;
    KeyStable(p, s, i);
    EntriesFromStable(p, s, Key(p, i).next, Key(p, i).value);
  }

  lemma {:induction false} EntriesFromStable(p: seq<byte>, s: seq<byte>, i: nat, key: seq<Code>)
    requires Extends(p, s) && i <= |p| && EntriesFrom(p, i, key).Ok?
    ensures EntriesFrom(s, i, key) == EntriesFrom(p, i, key)
    decreases |p| - i, 2
  {
    hide Colon, ValueAt, EntriesEndAt;
    ColonStable(p, s, i);
    var j := Colon(p, i).next;
    ValueStable(p, s, j);
    EntriesEndStable(p, s, ValueAt(p, j).next);
  }

  lemma {:induction false} EntriesEndStable(p: seq<byte>, s: seq<byte>, i: nat)
    requires Extends(p, s) && i <= |p| && EntriesEndAt(p, i).Ok?
    ensures i < |p| && EntriesEndAt(s, i) == EntriesEndAt(p, i)
    decreases |p| - i, 3
  {
    hide EntriesAt;
    SpaceStable(p, s, i);
    var j := Space(p, i);
    if p[j] == COMMA { EntriesStable(p, s, j + 1); }
  }
}
