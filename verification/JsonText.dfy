/** A text for every document tree. The grammar reads it back to the same tree, wherever it stands. */
module JsonText {
  import opened Bytes
  import opened Decimals
  import opened Recognizer
  import opened JsonGrammar

  // ---- text ----

  function HexDigit(n: nat): byte
    requires n < 16
  {
    if n < 10 then ZERO + n else 87 + n
  }

  /** Quotes and backslashes are escaped; codes that are no printable byte are written in hexadecimal. */
  function EscapedCode(c: Code): seq<byte> {
    if c == QUOTE || c == BACKSLASH then [BACKSLASH, c]
    else if SPACE <= c < 256 then [c]
    else [BACKSLASH, LOWER_U, HexDigit(c / 4096), HexDigit(c / 256 % 16), HexDigit(c / 16 % 16), HexDigit(c % 16)]
  }

  function StringEnd(text: seq<Code>): seq<byte> {
    if text == [] then [QUOTE] else EscapedCode(text[0]) + StringEnd(text[1..])
  }

  function Quoted(text: seq<Code>): seq<byte> {
    [QUOTE] + StringEnd(text)
  }

  /** A number that is no integer is written with a fraction; its value plays no part here. */
  function NumberText(negative: bool, whole: Option<nat>): seq<byte> {
    (if negative then [MINUS] else []) + if whole.Some? then Decimal(whole.value) else [ZERO, DOT, ZERO]
  }

  function Render(d: Doc): seq<byte> {
    match d
    case Null => [LOWER_N] + NULL_TAIL
    case Bool(flag) => if flag then [LOWER_T] + TRUE_TAIL else [LOWER_F] + FALSE_TAIL
    case Number(negative, whole) => NumberText(negative, whole)
    case String(text) => Quoted(text)
    case Array(items) => [OPEN_BRACKET] + ArrayBody(items)
    case Object(members) => [OPEN_BRACE] + ObjectBody(members)
  }

  function ArrayBody(items: seq<Doc>): seq<byte> {
    if items == [] then [CLOSE_BRACKET] else Render(items[0]) + ArrayTail(items[1..])
  }

  function ArrayTail(items: seq<Doc>): seq<byte> {
    if items == [] then [CLOSE_BRACKET] else [COMMA] + Render(items[0]) + ArrayTail(items[1..])
  }

  function EntryText(e: Entry): seq<byte> {
    Quoted(e.key) + [COLON] + Render(e.value)
  }

  function ObjectBody(members: seq<Entry>): seq<byte> {
    if members == [] then [CLOSE_BRACE] else EntryText(members[0]) + ObjectTail(members[1..])
  }

  function ObjectTail(members: seq<Entry>): seq<byte> {
    if members == [] then [CLOSE_BRACE] else [COMMA] + EntryText(members[0]) + ObjectTail(members[1..])
  }

  // ---- text in place ----

  /** The text `t` stands at position `i` of `s`. */
  ghost predicate At(s: seq<byte>, i: nat, t: seq<byte>) {
    i + |t| <= |s| && forall k | i <= k < i + |t| :: s[k] == t[k - i]
  }

  lemma AtSplit(s: seq<byte>, i: nat, a: seq<byte>, b: seq<byte>)
    requires At(s, i, a + b)
    ensures At(s, i, a) && At(s, i + |a|, b)
  {
  }

  lemma AtSplit3(s: seq<byte>, i: nat, a: seq<byte>, b: seq<byte>, c: seq<byte>)
    requires At(s, i, a + b + c)
    ensures At(s, i, a) && At(s, i + |a|, b) && At(s, i + |a| + |b|, c)
  {
    AtSplit(s, i, a + b, c);
    AtSplit(s, i, a, b);
  }

  /** What follows a value inside an array or object. */
  ghost predicate Delimited(s: seq<byte>, i: nat) {
    i < |s| && (s[i] == COMMA || s[i] == CLOSE_BRACKET || s[i] == CLOSE_BRACE)
  }

  // ---- scalars ----

  lemma HexReadsBack(n: nat)
    requires n < 16
    ensures HexValue(HexDigit(n)) == Some(n)
  {
  }

  lemma HexParts(c: Code)
    ensures c / 4096 < 16
    ensures ((c / 4096 * 16 + c / 256 % 16) * 16 + c / 16 % 16) * 16 + c % 16 == c
  {
    assert c / 16 / 16 == c / 256 && c / 256 / 16 == c / 4096;
  }

  lemma HexEscapeReadsBack(s: seq<byte>, i: nat, a: nat, b: nat, c: nat, d: nat)
    requires a < 16 && b < 16 && c < 16 && d < 16
    requires At(s, i, [BACKSLASH, LOWER_U, HexDigit(a), HexDigit(b), HexDigit(c), HexDigit(d)])
    ensures s[i] == BACKSLASH && Escape(s, i + 1) == Ok(((a * 16 + b) * 16 + c) * 16 + d, i + 6)
  {
    hide HexValue, HexDigit;
    var t := [BACKSLASH, LOWER_U, HexDigit(a), HexDigit(b), HexDigit(c), HexDigit(d)];
    assert s[i] == t[0] && s[i + 1] == t[1];
    assert s[i + 2] == t[2] && s[i + 3] == t[3] && s[i + 4] == t[4] && s[i + 5] == t[5];
    HexReadsBack(a);
    HexReadsBack(b);
    HexReadsBack(c);
    HexReadsBack(d);
  }

  lemma EscapeReadsBack(s: seq<byte>, i: nat, c: Code)
    requires At(s, i, EscapedCode(c)) && |EscapedCode(c)| > 1
    ensures s[i] == BACKSLASH && Escape(s, i + 1) == Ok(c, i + |EscapedCode(c)|)
  {
    hide HexValue, HexDigit;
    if c == QUOTE || c == BACKSLASH {
      var t := EscapedCode(c);
      assert s[i] == t[0] && s[i + 1] == t[1];
    } else {
      HexParts(c);
      HexEscapeReadsBack(s, i, c / 4096, c / 256 % 16, c / 16 % 16, c % 16);
    }
  }

  lemma StringStep(s: seq<byte>, i: nat, c: Code)
    requires At(s, i, EscapedCode(c)) && Str(s, i + |EscapedCode(c)|).Ok?
    ensures
      var rest := Str(s, i + |EscapedCode(c)|);
      Str(s, i) == Ok([c] + rest.value, rest.next)
  {
    hide Escape;
    if |EscapedCode(c)| > 1 {
      EscapeReadsBack(s, i, c);
    } else {
      assert s[i] == EscapedCode(c)[0];
    }
  }

  /** Reading a written string gives the text back. */
  lemma {:induction false} StringReadsBack(s: seq<byte>, i: nat, text: seq<Code>)
    requires At(s, i, StringEnd(text))
    ensures Str(s, i) == Ok(text, i + |StringEnd(text)|)
    decreases |text|
  {
    hide EscapedCode;
    if text == [] {
      assert s[i] == QUOTE;
    } else {
      hide Str;
      var c, rest := text[0], text[1..];
      AtSplit(s, i, EscapedCode(c), StringEnd(rest));
      StringReadsBack(s, i + |EscapedCode(c)|, rest);
      assert text == [c] + rest;
      StringStep(s, i, c);
    }
  }

  lemma QuotedReadsBack(s: seq<byte>, i: nat, text: seq<Code>)
    requires At(s, i, Quoted(text))
    ensures i < |s| && s[i] == QUOTE && Str(s, i + 1) == Ok(text, i + |Quoted(text)|)
  {
    AtSplit(s, i, [QUOTE], StringEnd(text));
    assert s[i] == QUOTE;
    StringReadsBack(s, i + 1, text);
  }

  lemma DigitsAt(s: seq<byte>, i: nat, digits: seq<byte>)
    requires At(s, i, digits) && forall k | 0 <= k < |digits| :: IsDigit(digits[k])
    requires i + |digits| < |s| ==> !IsDigit(s[i + |digits|])
    ensures Digits(s, i) == i + |digits|
  {
    forall k | i <= k < i + |digits| ensures IsDigit(s[k]) {
      assert s[k] == digits[k - i];
    }
  }

  lemma WordAt(s: seq<byte>, i: nat, word: seq<byte>)
    requires At(s, i, word)
    ensures Word(s, i, word) == Ok((), i + |word|)
    decreases |word|
  {
    if word != [] {
      assert s[i] == word[0];
      AtSplit(s, i, word[..1], word[1..]);
      assert word[..1] + word[1..] == word;
      WordAt(s, i + 1, word[1..]);
    }
  }

  /** The digits of a number, and what stops them. */
  lemma IntegerAt(s: seq<byte>, a: nat, whole: nat)
    requires At(s, a, Decimal(whole))
    requires a + |Decimal(whole)| < |s| && !IsDigit(s[a + |Decimal(whole)|])
    ensures
      var b := a + |Decimal(whole)|;
      && IsDigit(s[a]) && (if s[a] == ZERO then a + 1 else Digits(s, a)) == b
      && (forall k | a <= k < b :: IsDigit(s[k])) && Magnitude(s[a..b]) == whole
  {
    var digits := Decimal(whole);
    assert s[a] == digits[0];
    DigitsAt(s, a, digits);
    assert s[a..a + |digits|] == digits;
  }

  /** Reading a written number: its end, its sign, whether it is an integer, and the integer. */
  lemma NumberReadsBack(s: seq<byte>, i: nat, negative: bool, whole: Option<nat>)
    requires At(s, i, NumberText(negative, whole)) && Delimited(s, i + |NumberText(negative, whole)|)
    ensures i < |s| && (s[i] == MINUS <==> negative) && (IsDigit(s[i]) <==> !negative)
    ensures Num(s, i) == Ok(Numeral(negative, whole.Some?, if whole.Some? then whole.value else 0),
                            i + |NumberText(negative, whole)|)
  {
    hide Decimal, Digits, Magnitude, Fraction;
    var sign: seq<byte> := if negative then [MINUS] else [];
    var a := i + |sign|;
    if whole.Some? {
      AtSplit(s, i, sign, Decimal(whole.value));
      IntegerAt(s, a, whole.value);
    } else {
      AtSplit(s, i, sign, [ZERO, DOT, ZERO]);
      FractionAt(s, a);
    }
    if negative { assert s[i] == sign[0]; }
  }

  lemma FractionAt(s: seq<byte>, a: nat)
    requires At(s, a, [ZERO, DOT, ZERO]) && Delimited(s, a + 3)
    ensures s[a] == ZERO && s[a + 1] == DOT && Fraction(s, a + 1) == Ok((), a + 3)
  {
    var t: seq<byte> := [ZERO, DOT, ZERO];
    assert s[a] == t[0] && s[a + 1] == t[1] && s[a + 2] == t[2];
    assert Digits(s, a + 2) == a + 3;
  }

  // ---- documents ----

  lemma ScalarReadsBack(s: seq<byte>, i: nat, d: Doc)
    requires !d.Array? && !d.Object? && At(s, i, Render(d)) && Delimited(s, i + |Render(d)|)
    ensures i < |s| && ScalarAt(s, i) == Ok(d, i + |Render(d)|)
  {
    hide Num, Str, Word, Decimal;
    match d
    case Null =>
      AtSplit(s, i, [LOWER_N], NULL_TAIL);
      assert s[i] == LOWER_N;
      WordAt(s, i + 1, NULL_TAIL);
    case Bool(flag) =>
      var first: byte := if flag then LOWER_T else LOWER_F;
      var word := if flag then TRUE_TAIL else FALSE_TAIL;
      AtSplit(s, i, [first], word);
      assert s[i] == first;
      WordAt(s, i + 1, word);
    case Number(negative, whole) =>
      NumberReadsBack(s, i, negative, whole);
    case String(text) =>
      QuotedReadsBack(s, i, text);
  }

  /** The byte a document starts with: never whitespace, a comma or a closing bracket. */
  lemma FirstByte(s: seq<byte>, i: nat, d: Doc)
    requires At(s, i, Render(d)) && Delimited(s, i + |Render(d)|)
    ensures i < |s| && Space(s, i) == i
    ensures s[i] != CLOSE_BRACKET && s[i] != CLOSE_BRACE && s[i] != COMMA
    ensures d.Array? <==> s[i] == OPEN_BRACKET
    ensures d.Object? <==> s[i] == OPEN_BRACE
  {
    hide Num, Str, Word, Decimal, ArrayBody, ObjectBody;
    if d.Array? || d.Object? {
      assert s[i] == Render(d)[0];
    } else {
      ScalarReadsBack(s, i, d);
    }
  }

  lemma TailDelimits(s: seq<byte>, i: nat, items: seq<Doc>, members: seq<Entry>)
    ensures At(s, i, ArrayTail(items)) ==> Delimited(s, i)
    ensures At(s, i, ObjectTail(members)) ==> Delimited(s, i)
  {
    if At(s, i, ArrayTail(items)) { assert s[i] == ArrayTail(items)[0]; }
    if At(s, i, ObjectTail(members)) { assert s[i] == ObjectTail(members)[0]; }
  }

  /** A document in place is read back, to its end. */
  lemma {:induction false} DocReadsBack(s: seq<byte>, i: nat, d: Doc)
    requires At(s, i, Render(d)) && Delimited(s, i + |Render(d)|)
    ensures ValueAt(s, i) == Ok(d, i + |Render(d)|)
    decreases d
  {
    hide ArrayBody, ObjectBody, ScalarAt, ArrayAt, ObjectAt;
    FirstByte(s, i, d);
    match d
    case Array(items) =>
      AtSplit(s, i, [OPEN_BRACKET], ArrayBody(items));
      ArrayReadsBack(s, i + 1, items);
    case Object(members) =>
      AtSplit(s, i, [OPEN_BRACE], ObjectBody(members));
      ObjectReadsBack(s, i + 1, members);
    case _ =>
      ScalarReadsBack(s, i, d);
  }

  lemma {:induction false} ArrayReadsBack(s: seq<byte>, i: nat, items: seq<Doc>)
    requires At(s, i, ArrayBody(items))
    ensures ArrayAt(s, i) == Ok(items, i + |ArrayBody(items)|)
    decreases items, 1
  {
    hide Render, ElementsAt;
    if items == [] {
      assert s[i] == CLOSE_BRACKET;
    } else {
      AtSplit(s, i, Render(items[0]), ArrayTail(items[1..]));
      TailDelimits(s, i + |Render(items[0])|, items[1..], []);
      FirstByte(s, i, items[0]);
      ElementsReadBack(s, i, items);
    }
  }

  lemma ElementsStep(s: seq<byte>, i: nat, first: Doc, k: nat, rest: seq<Doc>, n: nat)
    requires i <= |s| && ValueAt(s, i) == Ok(first, k) && k < |s|
    requires
      if rest == [] then s[k] == CLOSE_BRACKET && n == k + 1
      else s[k] == COMMA && ElementsAt(s, k + 1) == Ok(rest, n)
    ensures ElementsAt(s, i) == Ok([first] + rest, n)
  {
    hide ValueAt;
    assert Space(s, k) == k;
    assert [first] + [] == [first];
  }

  lemma {:induction false} ElementsReadBack(s: seq<byte>, i: nat, items: seq<Doc>)
    requires items != []
    requires At(s, i, Render(items[0])) && At(s, i + |Render(items[0])|, ArrayTail(items[1..]))
    ensures ElementsAt(s, i) == Ok(items, i + |Render(items[0])| + |ArrayTail(items[1..])|)
    decreases items, 0
  {
    hide Render, ValueAt, ElementsAt;
    var first, rest := items[0], items[1..];
    assert items == [first] + rest;
    var k := i + |Render(first)|;
    TailDelimits(s, k, rest, []);
    DocReadsBack(s, i, first);
    assert s[k] == ArrayTail(rest)[0];
    if rest != [] {
      AtSplit3(s, k, [COMMA], Render(rest[0]), ArrayTail(rest[1..]));
      ElementsReadBack(s, k + 1, rest);
    }
    ElementsStep(s, i, first, k, rest, k + |ArrayTail(rest)|);
  }

  /** A key and its colon in place. */
  lemma EntryAt(s: seq<byte>, i: nat, e: Entry)
    requires At(s, i, EntryText(e))
    ensures
      var k := i + |Quoted(e.key)|;
      && i < |s| && s[i] == QUOTE && Space(s, i) == i
      && Key(s, i) == Ok(e.key, k) && Colon(s, k) == Ok((), k + 1)
      && At(s, k + 1, Render(e.value)) && k + 1 + |Render(e.value)| == i + |EntryText(e)|
  {
    hide Str;
    AtSplit3(s, i, Quoted(e.key), [COLON], Render(e.value));
    QuotedReadsBack(s, i, e.key);
    assert s[i + |Quoted(e.key)|] == COLON;
  }

  lemma {:induction false} ObjectReadsBack(s: seq<byte>, i: nat, members: seq<Entry>)
    requires At(s, i, ObjectBody(members))
    ensures ObjectAt(s, i) == Ok(members, i + |ObjectBody(members)|)
    decreases members, 1
  {
    hide EntryText, EntriesAt, Quoted;
    if members == [] {
      assert s[i] == CLOSE_BRACE;
    } else {
      AtSplit(s, i, EntryText(members[0]), ObjectTail(members[1..]));
      EntryAt(s, i, members[0]);
      EntriesReadBack(s, i, members);
    }
  }

  lemma EntriesStep(s: seq<byte>, i: nat, first: Entry, v: nat, k: nat, rest: seq<Entry>, n: nat)
    requires i <= |s| && Key(s, i).Ok? && Key(s, i).value == first.key
    requires Colon(s, Key(s, i).next) == Ok((), v) && v <= |s| && ValueAt(s, v) == Ok(first.value, k) && k < |s|
    requires
      if rest == [] then s[k] == CLOSE_BRACE && n == k + 1
      else s[k] == COMMA && EntriesAt(s, k + 1) == Ok(rest, n)
    ensures EntriesAt(s, i) == Ok([first] + rest, n)
  {
    hide ValueAt, Key, Colon;
    assert Space(s, k) == k;
    assert EntriesEndAt(s, k) == Ok(rest, n);
  }

  lemma {:induction false} EntriesReadBack(s: seq<byte>, i: nat, members: seq<Entry>)
    requires members != []
    requires At(s, i, EntryText(members[0])) && At(s, i + |EntryText(members[0])|, ObjectTail(members[1..]))
    ensures EntriesAt(s, i) == Ok(members, i + |EntryText(members[0])| + |ObjectTail(members[1..])|)
    decreases members, 0
  {
    hide EntryText, ValueAt, Key, Colon, Quoted, EntriesAt, Render, Space;
    var first, rest := members[0], members[1..];
    assert members == [first] + rest;
    var k := i + |EntryText(first)|;
    var v := i + |Quoted(first.key)| + 1;
    EntryAt(s, i, first);
    TailDelimits(s, k, [], rest);
    DocReadsBack(s, v, first.value);
    assert s[k] == ObjectTail(rest)[0];
    if rest != [] {
      AtSplit3(s, k, [COMMA], EntryText(rest[0]), ObjectTail(rest[1..]));
      EntriesReadBack(s, k + 1, rest);
    }
    EntriesStep(s, i, first, v, k, rest, k + |ObjectTail(rest)|);
  }
}
