/**
 Which stretches of a text spell which document: arrays, objects and literals on top of `Spelling`. The recursive
 descent reads a document exactly where the text spells it, so on every text the probe's verdict follows from the
 grammar alone.
 */
module DocumentSpelling {
  import opened Bytes
  import opened Decimals
  import opened Recognizer
  import opened TokenUsages
  import opened UsageProbe
  import opened JsonGrammar
  import opened ProbeMeaning
  import opened Spelling

  // ---- the relation ----

  ghost predicate WordSpelled(s: seq<byte>, i: nat, j: nat, word: string)
    requires forall k | 0 <= k < |word| :: word[k] <= '~'
  {
    i <= j <= |s| && s[i..j] == Codes(word)
  }

  /** From `i` to `j`, with no blanks in front, the text spells the document. */
  ghost predicate TokenSpelled(s: seq<byte>, i: nat, j: nat, d: Doc)
    decreases d, 0
  {
    match d
    case Null => WordSpelled(s, i, j, "null")
    case Bool(flag) => WordSpelled(s, i, j, if flag then "true" else "false")
    case Number(negative, whole) => NumberSpelled(s, i, j, negative, whole)
    case String(text) => i < |s| && s[i] == '\"' as int && StringSpelled(s, i + 1, j, text)
    case Array(items) => i < |s| && s[i] == '[' as int && ItemsSpelled(s, i + 1, j, items)
    case Object(members) => i < |s| && s[i] == '{' as int && MembersSpelled(s, i + 1, j, members)
  }

  /** The same behind blanks. */
  ghost predicate ValueSpelled(s: seq<byte>, i: nat, j: nat, d: Doc)
    decreases d, 1
  {
    exists k: nat :: Blanks(s, i, k) && TokenSpelled(s, k, j, d)
  }

  /** From behind the opening bracket to behind the closing one. */
  ghost predicate ItemsSpelled(s: seq<byte>, i: nat, j: nat, items: seq<Doc>)
    decreases items, 2
  {
    if items == [] then Mark(s, i, j, ']') else ElementsSpelled(s, i, j, items)
  }

  /** One or more values with commas between them, and the closing bracket. */
  ghost predicate ElementsSpelled(s: seq<byte>, i: nat, j: nat, items: seq<Doc>)
    requires items != []
    decreases items, 1
  {
    exists k: nat :: ValueSpelled(s, i, k, items[0]) && ElementsEndSpelled(s, k, j, items[1..])
  }

  ghost predicate ElementsEndSpelled(s: seq<byte>, i: nat, j: nat, items: seq<Doc>)
    decreases items, 2
  {
    if items == [] then Mark(s, i, j, ']')
    else exists c: nat :: Mark(s, i, c, ',') && ElementsSpelled(s, c, j, items)
  }

  /** From behind the opening brace to behind the closing one. */
  ghost predicate MembersSpelled(s: seq<byte>, i: nat, j: nat, members: seq<Entry>)
    decreases members, 2
  {
    if members == [] then Mark(s, i, j, '}') else EntriesSpelled(s, i, j, members)
  }

  /** One or more keys with values, with commas between them, and the closing brace. */
  ghost predicate EntriesSpelled(s: seq<byte>, i: nat, j: nat, members: seq<Entry>)
    requires members != []
    decreases members, 1
  {
    exists b: nat, k: nat ::
      && KeySpelled(s, i, b, members[0].key) && AssignedSpelled(s, b, k, members[0].value)
      && EntriesEndSpelled(s, k, j, members[1..])
  }

  ghost predicate EntriesEndSpelled(s: seq<byte>, i: nat, j: nat, members: seq<Entry>)
    decreases members, 2
  {
    if members == [] then Mark(s, i, j, '}')
    else exists c: nat :: Mark(s, i, c, ',') && EntriesSpelled(s, c, j, members)
  }

  ghost predicate KeySpelled(s: seq<byte>, i: nat, j: nat, key: seq<Code>) {
    exists a: nat :: Mark(s, i, a, '\"') && StringSpelled(s, a, j, key)
  }

  /** A colon and a value. */
  ghost predicate AssignedSpelled(s: seq<byte>, i: nat, j: nat, d: Doc)
    decreases d, 2
  {
    exists c: nat :: Mark(s, i, c, ':') && ValueSpelled(s, c, j, d)
  }

  // ---- literals and scalars ----

  lemma {:induction false} WordIs(s: seq<byte>, i: nat, j: nat, word: seq<byte>)
    requires i <= |s|
    ensures Word(s, i, word) == Ok((), j) <==> i <= j <= |s| && s[i..j] == word
    decreases |word|
  {
    if word != [] && i < |s| && s[i] == word[0] {
      WordIs(s, i + 1, j, word[1..]);
      if i < j <= |s| { assert s[i..j] == [s[i]] + s[i + 1..j] && word == [word[0]] + word[1..]; }
    }
  }

  lemma LiteralIs(s: seq<byte>, i: nat, j: nat, first: byte, tail: seq<byte>, word: string)
    requires i < |s| && (forall k | 0 <= k < |word| :: word[k] <= '~') && Codes(word) == [first] + tail
    ensures s[i] == first && Word(s, i + 1, tail) == Ok((), j) <==> WordSpelled(s, i, j, word)
  {
    hide Word;
    WordIs(s, i + 1, j, tail);
    if i < j <= |s| { assert s[i..j] == [s[i]] + s[i + 1..j]; }
  }

  lemma LiteralsAreSpelled(s: seq<byte>, i: nat, j: nat)
    requires i < |s|
    ensures s[i] == LOWER_N && Word(s, i + 1, NULL_TAIL) == Ok((), j) <==> WordSpelled(s, i, j, "null")
    ensures s[i] == LOWER_T && Word(s, i + 1, TRUE_TAIL) == Ok((), j) <==> WordSpelled(s, i, j, "true")
    ensures s[i] == LOWER_F && Word(s, i + 1, FALSE_TAIL) == Ok((), j) <==> WordSpelled(s, i, j, "false")
  {
    hide Word, WordSpelled;
    assert Codes("null") == [LOWER_N] + NULL_TAIL;
    LiteralIs(s, i, j, LOWER_N, NULL_TAIL, "null");
    assert Codes("true") == [LOWER_T] + TRUE_TAIL;
    LiteralIs(s, i, j, LOWER_T, TRUE_TAIL, "true");
    assert Codes("false") == [LOWER_F] + FALSE_TAIL;
    LiteralIs(s, i, j, LOWER_F, FALSE_TAIL, "false");
  }

  // ---- how a document starts ----

  predicate IsScalar(d: Doc) {
    !d.Array? && !d.Object?
  }

  /** A scalar is read as a document exactly when it spells it. */
  lemma ScalarsAreSpelled(s: seq<byte>, i: nat, j: nat, d: Doc)
    requires i < |s| && IsScalar(d)
    ensures ScalarAt(s, i) == Ok(d, j) <==> TokenSpelled(s, i, j, d)
  {
    hide Word, WordSpelled, Num, Str, NumberSpelled, StringSpelled;
    LiteralsAreSpelled(s, i, j);
    WordValues(s, i + 1);
    match d
    case Number(negative, whole) =>
      NumbersAreSpelled(s, i, j, negative, whole);
      NumberStarts(s, i, j, negative, whole);
    case String(text) =>
      StringsAreSpelled(s, i + 1, j, text);
    case _ =>
  }

  lemma WordValues(s: seq<byte>, i: nat)
    requires i <= |s|
    ensures forall tail | Word(s, i, tail).Ok? :: Word(s, i, tail).value == ()
  {
  }

  lemma NumberStarts(s: seq<byte>, i: nat, j: nat, negative: bool, whole: Option<nat>)
    ensures NumberSpelled(s, i, j, negative, whole) ==> i < |s| && (s[i] == MINUS || IsDigit(s[i]))
    ensures i < |s| && Num(s, i).Ok? && !Num(s, i).value.integral ==> Num(s, i).value.magnitude == 0
  {
    hide Magnitude, Digits, PlaceValue, Fraction, Exponent, ExponentSpelled;
  }

  /** No document starts with a blank, a comma or a closing bracket. */
  lemma TokenStarts(s: seq<byte>, i: nat, j: nat, d: Doc)
    requires TokenSpelled(s, i, j, d)
    ensures i < |s| && !IsBlankByte(s[i]) && s[i] != COMMA && s[i] != CLOSE_BRACKET && s[i] != CLOSE_BRACE
    ensures s[i] == OPEN_BRACKET <==> d.Array?
    ensures s[i] == OPEN_BRACE <==> d.Object?
  {
    hide Word, WordSpelled, NumberSpelled, StringSpelled, ItemsSpelled, MembersSpelled;
    match d
    case Number(negative, whole) => NumberStarts(s, i, j, negative, whole);
    case Null => WordStarts(s, i, j, "null");
    case Bool(flag) => WordStarts(s, i, j, if flag then "true" else "false");
    case _ =>
  }

  lemma WordStarts(s: seq<byte>, i: nat, j: nat, word: string)
    requires word != "" && (forall k | 0 <= k < |word| :: word[k] <= '~') && WordSpelled(s, i, j, word)
    ensures i < |s| && s[i] == word[0] as int
  {
    assert |s[i..j]| == |word| && s[i] == s[i..j][0];
  }

  /** The token that a value spelled at `i` starts with is where the blanks end. */
  lemma ValueStarts(s: seq<byte>, i: nat, j: nat, d: Doc)
    requires i <= |s|
    ensures ValueSpelled(s, i, j, d) <==> TokenSpelled(s, Space(s, i), j, d)
  {
    hide TokenSpelled, Space;
    SpaceIs(s, i, Space(s, i));
    if k: nat :| Blanks(s, i, k) && TokenSpelled(s, k, j, d) {
      TokenStarts(s, k, j, d);
      SpaceIs(s, i, k);
    }
  }

  lemma ValueBehindSpace(s: seq<byte>, i: nat, j: nat, d: Doc)
    requires i <= |s|
    ensures ValueSpelled(s, i, j, d) <==> ValueSpelled(s, Space(s, i), j, d)
  {
    hide TokenSpelled, ValueSpelled, Space;
    SpaceTwice(s, i);
    ValueStarts(s, i, j, d);
    ValueStarts(s, Space(s, i), j, d);
  }

  // ---- what is read is what is spelled ----

  lemma {:induction false} ValuesAreSpelled(s: seq<byte>, i: nat, j: nat, d: Doc)
    requires i <= |s|
    ensures ValueAt(s, i) == Ok(d, j) <==> ValueSpelled(s, i, j, d)
    decreases |s| - i, 1
  {
    hide ArrayAt, ObjectAt, ScalarAt, ItemsSpelled, MembersSpelled, ValueSpelled;
    hide WordSpelled, NumberSpelled, StringSpelled;
    var k := Space(s, i);
    ValueStarts(s, i, j, d);
    if TokenSpelled(s, k, j, d) { TokenStarts(s, k, j, d); }
    if k < |s| {
      if s[k] == OPEN_BRACKET {
        if d.Array? { ArraysAreSpelled(s, k + 1, j, d.items); }
      } else if s[k] == OPEN_BRACE {
        if d.Object? { ObjectsAreSpelled(s, k + 1, j, d.members); }
      } else {
        ScalarIsScalarDoc(s, k);
        if IsScalar(d) { ScalarsAreSpelled(s, k, j, d); }
      }
    }
  }

  lemma ScalarIsScalarDoc(s: seq<byte>, i: nat)
    requires i < |s|
    ensures ScalarAt(s, i).Ok? ==> IsScalar(ScalarAt(s, i).value)
  {
    hide Word, Num, Str;
  }

  lemma {:induction false} ArraysAreSpelled(s: seq<byte>, i: nat, j: nat, items: seq<Doc>)
    requires i <= |s|
    ensures ArrayAt(s, i) == Ok(items, j) <==> ItemsSpelled(s, i, j, items)
    decreases |s| - i, 3
  {
    hide ElementsAt, ElementsSpelled, Mark;
    var k := Space(s, i);
    if j > 0 { MarkIs(s, i, j, ']'); }
    MarkIsPositive(s, i, j, ']');
    if k < |s| {
      MarkIs(s, i, k + 1, ']');
      ElementsAreSome(s, k);
    }
    if items != [] {
      ElementsBehindSpace(s, i, j, items);
      if k < |s| { ElementsAreSpelled(s, k, j, items); }
    }
  }

  /** The first value may have blanks in front; it does not start with a closing bracket. */
  lemma ElementsBehindSpace(s: seq<byte>, i: nat, j: nat, items: seq<Doc>)
    requires i <= |s| && items != []
    ensures ElementsSpelled(s, i, j, items) <==> ElementsSpelled(s, Space(s, i), j, items)
    ensures ElementsSpelled(s, i, j, items) ==> Space(s, i) < |s| && s[Space(s, i)] != CLOSE_BRACKET
  {
    hide ValueSpelled, TokenSpelled, ElementsEndSpelled;
    var a := Space(s, i);
    forall k: nat ensures ValueSpelled(s, i, k, items[0]) <==> ValueSpelled(s, a, k, items[0]) {
      ValueBehindSpace(s, i, k, items[0]);
    }
    if k: nat :| ValueSpelled(s, i, k, items[0]) && ElementsEndSpelled(s, k, j, items[1..]) {
      ValueStarts(s, i, k, items[0]);
      TokenStarts(s, a, k, items[0]);
    }
  }

  /** Behind one item: the closing bracket, or a comma and more. */
  function ElementsEndAt(s: seq<byte>, i: nat): (r: Scan<seq<Doc>>)
    requires i <= |s|
  {
    var j := Space(s, i);
    if j == |s| then Cut(false)
    else if s[j] == COMMA then ElementsAt(s, j + 1)
    else if s[j] == CLOSE_BRACKET then Ok([], j + 1)
    else Bad
  }

  lemma ElementsAre(s: seq<byte>, i: nat)
    requires i <= |s|
    ensures
      if !ValueAt(s, i).Ok? then !ElementsAt(s, i).Ok?
      else
        var rest := ElementsEndAt(s, ValueAt(s, i).next);
        if !rest.Ok? then !ElementsAt(s, i).Ok?
        else ElementsAt(s, i) == Ok([ValueAt(s, i).value] + rest.value, rest.next)
  {
    hide ValueAt;
    if ValueAt(s, i).Ok? { assert [ValueAt(s, i).value] + [] == [ValueAt(s, i).value]; }
  }

  lemma {:induction false} ElementsAreSpelled(s: seq<byte>, i: nat, j: nat, items: seq<Doc>)
    requires i <= |s| && items != []
    ensures ElementsAt(s, i) == Ok(items, j) <==> ElementsSpelled(s, i, j, items)
    decreases |s| - i, 2
  {
    hide ValueAt, ElementsAt, ElementsEndAt, ValueSpelled, ElementsEndSpelled;
    ElementsAre(s, i);
    assert items == [items[0]] + items[1..];
    if ElementsAt(s, i) == Ok(items, j) {
      var k := ValueAt(s, i).next;
      ValuesAreSpelled(s, i, k, items[0]);
      ElementsEndsAreSpelled(s, k, j, items[1..]);
    }
    if k: nat :| ValueSpelled(s, i, k, items[0]) && ElementsEndSpelled(s, k, j, items[1..]) {
      ValuesAreSpelled(s, i, k, items[0]);
      ElementsEndsAreSpelled(s, k, j, items[1..]);
    }
  }

  lemma {:induction false} ElementsEndsAreSpelled(s: seq<byte>, i: nat, j: nat, items: seq<Doc>)
    requires i <= |s|
    ensures ElementsEndAt(s, i) == Ok(items, j) <==> ElementsEndSpelled(s, i, j, items)
    decreases |s| - i, 3
  {
    hide ElementsAt, ElementsSpelled, Mark;
    var k := Space(s, i);
    if j > 0 { MarkIs(s, i, j, ']'); }
    if k < |s| {
      MarkIs(s, i, k + 1, ']');
      MarkIs(s, i, k + 1, ',');
      if s[k] == COMMA && items != [] { ElementsAreSpelled(s, k + 1, j, items); }
      ElementsAreSome(s, k + 1);
    }
    forall c: nat | Mark(s, i, c, ',') ensures c == k + 1 <= |s| && s[k] == COMMA {
      MarkIsPositive(s, i, c, ',');
      MarkIs(s, i, c, ',');
    }
    MarkIsPositive(s, i, j, ']');
  }

  lemma MarkIsPositive(s: seq<byte>, i: nat, j: nat, mark: char)
    ensures Mark(s, i, j, mark) ==> j > 0
  {
  }

  lemma ElementsAreSome(s: seq<byte>, i: nat)
    requires i <= |s|
    ensures ElementsAt(s, i).Ok? ==> ElementsAt(s, i).value != []
  {
  }

  lemma KeysAreSpelled(s: seq<byte>, i: nat, j: nat, key: seq<Code>)
    requires i <= |s|
    ensures Key(s, i) == Ok(key, j) <==> KeySpelled(s, i, j, key)
  {
    hide Mark, Str, StringSpelled;
    var a := Space(s, i) + 1;
    MarkIs(s, i, a, '\"');
    if a <= |s| { StringsAreSpelled(s, a, j, key); }
    forall b: nat | Mark(s, i, b, '\"') ensures b == a {
      MarkIsPositive(s, i, b, '\"');
      MarkIs(s, i, b, '\"');
    }
  }

  lemma ColonsAreSpelled(s: seq<byte>, i: nat, c: nat)
    requires i <= |s|
    ensures Colon(s, i) == Ok((), c) <==> Mark(s, i, c, ':')
  {
    hide Mark;
    MarkIsPositive(s, i, c, ':');
    if c > 0 { MarkIs(s, i, c, ':'); }
  }

  lemma {:induction false} ObjectsAreSpelled(s: seq<byte>, i: nat, j: nat, members: seq<Entry>)
    requires i <= |s|
    ensures ObjectAt(s, i) == Ok(members, j) <==> MembersSpelled(s, i, j, members)
    decreases |s| - i, 4
  {
    hide EntriesAt, EntriesSpelled, Mark;
    var k := Space(s, i);
    MarkIsPositive(s, i, j, '}');
    if j > 0 { MarkIs(s, i, j, '}'); }
    if k < |s| {
      MarkIs(s, i, k + 1, '}');
      EntriesAreSome(s, k);
    }
    if members != [] {
      EntriesBehindSpace(s, i, j, members);
      if k < |s| { EntriesAreSpelled(s, k, j, members); }
    }
  }

  lemma EntriesAreSome(s: seq<byte>, i: nat)
    requires i <= |s|
    ensures EntriesAt(s, i).Ok? ==> EntriesAt(s, i).value != []
  {
    hide Key, Colon, ValueAt, EntriesEndAt;
  }

  lemma MarkBehindSpace(s: seq<byte>, i: nat, j: nat, mark: char)
    requires i <= |s| && mark in "\",:[]{}"
    ensures Mark(s, i, j, mark) <==> Mark(s, Space(s, i), j, mark)
    ensures Mark(s, i, j, mark) ==> Space(s, i) < |s| && s[Space(s, i)] == mark as int
  {
    hide Mark, Space;
    SpaceTwice(s, i);
    MarkIsPositive(s, i, j, mark);
    MarkIsPositive(s, Space(s, i), j, mark);
    if j > 0 {
      MarkIs(s, i, j, mark);
      MarkIs(s, Space(s, i), j, mark);
    }
  }

  lemma KeyBehindSpace(s: seq<byte>, i: nat, j: nat, key: seq<Code>)
    requires i <= |s|
    ensures KeySpelled(s, i, j, key) <==> KeySpelled(s, Space(s, i), j, key)
    ensures KeySpelled(s, i, j, key) ==> Space(s, i) < |s| && s[Space(s, i)] == QUOTE
  {
    hide Mark, Space, StringSpelled;
    forall a: nat
      ensures Mark(s, i, a, '\"') <==> Mark(s, Space(s, i), a, '\"')
      ensures Mark(s, i, a, '\"') ==> Space(s, i) < |s| && s[Space(s, i)] == QUOTE
    {
      MarkBehindSpace(s, i, a, '\"');
    }
  }

  /** The first key may have blanks in front. */
  lemma EntriesBehindSpace(s: seq<byte>, i: nat, j: nat, members: seq<Entry>)
    requires i <= |s| && members != []
    ensures EntriesSpelled(s, i, j, members) <==> EntriesSpelled(s, Space(s, i), j, members)
    ensures EntriesSpelled(s, i, j, members) ==> Space(s, i) < |s| && s[Space(s, i)] != CLOSE_BRACE
  {
    hide KeySpelled, AssignedSpelled, EntriesEndSpelled;
    var a := Space(s, i);
    forall b: nat
      ensures KeySpelled(s, i, b, members[0].key) <==> KeySpelled(s, a, b, members[0].key)
      ensures KeySpelled(s, i, b, members[0].key) ==> a < |s| && s[a] == QUOTE
    {
      KeyBehindSpace(s, i, b, members[0].key);
    }
  }

  /** What the reader finds behind a key: a colon and a value. */
  function AssignedAt(s: seq<byte>, i: nat): (r: Scan<Doc>)
    requires i <= |s|
    ensures r.Ok? ==> i < r.next <= |s|
  {
    var (_, c) :- Colon(s, i);
    ValueAt(s, c)
  }

  lemma {:induction false} AssignedAreSpelled(s: seq<byte>, i: nat, j: nat, d: Doc)
    requires i <= |s|
    ensures AssignedAt(s, i) == Ok(d, j) <==> AssignedSpelled(s, i, j, d)
    decreases |s| - i, 2
  {
    hide Colon, ValueAt, ValueSpelled, Mark;
    if Colon(s, i).Ok? {
      var c := Colon(s, i).next;
      assert Colon(s, i).value == ();
      ColonsAreSpelled(s, i, c);
      ValuesAreSpelled(s, c, j, d);
    }
    forall c: nat | Mark(s, i, c, ':') ensures Colon(s, i) == Ok((), c) {
      ColonsAreSpelled(s, i, c);
    }
  }

  /** The members behind an opening brace, by key and value. */
  lemma EntriesAre(s: seq<byte>, i: nat)
    requires i <= |s|
    ensures
      if !Key(s, i).Ok? then !EntriesAt(s, i).Ok?
      else
        var b := Key(s, i).next;
        if !AssignedAt(s, b).Ok? then !EntriesAt(s, i).Ok?
        else
          var k := AssignedAt(s, b).next;
          if !EntriesEndAt(s, k).Ok? then !EntriesAt(s, i).Ok?
          else EntriesAt(s, i) == Ok([Entry(Key(s, i).value, AssignedAt(s, b).value)] + EntriesEndAt(s, k).value,
                                     EntriesEndAt(s, k).next)
  {
    hide Key, Colon, ValueAt, EntriesEndAt;
  }

  lemma {:induction false} EntriesAreSpelled(s: seq<byte>, i: nat, j: nat, members: seq<Entry>)
    requires i <= |s| && members != []
    ensures EntriesAt(s, i) == Ok(members, j) <==> EntriesSpelled(s, i, j, members)
    decreases |s| - i, 3
  {
    hide Key, AssignedAt, EntriesAt, EntriesEndAt, KeySpelled, AssignedSpelled, EntriesEndSpelled;
    EntriesAre(s, i);
    var key, d, rest := members[0].key, members[0].value, members[1..];
    assert members == [Entry(key, d)] + rest;
    if EntriesAt(s, i) == Ok(members, j) {
      var b := Key(s, i).next;
      var k := AssignedAt(s, b).next;
      KeysAreSpelled(s, i, b, key);
      AssignedAreSpelled(s, b, k, d);
      EntriesEndsAreSpelled(s, k, j, rest);
    }
    if b: nat, k: nat :| KeySpelled(s, i, b, key) && AssignedSpelled(s, b, k, d) && EntriesEndSpelled(s, k, j, rest) {
      KeysAreSpelled(s, i, b, key);
      AssignedAreSpelled(s, b, k, d);
      EntriesEndsAreSpelled(s, k, j, rest);
    }
  }

  lemma {:induction false} EntriesEndsAreSpelled(s: seq<byte>, i: nat, j: nat, members: seq<Entry>)
    requires i <= |s|
    ensures EntriesEndAt(s, i) == Ok(members, j) <==> EntriesEndSpelled(s, i, j, members)
    decreases |s| - i, 4
  {
    hide EntriesAt, EntriesSpelled, Mark;
    var k := Space(s, i);
    MarkIsPositive(s, i, j, '}');
    if j > 0 { MarkIs(s, i, j, '}'); }
    if k < |s| {
      MarkIs(s, i, k + 1, '}');
      MarkIs(s, i, k + 1, ',');
      EntriesAreSome(s, k + 1);
      if s[k] == COMMA && members != [] { EntriesAreSpelled(s, k + 1, j, members); }
    }
    forall c: nat | Mark(s, i, c, ',') ensures c == k + 1 <= |s| && s[k] == COMMA {
      MarkIsPositive(s, i, c, ',');
      MarkIs(s, i, c, ',');
    }
  }

  // ---- counters ----

  /** A counter is read where the text spells `null` or an integer of 64 bits without a sign. */
  lemma CountersAreSpelled(s: seq<byte>, i: nat, j: nat, value: Option<u64>)
    requires i <= |s|
    ensures Counter(s, i) == Ok(value, j)
            <==> ValueSpelled(s, i, j, if value.None? then Null else Number(false, Some(value.value)))
  {
    hide Counter, ValueAt, ValueSpelled;
    CounterReads(s, i);
    ValuesAreSpelled(s, i, j, if value.None? then Null else Number(false, Some(value.value)));
  }

  predicate EndsNumber(s: seq<byte>, j: nat) {
    j < |s| ==> !('0' as int <= s[j] <= '9' as int) && s[j] != '.' as int && s[j] != 'e' as int && s[j] != 'E' as int
  }

  /** Digits without a leading zero count as the sum of their place values, if that fits in 64 bits. */
  lemma DigitsAreCounted(s: seq<byte>, i: nat, k: nat, j: nat)
    requires Blanks(s, i, k) && DigitsSpelled(s, k, j) && (s[k] == '0' as int ==> j == k + 1) && EndsNumber(s, j)
    ensures
      var n := PlaceValue(s[k..j]);
      Counter(s, i) == if n < 18446744073709551616 then Ok(Some(n), j) else Bad
  {
    hide Counter, ValueAt, PlaceValue;
    var d := Number(false, Some(PlaceValue(s[k..j])));
    assert IsNumber(s, k, k, j, j, j, false, Some(PlaceValue(s[k..j])));
    assert TokenSpelled(s, k, j, d);
    ValuesAreSpelled(s, i, j, d);
    CounterReads(s, i);
  }

  // ---- the verdict from the grammar ----

  /** The text is one object with these members, and nothing but blanks around it. */
  ghost predicate IsObjectText(s: seq<byte>, members: seq<Entry>) {
    exists j: nat :: ValueSpelled(s, 0, j, Object(members)) && Blanks(s, j, |s|)
  }

  lemma DocumentsAreSpelled(s: seq<byte>, members: seq<Entry>)
    ensures DocumentOf(s) == Some(members) <==> IsObjectText(s, members)
  {
    hide ValueAt, ValueSpelled, Blanks, Space;
    if DocumentOf(s) == Some(members) {
      var j := ValueAt(s, 0).next;
      ValuesAreSpelled(s, 0, j, Object(members));
      SpaceIs(s, j, |s|);
    }
    if j: nat :| ValueSpelled(s, 0, j, Object(members)) && Blanks(s, j, |s|) {
      ValuesAreSpelled(s, 0, j, Object(members));
      SpaceIs(s, j, |s|);
    }
  }

  /**
   A text is accepted with a usage exactly when it spells an object that is usable and whose members say that usage; if
   it spells an object that is not usable, it is rejected.
   */
  lemma AcceptedIsSpelled(s: seq<byte>, usage: Option<TokenUsage>)
    ensures Classify(s) == Done(usage)
            <==> exists members ::
                   IsObjectText(s, members) && Usable(Response, members) && usage == ResponseUsage(members)
    ensures forall members :: IsObjectText(s, members) && !Usable(Response, members) ==> Classify(s) == Rejected
  {
    hide Classify, DocumentOf, IsObjectText, Usable, ResponseUsage;
    VerdictIsMeaning(s);
    forall members ensures DocumentOf(s) == Some(members) <==> IsObjectText(s, members) {
      DocumentsAreSpelled(s, members);
    }
  }
}
