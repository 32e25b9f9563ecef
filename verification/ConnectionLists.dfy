/** The names that the `Connection` lines of a message list. */
module ConnectionLists {

  /** Names are lower case, as the header map keeps them; values are byte strings. */
  datatype Header = Header(name: string, value: string)

  type HeaderMap = seq<Header>

  const CONNECTION := "connection"

  /** The values of one name, in order. */
  function Values(headers: HeaderMap, name: string): seq<string> {
    if headers == [] then []
    else Values(headers[..|headers| - 1], name)
         + if headers[|headers| - 1].name == name then [headers[|headers| - 1].value] else []
  }

  lemma ValuesAppend(headers: HeaderMap, last: Header, name: string)
    ensures Values(headers + [last], name)
            == Values(headers, name) + if last.name == name then [last.value] else []
  {
    assert (headers + [last])[..|headers|] == headers;
  }

  // ---- Connection tokens ----

  /** A value that can be read as text: visible ASCII, spaces and tabs. */
  predicate IsText(value: string) {
    forall k | 0 <= k < |value| :: 32 <= value[k] as int < 127 || value[k] == '\t'
  }

  predicate IsBlank(c: char) {
    c == ' ' || c == '\t'
  }

  function TrimBlanks(text: string): string {
    if text != [] && IsBlank(text[0]) then TrimBlanks(text[1..])
    else if text != [] && IsBlank(text[|text| - 1]) then TrimBlanks(text[..|text| - 1])
    else text
  }

  /** The items between commas; there is always one more than there are commas. */
  function Items(text: string): (items: seq<string>)
    ensures items != []
  {
    if text == [] then [""]
    else
      var rest := Items(text[1..]);
      if text[0] == ',' then [""] + rest else [[text[0]] + rest[0]] + rest[1..]
  }

  /** Token characters of a header name (section 3.2.6 of RFC 7230). */
  predicate IsTokenChar(c: char) {
    'a' <= c <= 'z' || 'A' <= c <= 'Z' || '0' <= c <= '9' || c in "!#$%&'*+-.^_`|~"
  }

  function Lower(c: char): char {
    if 'A' <= c <= 'Z' then (c as int + 32) as char else c
  }

  function LowerText(text: string): string {
    seq(|text|, i requires 0 <= i < |text| => Lower(text[i]))
  }

  /** The name an item stands for; empty and malformed items stand for none. */
  function Token(item: string): seq<string> {
    var name := TrimBlanks(item);
    if name == [] || exists k | 0 <= k < |name| :: !IsTokenChar(name[k]) then [] else [LowerText(name)]
  }

  function Tokens(items: seq<string>): seq<string> {
    if items == [] then [] else Tokens(items[..|items| - 1]) + Token(items[|items| - 1])
  }

  function LineTokens(value: string): seq<string> {
    if IsText(value) then Tokens(Items(value)) else []
  }

  function AllTokens(lines: seq<string>): seq<string> {
    if lines == [] then [] else AllTokens(lines[..|lines| - 1]) + LineTokens(lines[|lines| - 1])
  }

  // ---- the listed names in plain terms ----

  /** Visible ASCII, the space and the tab. */
  ghost predicate IsReadable(value: string) {
    forall c | c in value :: c == '\t' || ' ' <= c <= '~'
  }

  /** What separates tokens (section 3.2.6 of RFC 7230). */
  const DELIMITERS := "\"(),/:;<=>?@[\\]{}"

  /** Any visible character that is no delimiter. */
  ghost predicate IsVisible(c: char) {
    '!' <= c <= '~' && c !in DELIMITERS
  }

  lemma TokenCharIs(c: char)
    ensures IsTokenChar(c) <==> IsVisible(c)
  {
  }

  lemma TextIsReadable(value: string)
    ensures IsText(value) <==> IsReadable(value)
  {
    assert IsReadable(value) ==> forall k | 0 <= k < |value| :: value[k] in value;
  }

  /** A stretch without commas, bounded by commas or the ends of the line. */
  ghost predicate IsStretch(line: string, a: nat, b: nat) {
    && a <= b <= |line|
    && (a == 0 || line[a - 1] == ',') && (b == |line| || line[b] == ',')
    && forall k | a <= k < b :: line[k] != ','
  }

  ghost predicate OnlyBlanks(line: string, a: nat, b: nat) {
    a <= b <= |line| && forall k | a <= k < b :: line[k] == ' ' || line[k] == '\t'
  }

  /** The token characters from `c` to `d` are those of the name, but for the name's lower case. */
  ghost predicate Spells(line: string, c: nat, d: nat, name: string) {
    && c < d <= |line| && d - c == |name|
    && (forall k | c <= k < d :: IsVisible(line[k]))
    && forall k | 0 <= k < |name| ::
         name[k] == if 'A' <= line[c + k] <= 'Z' then line[c + k] - 'A' + 'a' else line[c + k]
  }

  /** The stretch from `a` to `b` is the name, at `c` to `d`, with nothing but blanks around it. */
  ghost predicate NamesAt(line: string, name: string, a: nat, c: nat, d: nat, b: nat) {
    IsStretch(line, a, b) && OnlyBlanks(line, a, c) && Spells(line, c, d, name) && OnlyBlanks(line, d, b)
  }

  /** The line can be read and lists the name. */
  ghost predicate Lists(line: string, name: string) {
    IsReadable(line) && exists a: nat, c: nat, d: nat, b: nat :: NamesAt(line, name, a, c, d, b)
  }

  /** Some `Connection` line lists the name. */
  ghost predicate IsListed(headers: HeaderMap, name: string) {
    exists i | 0 <= i < |headers| :: headers[i].name == "connection" && Lists(headers[i].value, name)
  }

  /** A stretch behind the first character, or with it. */
  lemma StretchMoved(text: string, a: nat, b: nat)
    requires text != [] && IsStretch(text[1..], a, b)
    ensures
      var start := if a == 0 && text[0] != ',' then 0 else a + 1;
      && IsStretch(text, start, b + 1)
      && text[start..b + 1] == (if start == 0 then [text[0]] else []) + text[1..][a..b]
  {
    var rest := text[1..];
    assert forall k | a <= k < b :: text[k + 1] == rest[k];
    assert a > 0 ==> text[a] == rest[a - 1];
    assert b < |rest| ==> text[b + 1] == rest[b];
  }

  lemma {:induction false} ItemAt(text: string, n: nat) returns (a: nat, b: nat)
    requires n < |Items(text)|
    ensures IsStretch(text, a, b) && text[a..b] == Items(text)[n] && (n == 0 <==> a == 0)
    decreases |text|
  {
    a, b := 0, 0;
    if text != [] && (text[0] != ',' || n > 0) {
      var rest := Items(text[1..]);
      assert text == [text[0]] + text[1..];
      ItemsCons(text[0], text[1..]);
      hide Items, IsStretch;
      a, b := ItemAt(text[1..], if text[0] == ',' then n - 1 else n);
      StretchMoved(text, a, b);
      a, b := if n == 0 then 0 else a + 1, b + 1;
    }
  }

  /** A stretch behind the first character, or around it, without that character. */
  lemma StretchTail(text: string, a: nat, b: nat)
    requires IsStretch(text, a, b) && text != [] && (a > 0 || text[0] != ',')
    ensures b > 0 && IsStretch(text[1..], if a == 0 then 0 else a - 1, b - 1)
    ensures a > 0 ==> text[1..][a - 1..b - 1] == text[a..b]
    ensures a == 0 ==> text[a..b] == [text[0]] + text[1..][..b - 1]
    ensures text[0] != ',' && a > 0 ==> a > 1
  {
  }

  lemma {:induction false} StretchIsItem(text: string, a: nat, b: nat) returns (n: nat)
    requires IsStretch(text, a, b)
    ensures n < |Items(text)| && text[a..b] == Items(text)[n] && (n == 0 <==> a == 0)
    decreases |text|
  {
    n := 0;
    if text != [] {
      assert text == [text[0]] + text[1..];
      ItemsCons(text[0], text[1..]);
      if text[0] != ',' || a > 0 {
        hide Items, IsStretch;
        StretchTail(text, a, b);
        n := StretchIsItem(text[1..], if a == 0 then 0 else a - 1, b - 1);
        if text[0] == ',' { n := n + 1; }
      }
    }
  }

  lemma {:induction false} TrimBlanksIs(text: string) returns (c: nat, d: nat)
    ensures c <= d <= |text| && TrimBlanks(text) == text[c..d]
    ensures OnlyBlanks(text, 0, c) && OnlyBlanks(text, d, |text|)
    ensures c < d ==> !IsBlank(text[c]) && !IsBlank(text[d - 1])
    decreases |text|
  {
    c, d := 0, |text|;
    if text != [] && IsBlank(text[0]) {
      c, d := TrimBlanksIs(text[1..]);
      c, d := c + 1, d + 1;
    } else if text != [] && IsBlank(text[|text| - 1]) {
      c, d := TrimBlanksIs(text[..|text| - 1]);
    }
  }

  /** Between blanks a name is spelled in one place only. */
  lemma SpelledOnce(item: string, c: nat, d: nat, e: nat, f: nat, name: string)
    requires c <= d <= |item| && OnlyBlanks(item, 0, c) && OnlyBlanks(item, d, |item|)
    requires c < d ==> !IsBlank(item[c]) && !IsBlank(item[d - 1])
    requires OnlyBlanks(item, 0, e) && Spells(item, e, f, name) && OnlyBlanks(item, f, |item|)
    ensures e == c && f == d
  {
    assert IsVisible(item[e]) && IsVisible(item[f - 1]);
  }

  lemma TokenIsLower(item: string, name: string)
    ensures
      var core := TrimBlanks(item);
      Token(item) == [name]
      <==> && core != [] && (forall k | 0 <= k < |core| :: IsTokenChar(core[k]))
           && |core| == |name| && forall k | 0 <= k < |name| :: name[k] == Lower(core[k])
  {
    hide TrimBlanks, IsTokenChar, Lower;
    var core := TrimBlanks(item);
    assert LowerText(core) == name
           <==> |core| == |name| && forall k | 0 <= k < |name| :: name[k] == Lower(core[k]);
  }

  lemma TokenOfCore(item: string, c: nat, d: nat, name: string)
    requires c <= d <= |item| && TrimBlanks(item) == item[c..d]
    ensures Token(item) == [name] <==> Spells(item, c, d, name)
  {
    hide TrimBlanks, IsTokenChar, IsVisible, Token;
    TokenIsLower(item, name);
    var core := item[c..d];
    assert forall k | 0 <= k < |core| :: core[k] == item[c + k];
    forall k | c <= k < d ensures item[k] == core[k - c] && (IsTokenChar(item[k]) <==> IsVisible(item[k])) {
      TokenCharIs(item[k]);
    }
  }

  /** An item stands for a name exactly when it spells it between blanks. */
  lemma TokenIs(item: string, name: string)
    ensures Token(item) == [name]
            <==> exists c: nat, d: nat ::
                   OnlyBlanks(item, 0, c) && Spells(item, c, d, name) && OnlyBlanks(item, d, |item|)
  {
    hide Token, TrimBlanks, Spells, OnlyBlanks;
    var c, d := TrimBlanksIs(item);
    TokenOfCore(item, c, d, name);
    if e: nat, f: nat :| OnlyBlanks(item, 0, e) && Spells(item, e, f, name) && OnlyBlanks(item, f, |item|) {
      SpelledOnce(item, c, d, e, f, name);
    }
  }

  lemma {:induction false} InTokens(items: seq<string>, name: string)
    ensures name in Tokens(items) <==> exists k | 0 <= k < |items| :: Token(items[k]) == [name]
  {
    hide Token;
    if items != [] {
      var n := |items| - 1;
      InTokens(items[..n], name);
      TokenIsShort(items[n]);
      assert forall k | 0 <= k < n :: items[..n][k] == items[k];
    }
  }

  lemma TokenIsShort(item: string)
    ensures |Token(item)| <= 1
  {
  }

  lemma InLineTokens(line: string, name: string)
    ensures name in LineTokens(line) <==> Lists(line, name)
  {
    hide Items, Token, Tokens, IsText, IsReadable;
    TextIsReadable(line);
    InTokens(Items(line), name);
    if a: nat, c: nat, d: nat, b: nat :| NamesAt(line, name, a, c, d, b) {
      var n := StretchIsItem(line, a, b);
      NamedItem(line, name, a, c, d, b);
    }
    if n :| 0 <= n < |Items(line)| && Token(Items(line)[n]) == [name] {
      var a, b := ItemAt(line, n);
      ItemNames(line, name, a, b);
    }
  }

  lemma NamedItem(line: string, name: string, a: nat, c: nat, d: nat, b: nat)
    requires NamesAt(line, name, a, c, d, b)
    ensures Token(line[a..b]) == [name]
  {
    hide Token;
    TokenIs(line[a..b], name);
    assert Spells(line[a..b], c - a, d - a, name);
  }

  lemma ItemNames(line: string, name: string, a: nat, b: nat)
    requires IsStretch(line, a, b) && Token(line[a..b]) == [name]
    ensures exists c: nat, d: nat :: NamesAt(line, name, a, c, d, b)
  {
    hide Token;
    TokenIs(line[a..b], name);
    var item := line[a..b];
    var c: nat, d: nat :| OnlyBlanks(item, 0, c) && Spells(item, c, d, name) && OnlyBlanks(item, d, |item|);
    assert forall k | a <= k < b :: line[k] == item[k - a];
    assert NamesAt(line, name, a, a + c, a + d, b);
  }

  lemma {:induction false} InAllTokens(lines: seq<string>, name: string)
    ensures name in AllTokens(lines) <==> exists k | 0 <= k < |lines| :: Lists(lines[k], name)
  {
    hide LineTokens, Lists;
    if lines != [] {
      var n := |lines| - 1;
      InAllTokens(lines[..n], name);
      InLineTokens(lines[n], name);
      assert forall k | 0 <= k < n :: lines[..n][k] == lines[k];
    }
  }

  lemma {:induction false} InValues(headers: HeaderMap, name: string, value: string)
    ensures value in Values(headers, name) <==> Header(name, value) in headers
  {
    if headers != [] {
      var n := |headers| - 1;
      InValues(headers[..n], name, value);
      assert headers == headers[..n] + [headers[n]];
    }
  }

  /** The tokens of the `Connection` lines are the names listed. */
  lemma TokensAreListed(headers: HeaderMap, name: string)
    ensures name in AllTokens(Values(headers, CONNECTION)) <==> IsListed(headers, name)
  {
    hide AllTokens, Values, Lists;
    var lines := Values(headers, CONNECTION);
    InAllTokens(lines, name);
    if k :| 0 <= k < |lines| && Lists(lines[k], name) {
      InValues(headers, CONNECTION, lines[k]);
    }
    if i :| 0 <= i < |headers| && headers[i].name == "connection" && Lists(headers[i].value, name) {
      InValues(headers, CONNECTION, headers[i].value);
      assert headers[i] in headers;
    }
  }

  method ConnectionTokens(headers: HeaderMap) returns (tokens: seq<string>)
    ensures tokens == AllTokens(Values(headers, CONNECTION))
    ensures forall name :: name in tokens <==> IsListed(headers, name)
  {
    hide Items, Token, IsText, Values, IsListed;
    forall name ensures name in AllTokens(Values(headers, CONNECTION)) <==> IsListed(headers, name) {
      TokensAreListed(headers, name);
    }
    tokens := [];
    var lines := Values(headers, CONNECTION);
    for n := 0 to |lines|
      invariant tokens == AllTokens(lines[..n])
    {
      assert lines[..n + 1][..n] == lines[..n];
      if IsText(lines[n]) {
        var items := Items(lines[n]);
        ghost var before := tokens;
        for k := 0 to |items|
          invariant tokens == before + Tokens(items[..k])
        {
          assert items[..k + 1][..k] == items[..k];
          tokens := tokens + Token(items[k]);
        }
        assert items[..|items|] == items;
      }
    }
    assert lines[..|lines|] == lines;
  }

  function JoinWithCommas(lines: seq<string>): string
    requires lines != []
  {
    if |lines| == 1 then lines[0] else lines[0] + ("," + JoinWithCommas(lines[1..]))
  }

  lemma ItemsCons(c: char, text: string)
    ensures
      var rest := Items(text);
      Items([c] + text) == if c == ',' then [""] + rest else [[c] + rest[0]] + rest[1..]
  {
    assert ([c] + text)[1..] == text;
  }

  lemma {:induction false} ItemsAcrossComma(a: string, b: string)
    ensures Items(a + ("," + b)) == Items(a) + Items(b)
    decreases |a|, 1
  {
    ItemsCons(',', b);
    if a == [] {
      assert a + ("," + b) == "," + b;
    } else {
      ItemsAcrossCommaCons(a[0], a[1..], b);
      assert a == [a[0]] + a[1..];
    }
  }

  lemma {:induction false} ItemsAcrossCommaCons(c: char, a: string, b: string)
    ensures Items([c] + a + ("," + b)) == Items([c] + a) + Items(b)
    decreases |a| + 1, 0
  {
    hide Items;
    var tail := "," + b;
    var rest := Items(a);
    ItemsAcrossComma(a, b);
    assert [c] + a + tail == [c] + (a + tail);
    ItemsCons(c, a);
    ItemsCons(c, a + tail);
    assert (rest + Items(b))[0] == rest[0] && (rest + Items(b))[1..] == rest[1..] + Items(b);
  }

  lemma {:induction false} TokensAppend(a: seq<string>, b: seq<string>)
    ensures Tokens(a + b) == Tokens(a) + Tokens(b)
  {
    if b == [] {
      assert a + b == a;
    } else {
      assert (a + b)[..|a + b| - 1] == a + b[..|b| - 1];
      TokensAppend(a, b[..|b| - 1]);
    }
  }

  lemma {:induction false} AllTokensCons(first: string, rest: seq<string>)
    ensures AllTokens([first] + rest) == LineTokens(first) + AllTokens(rest)
  {
    hide LineTokens;
    var all := [first] + rest;
    if rest == [] {
      assert all == [first] && [first][..0] == [];
    } else {
      var n := |rest| - 1;
      assert all[..|all| - 1] == [first] + rest[..n] && all[|all| - 1] == rest[n];
      AllTokensCons(first, rest[..n]);
    }
  }

  lemma AllTokensOne(line: string)
    ensures AllTokens([line]) == LineTokens(line)
  {
    AllTokensCons(line, []);
    assert [line] + [] == [line];
  }

  lemma CommaJoinsTokens(a: string, b: string)
    requires IsText(a) && IsText(b)
    ensures IsText(a + ("," + b))
    ensures LineTokens(a + ("," + b)) == LineTokens(a) + LineTokens(b)
  {
    hide Items, Token, Tokens;
    ItemsAcrossComma(a, b);
    TokensAppend(Items(a), Items(b));
  }

  /** A list on several lines names the same headers as the lines joined by commas, if all of it is readable. */
  lemma {:induction false} LinesOrCommas(lines: seq<string>)
    requires lines != [] && forall i | 0 <= i < |lines| :: IsText(lines[i])
    ensures IsText(JoinWithCommas(lines))
    ensures AllTokens([JoinWithCommas(lines)]) == AllTokens(lines)
  {
    hide LineTokens, AllTokens, IsText;
    AllTokensOne(JoinWithCommas(lines));
    if |lines| == 1 {
      AllTokensOne(lines[0]);
      assert lines == [lines[0]];
    } else {
      var rest := JoinWithCommas(lines[1..]);
      LinesOrCommas(lines[1..]);
      AllTokensOne(rest);
      CommaJoinsTokens(lines[0], rest);
      AllTokensCons(lines[0], lines[1..]);
      assert [lines[0]] + lines[1..] == lines;
    }
  }
}
