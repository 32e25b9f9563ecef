/**
 Taking a run of blanks out of a JSON text. Outside strings this changes nothing; inside a string the text stays a
 document whose string is shorter.
 */
module BlankRuns {
  import opened Bytes
  import opened Decimals
  import opened Recognizer
  import opened JsonGrammar
  import opened UsageProbe
  import opened ProbeMeaning

  // ---- inside and outside strings ----

  datatype Lex = Outside | Inside | Escaped

  function Next(state: Lex, b: byte): Lex {
    match state
    case Outside => if b == QUOTE then Inside else Outside
    case Inside => if b == QUOTE then Outside else if b == BACKSLASH then Escaped else Inside
    case Escaped => Inside
  }

  /** Whether the first `k` bytes end outside all strings, inside one, or behind a backslash in one. */
  function LexAt(s: seq<byte>, k: nat): Lex
    requires k <= |s|
  {
    if k == 0 then Outside else Next(LexAt(s, k - 1), s[k - 1])
  }

  lemma {:induction false} OutsideUntil(s: seq<byte>, i: nat, j: nat)
    requires i <= j <= |s| && LexAt(s, i) == Outside
    requires forall k | i <= k < j :: s[k] != QUOTE
    ensures LexAt(s, j) == Outside
    decreases j
  {
    if i < j { OutsideUntil(s, i, j - 1); }
  }

  // ---- positions before and after ----

  /** The byte at `a`, if it is read from `i` to `j`, is no form feed: no JSON text has one. */
  predicate NoFeed(s: seq<byte>, a: nat, i: nat, j: nat)
    requires j <= |s|
  {
    i <= a < j ==> s[a] != FORM_FEED
  }

  ghost predicate BlankRun(s: seq<byte>, a: nat, b: nat) {
    a <= b <= |s| && JsonBlank(s[a..b])
  }

  function ClosedUp(s: seq<byte>, a: nat, b: nat): seq<byte>
    requires a <= b <= |s|
  {
    s[..a] + s[b..]
  }

  /** The position is not inside the run. */
  predicate Clear(a: nat, b: nat, i: nat) {
    i <= a || b <= i
  }

  /** Where a position moves when the run is taken out. */
  function Moved(a: nat, b: nat, i: nat): nat
    requires a <= b
  {
    if i <= a then i else if i <= b then a else i - (b - a)
  }

  lemma RunBounds(s: seq<byte>, a: nat, b: nat)
    requires BlankRun(s, a, b)
    ensures a <= b <= |s|
  {
  }

  lemma RunByte(s: seq<byte>, a: nat, b: nat, k: nat)
    requires BlankRun(s, a, b) && a <= k < b
    ensures IsJsonSpace(s[k])
  {
    assert s[k] == s[a..b][k - a];
  }

  lemma ByteMoves(s: seq<byte>, a: nat, b: nat, i: nat)
    requires BlankRun(s, a, b) && i < |s| && (i < a || b <= i)
    ensures Moved(a, b, i) < |ClosedUp(s, a, b)| && ClosedUp(s, a, b)[Moved(a, b, i)] == s[i]
    ensures Moved(a, b, i + 1) == Moved(a, b, i) + 1 && Clear(a, b, i + 1)
  {
  }

  lemma BlanksMove(s: seq<byte>, a: nat, b: nat, i: nat, j: nat)
    requires BlankRun(s, a, b) && i <= j <= |s| && (forall k | i <= k < j :: IsJsonSpace(s[k]))
    requires Clear(a, b, j)
    ensures Moved(a, b, i) <= Moved(a, b, j) <= |ClosedUp(s, a, b)|
    ensures forall k | Moved(a, b, i) <= k < Moved(a, b, j) :: IsJsonSpace(ClosedUp(s, a, b)[k])
  {
    hide IsJsonSpace;
    var t := ClosedUp(s, a, b);
    forall k | Moved(a, b, i) <= k < Moved(a, b, j) ensures IsJsonSpace(t[k]) {
      assert t[k] == if k < a then s[k] else s[k + (b - a)];
    }
  }

  lemma SpaceIs(t: seq<byte>, i: nat, j: nat)
    requires i <= j <= |t| && (forall k | i <= k < j :: IsJsonSpace(t[k])) && (j < |t| ==> !IsJsonSpace(t[j]))
    ensures Space(t, i) == j
  {
    hide IsJsonSpace;
  }

  lemma SpaceMoves(s: seq<byte>, a: nat, b: nat, i: nat)
    requires BlankRun(s, a, b) && i <= |s|
    ensures
      var j, t := Space(s, i), ClosedUp(s, a, b);
      && Moved(a, b, i) <= |t| && Space(t, Moved(a, b, i)) == Moved(a, b, j)
      && Clear(a, b, j) && (j == |s| <==> Moved(a, b, j) == |t|)
      && (j < |s| ==> (j < a || b <= j) && Moved(a, b, j) < |t| && t[Moved(a, b, j)] == s[j])
      && NoFeed(s, a, i, j)
      && (LexAt(s, i) == Outside ==> LexAt(s, j) == Outside)
  {
    hide LexAt, Space, BlankRun;
    RunBounds(s, a, b);
    var j := Space(s, i);
    if a <= j < b { RunByte(s, a, b, j); }
    BlanksMove(s, a, b, i, j);
    if j < |s| { ByteMoves(s, a, b, j); }
    SpaceIs(ClosedUp(s, a, b), Moved(a, b, i), Moved(a, b, j));
    if LexAt(s, i) == Outside { OutsideUntil(s, i, j); }
  }

  // ---- tokens without blanks ----

  lemma FrontSlice(x: seq<byte>, y: seq<byte>, i: nat, n: nat)
    requires i <= n <= |x|
    ensures (x + y)[i..n] == x[i..n]
  {
  }

  lemma BackSlice(x: seq<byte>, y: seq<byte>, i: nat, n: nat)
    requires i <= n <= |y|
    ensures (x + y)[|x| + i..|x| + n] == y[i..n]
  {
  }

  /** Bytes without blanks among them keep together. */
  lemma BytesMove(s: seq<byte>, a: nat, b: nat, i: nat, n: nat)
    requires BlankRun(s, a, b) && i < n <= |s| && Clear(a, b, i)
    requires forall k | i <= k < n :: !IsJsonSpace(s[k])
    ensures Clear(a, b, n) && Moved(a, b, n) == Moved(a, b, i) + (n - i) <= |ClosedUp(s, a, b)|
    ensures ClosedUp(s, a, b)[Moved(a, b, i)..Moved(a, b, n)] == s[i..n]
  {
    if a < b { RunByte(s, a, b, a); }
    if a == b {
      assert s[..a] + s[b..] == s;
    } else if n <= a {
      FrontSlice(s[..a], s[b..], i, n);
      SliceSlice(s, 0, a, i, n);
    } else {
      BackSlice(s[..a], s[b..], i - b, n - b);
      SliceSlice(s, b, |s|, i - b, n - b);
    }
  }

  predicate IsTokenByte(b: byte) {
    !IsAsciiSpace(b) && b != QUOTE
  }

  /** A token without blanks and quotes keeps its bytes. */
  lemma TokenMoves(s: seq<byte>, a: nat, b: nat, i: nat, n: nat)
    requires BlankRun(s, a, b) && i < n <= |s| && Clear(a, b, i) && LexAt(s, i) == Outside
    requires forall k | i <= k < n :: IsTokenByte(s[k])
    ensures Clear(a, b, n) && Moved(a, b, n) == Moved(a, b, i) + (n - i) <= |ClosedUp(s, a, b)|
    ensures ClosedUp(s, a, b)[Moved(a, b, i)..Moved(a, b, n)] == s[i..n]
    ensures LexAt(s, n) == Outside && NoFeed(s, a, i, n)
  {
    hide LexAt;
    BytesMove(s, a, b, i, n);
    OutsideUntil(s, i, n);
  }

  lemma {:induction false} WordMoves(s: seq<byte>, i: nat, t: seq<byte>, k: nat, word: seq<byte>)
    requires i <= |s| && Word(s, i, word).Ok? && k + |word| <= |t| && t[k..k + |word|] == s[i..i + |word|]
    ensures Word(t, k, word) == Ok((), k + |word|)
    ensures s[i..i + |word|] == word
    decreases |word|
  {
    if word != [] {
      assert t[k] == t[k..k + |word|][0] == s[i];
      assert t[k + 1..k + |word|] == t[k..k + |word|][1..] == s[i..i + |word|][1..];
      WordMoves(s, i + 1, t, k + 1, word[1..]);
      assert s[i..i + |word|] == [s[i]] + s[i + 1..i + |word|];
    }
  }

  predicate ContinuesNumber(b: byte) {
    IsDigit(b) || b == DOT || b == LOWER_E || b == UPPER_E
  }

  predicate IsNumberByte(b: byte) {
    IsDigit(b) || IsNumberGap(b)
  }

  /** The bytes `i..n` of `s` stand at `k` in `t`, and what follows there ends a number. */
  ghost predicate Copied(s: seq<byte>, i: nat, n: nat, t: seq<byte>, k: nat) {
    && i <= n <= |s| && k + (n - i) < |t| && !ContinuesNumber(t[k + (n - i)])
    && forall m | i <= m < n :: t[k + (m - i)] == s[m]
  }

  lemma DigitsMove(s: seq<byte>, i: nat, t: seq<byte>, k: nat, n: nat)
    requires Copied(s, i, n, t, k) && Digits(s, i) <= n
    ensures Digits(t, k) == k + (Digits(s, i) - i)
  {
    var j := Digits(s, i);
    forall m | k <= m < k + (j - i) ensures IsDigit(t[m]) {
      assert t[k + (i + (m - k) - i)] == s[i + (m - k)];
    }
    if j < n { assert t[k + (j - i)] == s[j]; }
  }

  lemma ExponentMoves(s: seq<byte>, i: nat, t: seq<byte>, k: nat, n: nat)
    requires i < |s| && (s[i] == LOWER_E || s[i] == UPPER_E) && Exponent(s, i).Ok? && Exponent(s, i).next == n
    requires Copied(s, i, n, t, k)
    ensures t[k] == s[i] && Exponent(t, k) == Ok((), k + (n - i))
  {
    assert t[k + (i - i)] == s[i] && t[k + (i + 1 - i)] == s[i + 1];
    var d := if s[i + 1] == PLUS || s[i + 1] == MINUS then i + 2 else i + 1;
    assert t[k + (d - i)] == s[d];
    assert Copied(s, d, n, t, k + (d - i)) by {
      assert forall m | d <= m < n :: t[k + (d - i) + (m - d)] == t[k + (m - i)] == s[m];
    }
    DigitsMove(s, d, t, k + (d - i), n);
  }

  lemma FractionMoves(s: seq<byte>, i: nat, t: seq<byte>, k: nat, n: nat)
    requires i < |s| && s[i] == DOT && Fraction(s, i).Ok? && Fraction(s, i).next == n
    requires Copied(s, i, n, t, k)
    ensures t[k] == s[i] && Fraction(t, k) == Ok((), k + (n - i))
  {
    hide Exponent, Digits;
    assert t[k + (i - i)] == s[i] && t[k + (i + 1 - i)] == s[i + 1];
    var c := Digits(s, i + 1);
    assert Digits(s, i + 1) <= n;
    CopiedFrom(s, i, n, t, k, i + 1);
    DigitsMove(s, i + 1, t, k + 1, n);
    if c < n {
      CopiedFrom(s, i, n, t, k, c);
      ExponentMoves(s, c, t, k + (c - i), n);
    }
  }

  lemma CopiedFrom(s: seq<byte>, i: nat, n: nat, t: seq<byte>, k: nat, c: nat)
    requires Copied(s, i, n, t, k) && i <= c <= n
    ensures Copied(s, c, n, t, k + (c - i))
    ensures c < n ==> t[k + (c - i)] == s[c]
  {
    forall m | c <= m < n ensures t[k + (c - i) + (m - c)] == s[m] {
      assert k + (c - i) + (m - c) == k + (m - i);
    }
  }

  lemma MagnitudeMoves(s: seq<byte>, i: nat, a: nat, b: nat, t: seq<byte>, k: nat, n: nat)
    requires Copied(s, i, n, t, k) && i <= a <= b <= n
    ensures k + (b - i) <= |t| && t[k + (a - i)..k + (b - i)] == s[a..b]
  {
    forall m | 0 <= m < b - a ensures t[k + (a - i)..k + (b - i)][m] == s[a..b][m] {
      assert t[k + (a + m - i)] == s[a + m];
    }
  }

  lemma NumMoves(s: seq<byte>, i: nat, t: seq<byte>, k: nat, n: nat)
    requires i < |s| && Num(s, i).Ok? && Num(s, i).next == n && Copied(s, i, n, t, k)
    ensures t[k] == s[i] && Num(t, k) == Ok(Num(s, i).value, k + (n - i))
  {
    hide Magnitude, Digits, Exponent, Fraction, Copied, ContinuesNumber;
    CopiedEnds(s, i, n, t, k);
    var a := if s[i] == MINUS then i + 1 else i;
    CopiedFrom(s, i, n, t, k, i);
    CopiedFrom(s, i, n, t, k, a);
    var c := k + (a - i);
    DigitsMove(s, a, t, c, n);
    var b := if s[a] == ZERO then a + 1 else Digits(s, a);
    CopiedFrom(s, i, n, t, k, b);
    MagnitudeMoves(s, i, a, b, t, k, n);
    if b < |s| && s[b] == DOT {
      FractionMoves(s, b, t, k + (b - i), n);
    } else if b < |s| && (s[b] == LOWER_E || s[b] == UPPER_E) {
      ExponentMoves(s, b, t, k + (b - i), n);
    }
  }

  lemma CopiedEnds(s: seq<byte>, i: nat, n: nat, t: seq<byte>, k: nat)
    requires Copied(s, i, n, t, k)
    ensures i <= n <= |s| && k + (n - i) < |t|
    ensures var b := t[k + (n - i)]; !IsDigit(b) && b != DOT && b != LOWER_E && b != UPPER_E
  {
  }

  lemma ExponentBytes(s: seq<byte>, i: nat)
    requires i < |s| && (s[i] == LOWER_E || s[i] == UPPER_E) && Exponent(s, i).Ok?
    ensures forall m | i <= m < Exponent(s, i).next :: IsNumberByte(s[m])
  {
    hide Digits;
  }

  lemma FractionBytes(s: seq<byte>, i: nat)
    requires i < |s| && s[i] == DOT && Fraction(s, i).Ok?
    ensures forall m | i <= m < Fraction(s, i).next :: IsNumberByte(s[m])
  {
    hide Digits, Exponent;
    var c := Digits(s, i + 1);
    if c < |s| && (s[c] == LOWER_E || s[c] == UPPER_E) { ExponentBytes(s, c); }
  }

  lemma NumBytes(s: seq<byte>, i: nat)
    requires i < |s| && Num(s, i).Ok?
    ensures forall m | i <= m < Num(s, i).next :: IsNumberByte(s[m])
  {
    hide Magnitude, Digits, Exponent, Fraction;
    var a := if s[i] == MINUS then i + 1 else i;
    var b := if s[a] == ZERO then a + 1 else Digits(s, a);
    if b < |s| && s[b] == DOT {
      FractionBytes(s, b);
    } else if b < |s| && (s[b] == LOWER_E || s[b] == UPPER_E) {
      ExponentBytes(s, b);
    }
  }

  // ---- strings ----

  lemma EscapeCopied(s: seq<byte>, i: nat, t: seq<byte>, k: nat)
    requires i <= |s| && Escape(s, i).Ok?
    requires
      var n := Escape(s, i).next - i;
      k + n <= |t| && t[k..k + n] == s[i..i + n]
    ensures Escape(t, k) == Ok(Escape(s, i).value, k + (Escape(s, i).next - i))
  {
    hide HexValue, Unescaped;
    var n := Escape(s, i).next - i;
    var piece := t[k..k + n];
    assert piece[0] == t[k] && s[i..i + n][0] == s[i];
    if s[i] == LOWER_U {
      assert piece[1] == t[k + 1] && piece[2] == t[k + 2] && piece[3] == t[k + 3] && piece[4] == t[k + 4];
      assert piece == s[i..i + 5];
    }
  }

  lemma EscapeLex(s: seq<byte>, i: nat)
    requires i <= |s| && Escape(s, i).Ok? && LexAt(s, i) == Escaped
    ensures LexAt(s, Escape(s, i).next) == Inside
  {
    hide LexAt, Escape;
    EscapeBytes(s, i);
    LexStep(s, i);
    if s[i] == LOWER_U {
      LexStep(s, i + 1);
      LexStep(s, i + 2);
      LexStep(s, i + 3);
      LexStep(s, i + 4);
    }
  }

  lemma EscapeMoves(s: seq<byte>, a: nat, b: nat, i: nat)
    requires BlankRun(s, a, b) && i <= |s| && Clear(a, b, i) && Escape(s, i).Ok? && LexAt(s, i) == Escaped
    ensures
      var j, t := Escape(s, i).next, ClosedUp(s, a, b);
      && Clear(a, b, j) && LexAt(s, j) == Inside && NoFeed(s, a, i, j)
      && Moved(a, b, i) <= |t| && Escape(t, Moved(a, b, i)) == Ok(Escape(s, i).value, Moved(a, b, j))
  {
    hide LexAt, Escape;
    EscapeBytes(s, i);
    EscapeLex(s, i);
    BytesMove(s, a, b, i, Escape(s, i).next);
    EscapeCopied(s, i, ClosedUp(s, a, b), Moved(a, b, i));
  }

  lemma LexStep(s: seq<byte>, i: nat)
    requires i < |s|
    ensures LexAt(s, i + 1) == Next(LexAt(s, i), s[i])
  {
  }

  lemma EscapeBytes(s: seq<byte>, i: nat)
    requires i <= |s| && Escape(s, i).Ok?
    ensures
      var j := Escape(s, i).next;
      && (forall m | i <= m < j :: !IsAsciiSpace(s[m]))
      && (forall m | i < m < j :: s[m] != QUOTE && s[m] != BACKSLASH)
      && j == if s[i] == LOWER_U then i + 5 else i + 1
  {
  }

  /** Inside a string a run is made of spaces, and reading goes on behind it. */
  lemma {:induction false} StrRun(s: seq<byte>, a: nat, b: nat)
    requires BlankRun(s, a, b) && Str(s, a).Ok? && LexAt(s, a) == Inside
    ensures Str(s, b).Ok? && Str(s, b).next == Str(s, a).next && LexAt(s, b) == Inside
    decreases b - a
  {
    if a < b {
      RunByte(s, a, b, a);
      assert s[a + 1..b] == s[a..b][1..];
      StrRun(s, a + 1, b);
    }
  }

  lemma {:induction false} StrMoves(s: seq<byte>, a: nat, b: nat, i: nat)
    requires BlankRun(s, a, b) && i <= |s| && Str(s, i).Ok? && Clear(a, b, i) && LexAt(s, i) == Inside
    ensures
      var j, t := Str(s, i).next, ClosedUp(s, a, b);
      && Clear(a, b, j) && LexAt(s, j) == Outside && NoFeed(s, a, i, j)
      && Moved(a, b, i) <= |t| && Str(t, Moved(a, b, i)).Ok?
      && Str(t, Moved(a, b, i)).next == Moved(a, b, j)
      && (LexAt(s, a) == Outside || !(i <= a < j) ==> Str(t, Moved(a, b, i)).value == Str(s, i).value)
    decreases |s| - i
  {
    hide LexAt, Escape, ClosedUp, BlankRun;
    if i == a && a < b {
      StrRun(s, a, b);
      StrMoves(s, a, b, b);
    } else {
      ByteMoves(s, a, b, i);
      LexStep(s, i);
      if s[i] == BACKSLASH {
        EscapeMoves(s, a, b, i + 1);
        StrMoves(s, a, b, Escape(s, i + 1).next);
      } else if s[i] != QUOTE {
        StrMoves(s, a, b, i + 1);
      }
    }
  }

  // ---- documents ----

  /** The value is followed by a comma or a closing bracket, with or without blanks in between. */
  predicate Follows(s: seq<byte>, i: nat)
    requires i <= |s|
  {
    var j := Space(s, i);
    j < |s| && (s[j] == COMMA || s[j] == CLOSE_BRACKET || s[j] == CLOSE_BRACE)
  }

  /**
   What was read in `s` from `i` on is also read in the closed-up text, and is the same if the run is outside strings.
   */
  ghost predicate MovesTo<T>(s: seq<byte>, a: nat, b: nat, i: nat, found: Scan<T>, moved: Scan<T>)
    requires BlankRun(s, a, b)
  {
    found.Ok? ==>
      && found.next <= |s| && Clear(a, b, found.next) && LexAt(s, found.next) == Outside
      && NoFeed(s, a, i, found.next)
      && moved.Ok? && moved.next == Moved(a, b, found.next)
      && (LexAt(s, a) == Outside ==> moved.value == found.value)
  }

  lemma MovesToNext<T>(s: seq<byte>, a: nat, b: nat, i: nat, found: Scan<T>, moved: Scan<T>)
    requires BlankRun(s, a, b) && found.Ok? && MovesTo(s, a, b, i, found, moved)
    ensures a <= b && found.next <= |s| && moved.Ok? && moved.next == Moved(a, b, found.next)
    ensures LexAt(s, a) == Outside ==> moved.value == found.value
  {
    hide LexAt, Moved;
  }

  lemma {:induction false} WordBytes(s: seq<byte>, i: nat, word: seq<byte>)
    requires i <= |s| && Word(s, i, word).Ok? && forall k | 0 <= k < |word| :: IsTokenByte(word[k])
    ensures i + |word| <= |s| && forall m | i <= m < i + |word| :: IsTokenByte(s[m])
    decreases |word|
  {
    hide IsTokenByte;
    if word != [] { WordBytes(s, i + 1, word[1..]); }
  }

  lemma SlicesWithoutFirst(s: seq<byte>, i: nat, t: seq<byte>, k: nat, n: nat)
    requires i + 1 + n <= |s| && k + 1 + n <= |t| && t[k..k + 1 + n] == s[i..i + 1 + n]
    ensures t[k] == s[i] && t[k + 1..k + 1 + n] == s[i + 1..i + 1 + n]
  {
    assert t[k] == t[k..k + 1 + n][0] && s[i] == s[i..i + 1 + n][0];
    assert t[k + 1..k + 1 + n] == t[k..k + 1 + n][1..];
    assert s[i + 1..i + 1 + n] == s[i..i + 1 + n][1..];
  }

  lemma WordTokenMoves(s: seq<byte>, a: nat, b: nat, i: nat, word: seq<byte>)
    requires BlankRun(s, a, b) && i < |s| && Clear(a, b, i) && LexAt(s, i) == Outside
    requires IsTokenByte(s[i]) && Word(s, i + 1, word).Ok? && forall k | 0 <= k < |word| :: IsTokenByte(word[k])
    ensures
      var t, k, n := ClosedUp(s, a, b), Moved(a, b, i), i + 1 + |word|;
      && k < |t| && t[k] == s[i] && Word(t, k + 1, word) == Ok((), Moved(a, b, n))
      && Clear(a, b, n) && LexAt(s, n) == Outside && NoFeed(s, a, i, n)
  {
    hide *;
    RunBounds(s, a, b);
    var n := i + 1 + |word|;
    WordBytes(s, i + 1, word);
    TokenMoves(s, a, b, i, n);
    var t, k := ClosedUp(s, a, b), Moved(a, b, i);
    SlicesWithoutFirst(s, i, t, k, |word|);
    WordMoves(s, i + 1, t, k + 1, word);
  }

  lemma FollowsMoves(s: seq<byte>, a: nat, b: nat, i: nat)
    requires BlankRun(s, a, b) && i <= |s| && Clear(a, b, i) && Follows(s, i)
    ensures
      var t, k := ClosedUp(s, a, b), Moved(a, b, i);
      k < |t| && !ContinuesNumber(t[k])
  {
    hide ClosedUp, BlankRun, LexAt;
    SpaceMoves(s, a, b, i);
  }

  lemma NumTokenMoves(s: seq<byte>, a: nat, b: nat, i: nat)
    requires BlankRun(s, a, b) && i < |s| && (i < a || b <= i) && LexAt(s, i) == Outside
    requires Num(s, i).Ok? && Follows(s, Num(s, i).next)
    ensures
      var t, k, n := ClosedUp(s, a, b), Moved(a, b, i), Num(s, i).next;
      && k < |t| && t[k] == s[i] && Num(t, k) == Ok(Num(s, i).value, Moved(a, b, n))
      && Clear(a, b, n) && LexAt(s, n) == Outside && NoFeed(s, a, i, n)
  {
    hide LexAt, Moved, Num, Follows;
    var t, k, n := ClosedUp(s, a, b), Moved(a, b, i), Num(s, i).next;
    NumBytes(s, i);
    TokenMoves(s, a, b, i, n);
    FollowsMoves(s, a, b, n);
    assert Copied(s, i, n, t, k) by {
      forall m | i <= m < n ensures t[k + (m - i)] == s[m] {
        assert t[k + (m - i)] == t[k..k + (n - i)][m - i] == s[i..n][m - i];
      }
    }
    NumMoves(s, i, t, k, n);
  }

  lemma ScalarMoves(s: seq<byte>, a: nat, b: nat, i: nat)
    requires BlankRun(s, a, b) && i < |s| && (i < a || b <= i) && LexAt(s, i) == Outside
    requires ScalarAt(s, i).Ok? ==> Follows(s, ScalarAt(s, i).next)
    ensures Moved(a, b, i) < |ClosedUp(s, a, b)| && ClosedUp(s, a, b)[Moved(a, b, i)] == s[i]
    ensures MovesTo(s, a, b, i, ScalarAt(s, i), ScalarAt(ClosedUp(s, a, b), Moved(a, b, i)))
    ensures
      var found, moved := ScalarAt(s, i), ScalarAt(ClosedUp(s, a, b), Moved(a, b, i));
      found.Ok? && moved.Ok? ==> moved.value == found.value || (moved.value.String? && found.value.String?)
  {
    hide LexAt, Num, Word, Str, Follows, ClosedUp, Moved;
    ByteMoves(s, a, b, i);
    if ScalarAt(s, i).Ok? {
      if s[i] == LOWER_N {
        WordTokenMoves(s, a, b, i, NULL_TAIL);
      } else if s[i] == LOWER_T {
        WordTokenMoves(s, a, b, i, TRUE_TAIL);
      } else if s[i] == LOWER_F {
        WordTokenMoves(s, a, b, i, FALSE_TAIL);
      } else if s[i] == QUOTE {
        LexStep(s, i);
        StrMoves(s, a, b, i + 1);
      } else {
        NumTokenMoves(s, a, b, i);
      }
    }
  }

  /** A byte of punctuation outside strings, with any blanks before it. */
  lemma MarkMoves(s: seq<byte>, a: nat, b: nat, i: nat)
    requires BlankRun(s, a, b) && i <= |s| && LexAt(s, i) == Outside && Space(s, i) < |s|
    ensures
      var j, t := Space(s, i), ClosedUp(s, a, b);
      && Moved(a, b, i) <= |t| && Space(t, Moved(a, b, i)) == Moved(a, b, j) < |t|
      && (j < a || b <= j) && t[Moved(a, b, j)] == s[j]
      && Clear(a, b, j + 1) && Moved(a, b, j + 1) == Moved(a, b, j) + 1 <= |t|
      && LexAt(s, j) == Outside && (s[j] != QUOTE ==> LexAt(s, j + 1) == Outside)
      && NoFeed(s, a, i, j)
      && (s[j] == QUOTE ==> LexAt(s, j + 1) == Inside)
  {
    hide LexAt;
    SpaceMoves(s, a, b, i);
    ByteMoves(s, a, b, Space(s, i));
    LexStep(s, Space(s, i));
  }

  lemma {:induction false} ValueMoves(s: seq<byte>, a: nat, b: nat, i: nat)
    requires BlankRun(s, a, b) && i <= |s| && Clear(a, b, i) && LexAt(s, i) == Outside
    requires ValueAt(s, i).Ok? ==> Follows(s, ValueAt(s, i).next)
    ensures Moved(a, b, i) <= |ClosedUp(s, a, b)|
    ensures MovesTo(s, a, b, i, ValueAt(s, i), ValueAt(ClosedUp(s, a, b), Moved(a, b, i)))
    decreases |s| - i, 1
  {
    hide LexAt, ClosedUp, BlankRun, Moved, Follows, ScalarAt, ArrayAt, ObjectAt, Clear;
    SpaceMoves(s, a, b, i);
    if ValueAt(s, i).Ok? {
      var j := Space(s, i);
      MarkMoves(s, a, b, i);
      if s[j] == OPEN_BRACKET {
        ArrayMoves(s, a, b, j + 1);
      } else if s[j] == OPEN_BRACE {
        ObjectMoves(s, a, b, j + 1);
      } else {
        ScalarMoves(s, a, b, j);
      }
    }
  }

  lemma {:induction false} ArrayMoves(s: seq<byte>, a: nat, b: nat, i: nat)
    requires BlankRun(s, a, b) && i <= |s| && Clear(a, b, i) && LexAt(s, i) == Outside
    ensures Moved(a, b, i) <= |ClosedUp(s, a, b)|
    ensures MovesTo(s, a, b, i, ArrayAt(s, i), ArrayAt(ClosedUp(s, a, b), Moved(a, b, i)))
    decreases |s| - i, 3
  {
    hide LexAt, ClosedUp, BlankRun, Moved, ElementsAt;
    SpaceMoves(s, a, b, i);
    if ArrayAt(s, i).Ok? {
      var j := Space(s, i);
      MarkMoves(s, a, b, i);
      if s[j] != CLOSE_BRACKET { ElementsMove(s, a, b, j); }
    }
  }

  lemma ElementsIs(s: seq<byte>, i: nat)
    requires i <= |s|
    ensures
      var value := ValueAt(s, i);
      ElementsAt(s, i).Ok? <==>
        value.Ok? && Follows(s, value.next) && s[Space(s, value.next)] != CLOSE_BRACE
        && (s[Space(s, value.next)] == COMMA ==> ElementsAt(s, Space(s, value.next) + 1).Ok?)
    ensures
      var value := ValueAt(s, i);
      ElementsAt(s, i).Ok? ==>
        var j := Space(s, value.next);
        if s[j] == COMMA then
          var rest := ElementsAt(s, j + 1);
          ElementsAt(s, i) == Ok([value.value] + rest.value, rest.next)
        else ElementsAt(s, i) == Ok([value.value], j + 1)
  {
    hide ValueAt;
  }

  lemma {:induction false} ElementsMove(s: seq<byte>, a: nat, b: nat, i: nat)
    requires BlankRun(s, a, b) && i <= |s| && Clear(a, b, i) && LexAt(s, i) == Outside
    ensures Moved(a, b, i) <= |ClosedUp(s, a, b)|
    ensures MovesTo(s, a, b, i, ElementsAt(s, i), ElementsAt(ClosedUp(s, a, b), Moved(a, b, i)))
    decreases |s| - i, 2
  {
    hide LexAt, ClosedUp, BlankRun, Moved, ValueAt, Clear, ElementsAt, Space;
    SpaceMoves(s, a, b, i);
    ElementsIs(s, i);
    if ElementsAt(s, i).Ok? {
      var k := ValueAt(s, i).next;
      ValueMoves(s, a, b, i);
      MarkMoves(s, a, b, k);
      var j := Space(s, k);
      if s[j] == COMMA { ElementsMove(s, a, b, j + 1); }
      RunBounds(s, a, b);
      ElementsIs(ClosedUp(s, a, b), Moved(a, b, i));
    }
  }

  lemma {:induction false} ObjectMoves(s: seq<byte>, a: nat, b: nat, i: nat)
    requires BlankRun(s, a, b) && i <= |s| && Clear(a, b, i) && LexAt(s, i) == Outside
    ensures Moved(a, b, i) <= |ClosedUp(s, a, b)|
    ensures MovesTo(s, a, b, i, ObjectAt(s, i), ObjectAt(ClosedUp(s, a, b), Moved(a, b, i)))
    decreases |s| - i, 3
  {
    hide LexAt, ClosedUp, BlankRun, Moved, EntriesAt;
    SpaceMoves(s, a, b, i);
    if ObjectAt(s, i).Ok? {
      var j := Space(s, i);
      MarkMoves(s, a, b, i);
      if s[j] != CLOSE_BRACE { EntriesMove(s, a, b, j); }
    }
  }

  lemma KeyMoves(s: seq<byte>, a: nat, b: nat, i: nat)
    requires BlankRun(s, a, b) && i <= |s| && Clear(a, b, i) && LexAt(s, i) == Outside
    ensures Moved(a, b, i) <= |ClosedUp(s, a, b)|
    ensures MovesTo(s, a, b, i, Key(s, i), Key(ClosedUp(s, a, b), Moved(a, b, i)))
  {
    hide LexAt, ClosedUp, BlankRun, Moved, Str;
    SpaceMoves(s, a, b, i);
    if Key(s, i).Ok? {
      MarkMoves(s, a, b, i);
      StrMoves(s, a, b, Space(s, i) + 1);
    }
  }

  lemma ColonMoves(s: seq<byte>, a: nat, b: nat, i: nat)
    requires BlankRun(s, a, b) && i <= |s| && Clear(a, b, i) && LexAt(s, i) == Outside
    ensures Moved(a, b, i) <= |ClosedUp(s, a, b)|
    ensures MovesTo(s, a, b, i, Colon(s, i), Colon(ClosedUp(s, a, b), Moved(a, b, i)))
  {
    hide LexAt, ClosedUp, BlankRun, Moved;
    SpaceMoves(s, a, b, i);
    if Colon(s, i).Ok? { MarkMoves(s, a, b, i); }
  }

  lemma {:induction false} EntriesMove(s: seq<byte>, a: nat, b: nat, i: nat)
    requires BlankRun(s, a, b) && i <= |s| && Clear(a, b, i) && LexAt(s, i) == Outside
    ensures Moved(a, b, i) <= |ClosedUp(s, a, b)|
    ensures MovesTo(s, a, b, i, EntriesAt(s, i), EntriesAt(ClosedUp(s, a, b), Moved(a, b, i)))
    decreases |s| - i, 2
  {
    var t := ClosedUp(s, a, b);
    hide LexAt, ClosedUp, BlankRun, Moved, Key, EntriesFrom, Clear;
    KeyMoves(s, a, b, i);
    var key := Key(s, i);
    if key.Ok? { EntriesFromMove(s, a, b, key.next, key.value, Key(t, Moved(a, b, i)).value); }
  }

  lemma {:induction false} EntriesFromMove(s: seq<byte>, a: nat, b: nat, i: nat, key: seq<Code>, moved: seq<Code>)
    requires BlankRun(s, a, b) && i <= |s| && Clear(a, b, i) && LexAt(s, i) == Outside
    requires LexAt(s, a) == Outside ==> moved == key
    ensures Moved(a, b, i) <= |ClosedUp(s, a, b)|
    ensures MovesTo(s, a, b, i, EntriesFrom(s, i, key), EntriesFrom(ClosedUp(s, a, b), Moved(a, b, i), moved))
    decreases |s| - i, 2
  {
    hide LexAt, ClosedUp, BlankRun, Moved, Colon, ValueAt, EntriesEndAt, Clear;
    ColonMoves(s, a, b, i);
    if EntriesFrom(s, i, key).Ok? {
      var k := Colon(s, i).next;
      EntriesFollow(s, ValueAt(s, k).next);
      ValueMoves(s, a, b, k);
      EntriesEndMove(s, a, b, ValueAt(s, k).next);
    }
  }

  lemma EntriesFollow(s: seq<byte>, i: nat)
    requires i <= |s| && EntriesEndAt(s, i).Ok?
    ensures Follows(s, i)
  {
    hide EntriesAt;
  }

  lemma {:induction false} EntriesEndMove(s: seq<byte>, a: nat, b: nat, i: nat)
    requires BlankRun(s, a, b) && i <= |s| && Clear(a, b, i) && LexAt(s, i) == Outside
    ensures Moved(a, b, i) <= |ClosedUp(s, a, b)|
    ensures MovesTo(s, a, b, i, EntriesEndAt(s, i), EntriesEndAt(ClosedUp(s, a, b), Moved(a, b, i)))
    decreases |s| - i, 3
  {
    hide LexAt, ClosedUp, BlankRun, Moved, EntriesAt, Clear;
    SpaceMoves(s, a, b, i);
    if EntriesEndAt(s, i).Ok? {
      var j := Space(s, i);
      MarkMoves(s, a, b, i);
      if s[j] == COMMA { EntriesMove(s, a, b, j + 1); }
    }
  }

  lemma StartStays(s: seq<byte>, a: nat, b: nat)
    requires a <= b
    ensures LexAt(s, 0) == Outside && Moved(a, b, 0) == 0 && Clear(a, b, 0)
  {
  }

  lemma DocumentIs(s: seq<byte>)
    ensures
      var j := Space(s, 0);
      DocumentOf(s)
      == if j < |s| && s[j] == OPEN_BRACE && ObjectAt(s, j + 1).Ok? && Space(s, ObjectAt(s, j + 1).next) == |s|
         then Some(ObjectAt(s, j + 1).value) else None
  {
    hide ObjectAt, ArrayAt, ScalarAt;
    var j := Space(s, 0);
    if j < |s| { BracketIsNoScalar(s, j); }
  }

  lemma BraceIsNoQuote()
    ensures OPEN_BRACE != QUOTE
  {
  }

  lemma ObjectOfText(s: seq<byte>, a: nat, b: nat)
    requires BlankRun(s, a, b) && Space(s, 0) < |s| && s[Space(s, 0)] == OPEN_BRACE
    requires ObjectAt(s, Space(s, 0) + 1).Ok?
    ensures
      var j, t := Space(s, 0), ClosedUp(s, a, b);
      var k := Space(t, 0);
      && k < |t| && t[k] == OPEN_BRACE
      && MovesTo(s, a, b, j + 1, ObjectAt(s, j + 1), ObjectAt(t, k + 1))
  {
    hide *;
    RunBounds(s, a, b);
    StartStays(s, a, b);
    MarkMoves(s, a, b, 0);
    BraceIsNoQuote();
    ObjectMoves(s, a, b, Space(s, 0) + 1);
  }

  /** Every blank in a document is one that JSON knows. */
  lemma NoFeedInDocument(s: seq<byte>, a: nat)
    requires DocumentOf(s).Some? && a < |s|
    ensures s[a] != FORM_FEED
  {
    hide DocumentOf, ObjectAt, LexAt, ClosedUp;
    DocumentIs(s);
    ObjectOfText(s, a, a);
    SpaceMoves(s, a, a, 0);
    SpaceMoves(s, a, a, ObjectAt(s, Space(s, 0) + 1).next);
  }

  lemma DocumentMoves(s: seq<byte>, a: nat, b: nat)
    requires BlankRun(s, a, b) && DocumentOf(s).Some?
    ensures DocumentOf(ClosedUp(s, a, b)).Some?
    ensures LexAt(s, a) == Outside ==> DocumentOf(ClosedUp(s, a, b)) == DocumentOf(s)
  {
    hide *;
    RunBounds(s, a, b);
    var t, j := ClosedUp(s, a, b), Space(s, 0);
    DocumentIs(s);
    DocumentIs(t);
    ObjectOfText(s, a, b);
    MovesToNext(s, a, b, j + 1, ObjectAt(s, j + 1), ObjectAt(t, Space(t, 0) + 1));
    SpaceMoves(s, a, b, ObjectAt(s, j + 1).next);
  }

  /**
   Closing up a run of blanks in a document gives a document. If the run is outside strings it is the same document,
   and so the probe's verdict is the same; in any case it is not cut off.
   */
  lemma ClosedUpDocument(s: seq<byte>, a: nat, b: nat)
    requires BlankRun(s, a, b) && DocumentOf(s).Some?
    ensures DocumentOf(ClosedUp(s, a, b)).Some? && Classify(ClosedUp(s, a, b)) != Eof
    ensures LexAt(s, a) == Outside ==>
              DocumentOf(ClosedUp(s, a, b)) == DocumentOf(s) && Classify(ClosedUp(s, a, b)) == Classify(s)
  {
    var t := ClosedUp(s, a, b);
    hide *;
    DocumentMoves(s, a, b);
    VerdictIsMeaning(s);
    VerdictIsMeaning(t);
  }
}
