/**
 The probe that reads the `usage` field out of one response object: the typed readers on top of `Recognizer`, the
 loop over an object's members, and the three-way verdict the scanner acts on.
 */
module UsageProbe {
  import opened Bytes
  import opened Decimals
  import opened Recognizer
  import opened TokenUsages

  function Codes(text: string): seq<Code>
    requires forall k | 0 <= k < |text| :: text[k] <= '~'
  {
    seq(|text|, i requires 0 <= i < |text| => text[i] as int)
  }

  const USAGE := Codes("usage")
  const PROMPT_TOKENS := Codes("prompt_tokens")
  const COMPLETION_TOKENS := Codes("completion_tokens")
  const TOTAL_TOKENS := Codes("total_tokens")
  const PROMPT_DETAILS := Codes("prompt_tokens_details")
  const COMPLETION_DETAILS := Codes("completion_tokens_details")
  const CACHED_TOKENS := Codes("cached_tokens")
  const REASONING_TOKENS := Codes("reasoning_tokens")

  /** What one object has contributed so far. The two inner objects refuse a repeated known field. */
  datatype Fields =
    | ResponseFields(usage: Option<TokenUsage>)
    | UsageFields(body: UsageBody, seen: set<seq<Code>>)
    | DetailFields(details: TokenDetails, seen: set<seq<Code>>)

  predicate SameKind(a: Fields, b: Fields) {
    (a.ResponseFields? <==> b.ResponseFields?) && (a.UsageFields? <==> b.UsageFields?)
  }

  predicate Repeated(acc: Fields, key: seq<Code>) {
    !acc.ResponseFields? && key in acc.seen
  }

  function SetCounter(body: UsageBody, key: seq<Code>, value: Option<u64>): UsageBody {
    if key == PROMPT_TOKENS then body.(prompt := value)
    else if key == COMPLETION_TOKENS then body.(completion := value)
    else body.(total := value)
  }

  /** A value of the wrong type: the library reads a scalar to its end before it complains. */
  function WrongType<T>(s: seq<byte>, i: nat): (r: Scan<T>)
    requires i < |s|
    ensures !r.Ok? && r != Cut(true)
  {
    if Scalar(s, i).Cut? then Cut(false) else Bad
  }

  /** An optional unsigned 64-bit counter: `null` or an integer. */
  function Counter(s: seq<byte>, i: nat): (r: Scan<Option<u64>>)
    requires i <= |s|
    ensures r.Ok? ==> i < r.next <= |s|
    ensures r.Cut? ==> r == Cut(false)
  {
    var j := Space(s, i);
    if j == |s| then Cut(false)
    else if s[j] == LOWER_N then
      var (_, k) :- Word(s, j + 1, NULL_TAIL);
      Ok(None, k)
    else if IsDigit(s[j]) then
      match Num(s, j)
      case Ok(n, k) => if n.integral && n.magnitude < TWO_TO_THE_64 then Ok(Some(n.magnitude), k) else Bad
      case Cut(_) => Cut(false)
      case Bad => Bad
    else WrongType(s, j)
  }

  /** The value of a member whose key is of no interest. */
  function Ignored(s: seq<byte>, i: nat, acc: Fields): (r: Scan<Fields>)
    requires i <= |s|
    ensures r.Ok? ==> i <= r.next <= |s| && r.value == acc
    ensures r == Cut(true) ==> EndsInGap(s)
  {
    var (_, j) :- Skip(s, i, [], AnyValue);
    Ok(acc, j)
  }

  /** A nested object, read into `blank`. */
  function Nested(s: seq<byte>, i: nat, blank: Fields): (r: Scan<Fields>)
    requires i <= |s|
    ensures r.Ok? ==> i < r.next <= |s| && SameKind(r.value, blank)
    ensures r == Cut(true) ==> EndsInGap(s)
    decreases |s| - i, 1
  {
    var j := Space(s, i);
    if j == |s| then Cut(false)
    else if s[j] == OPEN_BRACE then Members(s, j + 1, true, blank)
    else WrongType(s, j)
  }

  /** The value of the member `key`. */
  function Member(s: seq<byte>, i: nat, key: seq<Code>, acc: Fields): (r: Scan<Fields>)
    requires i <= |s|
    ensures r.Ok? ==> i <= r.next <= |s| && SameKind(r.value, acc)
    ensures r == Cut(true) ==> EndsInGap(s)
    decreases |s| - i, 2
  {
    match acc
    case ResponseFields(_) =>
      if key != USAGE then Ignored(s, i, acc)
      else
        var j := Space(s, i);
        if j < |s| && s[j] == LOWER_N then
          var (_, k) :- Word(s, j + 1, NULL_TAIL);
          Ok(ResponseFields(None), k)
        else
          var (inner, k) :- Nested(s, i, UsageFields(NO_USAGE, {}));
          Ok(ResponseFields(Some(FromBody(inner.body))), k)
    case UsageFields(body, seen) =>
      if key == PROMPT_TOKENS || key == COMPLETION_TOKENS || key == TOTAL_TOKENS then
        var (n, k) :- Counter(s, i);
        Ok(UsageFields(SetCounter(body, key, n), seen + {key}), k)
      else if key == PROMPT_DETAILS then
        var (inner, k) :- Nested(s, i, DetailFields(NO_DETAILS, {}));
        Ok(UsageFields(body.(promptDetails := inner.details), seen + {key}), k)
      else if key == COMPLETION_DETAILS then
        var (inner, k) :- Nested(s, i, DetailFields(NO_DETAILS, {}));
        Ok(UsageFields(body.(completionDetails := inner.details), seen + {key}), k)
      else Ignored(s, i, acc)
    case DetailFields(details, seen) =>
      if key == CACHED_TOKENS then
        var (n, k) :- Counter(s, i);
        Ok(DetailFields(details.(cached := n), seen + {key}), k)
      else if key == REASONING_TOKENS then
        var (n, k) :- Counter(s, i);
        Ok(DetailFields(details.(reasoning := n), seen + {key}), k)
      else Ignored(s, i, acc)
  }

  /** The next key of an object, or `None` at its closing brace. */
  function MemberKey(s: seq<byte>, i: nat, first: bool): (r: Scan<Option<seq<Code>>>)
    requires i <= |s|
    ensures r.Ok? ==> i < r.next <= |s|
    ensures r.Ok? && r.value.None? ==> s[r.next - 1] == CLOSE_BRACE
    ensures r.Cut? ==> r == Cut(false)
  {
    var j := Space(s, i);
    if j == |s| then Cut(false)
    else if s[j] == CLOSE_BRACE then Ok(None, j + 1)
    else if !first && s[j] != COMMA then Bad
    else
      var (key, k) :- Key(s, if first then j else j + 1);
      Ok(Some(key), k)
  }

  /** The members of an object from `i` to its closing brace. */
  function Members(s: seq<byte>, i: nat, first: bool, acc: Fields): (r: Scan<Fields>)
    requires i <= |s|
    ensures r.Ok? ==> i < r.next <= |s| && SameKind(r.value, acc) && s[r.next - 1] == CLOSE_BRACE
    ensures r == Cut(true) ==> EndsInGap(s)
    decreases |s| - i, 0
  {
    match MemberKey(s, i, first)
    case Cut(inNumber) => Cut(inNumber)
    case Bad => Bad
    case Ok(None, j) => Ok(acc, j)
    case Ok(Some(key), j) => if Repeated(acc, key) then Bad else MembersFrom(s, j, key, acc)
  }

  /** The value of `key` and the members after it. */
  function MembersFrom(s: seq<byte>, i: nat, key: seq<Code>, acc: Fields): (r: Scan<Fields>)
    requires i <= |s|
    ensures r.Ok? ==> i < r.next <= |s| && SameKind(r.value, acc) && s[r.next - 1] == CLOSE_BRACE
    ensures r == Cut(true) ==> EndsInGap(s)
    decreases |s| - i, 3
  {
    hide Member, Colon;
    var (_, j) :- Colon(s, i);
    var (next, k) :- Member(s, j, key, acc);
    Members(s, k, false, next)
  }

  /** The loop over the members: one key, then its value or a skip, until the closing brace. */
  method VisitMap(s: seq<byte>, start: nat, blank: Fields) returns (r: Scan<Fields>)
    requires start <= |s|
    ensures r == Members(s, start, true, blank)
  {
    var acc, i, first := blank, start, true;
    while true
      invariant i <= |s|
      invariant Members(s, i, first, acc) == Members(s, start, true, blank)
      decreases |s| - i
    {
      var key := MemberKey(s, i, first);
      if !key.Ok? { return key.PropagateFailure(); }
      if key.value.None? { return Ok(acc, key.next); }
      if Repeated(acc, key.value.value) { return Bad; }
      var colon := Colon(s, key.next);
      if !colon.Ok? { return colon.PropagateFailure(); }
      var value := Member(s, colon.next, key.value.value, acc);
      if !value.Ok? { return value.PropagateFailure(); }
      acc, i, first := value.value, value.next, false;
    }
  }

  // ---- stability of the typed readers ----

  /**
   What `rp` says about a text still holds as `rs` for a longer one: a value that ended inside the text is read
   the same, and a refused text stays refused.
   */
  ghost predicate Carries<T>(rp: Scan<T>, rs: Scan<T>) {
    (rp.Ok? ==> rs == rp) && (rp.Bad? ==> !rs.Ok?)
  }

  lemma {:induction false} MagnitudeGrows(a: seq<byte>, b: seq<byte>)
    requires AllDigits(a) && AllDigits(b)
    ensures AllDigits(a + b) && Magnitude(a + b) >= Magnitude(a)
  {
    if b == [] {
      assert a + b == a;
    } else {
      var shorter := b[..|b| - 1];
      assert (a + b)[..|a + b| - 1] == a + shorter;
      assert IsDigit((a + b)[|a + b| - 1]);
      MagnitudeGrows(a, shorter);
    }
  }

  lemma LongerMagnitude(s: seq<byte>, a: nat, b: nat, c: nat)
    requires a <= b <= c <= |s|
    requires forall k | a <= k < c :: IsDigit(s[k])
    ensures Magnitude(s[a..c]) >= Magnitude(s[a..b])
  {
    assert s[a..c] == s[a..b] + s[b..c];
    MagnitudeGrows(s[a..b], s[b..c]);
  }

  /** More bytes can only make a number longer: it stays fractional, and it does not get smaller. */
  lemma NumGrows(p: seq<byte>, s: seq<byte>, i: nat)
    requires Extends(p, s) && i < |p| && IsDigit(p[i])
    requires Num(p, i).Ok? && Num(s, i).Ok?
    ensures Num(s, i).value.integral ==> Num(p, i).value.integral
    ensures Num(s, i).value.integral ==> Num(s, i).value.magnitude >= Num(p, i).value.magnitude
  {
    hide Magnitude, Digits, Exponent, Fraction;
    DigitsStable(p, s, i);
    var b := if p[i] == ZERO then i + 1 else Digits(p, i);
    var c := if s[i] == ZERO then i + 1 else Digits(s, i);
    SliceStable(p, s, i, b);
    LongerMagnitude(s, i, b, c);
  }

  lemma CounterStable(p: seq<byte>, s: seq<byte>, i: nat)
    requires Extends(p, s) && i <= |p|
    requires Settled(Counter(p, i), p) || Counter(p, i).Bad?
    ensures Carries(Counter(p, i), Counter(s, i))
  {
    hide Num;
    SpaceStable(p, s, i);
    var j := Space(p, i);
    if p[j] == LOWER_N {
      WordStable(p, s, j + 1, NULL_TAIL);
    } else if IsDigit(p[j]) {
      if Settled(Num(p, j), p) {
        NumStable(p, s, j);
      } else if Num(s, j).Ok? {
        NumGrows(p, s, j);
      }
    }
  }

  lemma {:induction false} NestedStable(p: seq<byte>, s: seq<byte>, i: nat, blank: Fields)
    requires Extends(p, s) && i <= |p|
    requires Final(Nested(p, i, blank))
    ensures Carries(Nested(p, i, blank), Nested(s, i, blank))
    decreases |p| - i, 1
  {
    hide Members, Scalar;
    SpaceStable(p, s, i);
    var j := Space(p, i);
    if p[j] == OPEN_BRACE { MembersStable(p, s, j + 1, true, blank); }
  }

  lemma {:induction false} MemberStable(p: seq<byte>, s: seq<byte>, i: nat, key: seq<Code>, acc: Fields)
    requires Extends(p, s) && i <= |p|
    requires Settled(Member(p, i, key, acc), p)
    ensures Carries(Member(p, i, key, acc), Member(s, i, key, acc))
    decreases |p| - i, 2
  {
    hide Members, Skip, Counter;
    match acc
    case ResponseFields(_) =>
      if key != USAGE {
        SkipStable(p, s, i, [], AnyValue);
      } else {
        var j := Space(p, i);
        assert j == |p| ==> Nested(p, i, UsageFields(NO_USAGE, {})).Cut?;
        SpaceStable(p, s, i);
        if p[j] == LOWER_N {
          WordStable(p, s, j + 1, NULL_TAIL);
        } else {
          NestedStable(p, s, i, UsageFields(NO_USAGE, {}));
        }
      }
    case UsageFields(body, seen) =>
      if key == PROMPT_TOKENS || key == COMPLETION_TOKENS || key == TOTAL_TOKENS {
        CounterStable(p, s, i);
      } else if key == PROMPT_DETAILS || key == COMPLETION_DETAILS {
        NestedStable(p, s, i, DetailFields(NO_DETAILS, {}));
      } else {
        SkipStable(p, s, i, [], AnyValue);
      }
    case DetailFields(details, seen) =>
      if key == CACHED_TOKENS || key == REASONING_TOKENS {
        CounterStable(p, s, i);
      } else {
        SkipStable(p, s, i, [], AnyValue);
      }
  }

  lemma MemberKeyStable(p: seq<byte>, s: seq<byte>, i: nat, first: bool)
    requires Extends(p, s) && i <= |p|
    requires Final(MemberKey(p, i, first))
    ensures MemberKey(s, i, first) == MemberKey(p, i, first)
  {
    SpaceStable(p, s, i);
    var j := Space(p, i);
    if p[j] != CLOSE_BRACE && (first || p[j] == COMMA) { KeyStable(p, s, if first then j else j + 1); }
  }

  lemma NoKeyAtTheEnd(p: seq<byte>, first: bool)
    ensures MemberKey(p, |p|, first).Cut?
  {
  }

  lemma {:induction false} MembersStable(p: seq<byte>, s: seq<byte>, i: nat, first: bool, acc: Fields)
    requires Extends(p, s) && i <= |p|
    requires Final(Members(p, i, first, acc))
    ensures Carries(Members(p, i, first, acc), Members(s, i, first, acc))
    decreases |p| - i, 0
  {
    hide MemberKey, MembersFrom;
    MemberKeyStable(p, s, i, first);
    match MemberKey(p, i, first)
    case Ok(Some(key), j) => if !Repeated(acc, key) { MembersFromStable(p, s, j, key, acc); }
    case _ =>
  }

  lemma {:induction false} MembersFromStable(p: seq<byte>, s: seq<byte>, i: nat, key: seq<Code>, acc: Fields)
    requires Extends(p, s) && i <= |p|
    requires Final(MembersFrom(p, i, key, acc))
    ensures Carries(MembersFrom(p, i, key, acc), MembersFrom(s, i, key, acc))
    decreases |p| - i, 3
  {
    hide MemberKey, Colon, Member;
    ColonStable(p, s, i);
    if Colon(p, i).Ok? {
      var j := Colon(p, i).next;
      var value := Member(p, j, key, acc);
      NoKeyAtTheEnd(p, false);
      MemberStable(p, s, j, key, acc);
      if value.Ok? { MembersStable(p, s, value.next, false, value.value); }
    }
  }

  // ---- the verdict on a buffer ----

  /** Read the whole text as one response object. */
  function Parse(s: seq<byte>): (r: Scan<Option<TokenUsage>>)
    ensures r.Ok? ==> s != [] && r.next == |s|
    ensures r == Cut(true) ==> EndsInGap(s)
  {
    var j := Space(s, 0);
    if j == |s| then Cut(false)
    else if s[j] != OPEN_BRACE then WrongType(s, j)
    else
      var (acc, k) :- Members(s, j + 1, true, ResponseFields(None));
      if Space(s, k) == |s| then Ok(acc.usage, |s|) else Bad
  }

  /** `Done` holds the usage of a complete object, `Eof` wants more bytes, `Rejected` is given up on. */
  datatype Verdict = Done(usage: Option<TokenUsage>) | Eof | Rejected

  function Classify(s: seq<byte>): Verdict {
    match Parse(s)
    case Ok(usage, _) => Done(usage)
    case Cut(inNumber) => if inNumber then Rejected else Eof
    case Bad => Rejected
  }

  /** The text stops inside a number that is being skipped, which the library does not report as end of input. */
  predicate InNumberGap(s: seq<byte>) {
    Parse(s) == Cut(true)
  }

  /** An accepted text without surrounding whitespace runs from brace to brace. */
  lemma AcceptedIsBraced(s: seq<byte>)
    requires Parse(s).Ok? && !IsJsonSpace(s[0]) && !IsJsonSpace(s[|s| - 1])
    ensures s[0] == OPEN_BRACE && s[|s| - 1] == CLOSE_BRACE && |s| >= 2
  {
    hide Members;
    var r := Members(s, 1, true, ResponseFields(None));
    assert Space(s, 0) == 0;
    assert Space(s, r.next) == |s|;
    assert r.next == |s|;
  }

  /** A refused text can never become a usable object. */
  lemma BadIsFinal(p: seq<byte>, s: seq<byte>)
    requires Extends(p, s)
    requires Parse(p).Bad?
    ensures !Parse(s).Ok?
  {
    hide Members;
    SpaceStable(p, s, 0);
    var j := Space(p, 0);
    if p[j] == OPEN_BRACE {
      var r := Members(p, j + 1, true, ResponseFields(None));
      MembersStable(p, s, j + 1, true, ResponseFields(None));
      if r.Ok? { SpaceStable(p, s, r.next); }
    }
  }

  /** What follows an accepted object in a longer accepted text is whitespace. */
  lemma OkIsKept(p: seq<byte>, s: seq<byte>)
    requires Extends(p, s)
    requires Parse(p).Ok? && Parse(s).Ok?
    ensures Parse(s).value == Parse(p).value
    ensures forall k | |p| <= k < |s| :: IsJsonSpace(s[k])
  {
    hide Members;
    SpaceStable(p, s, 0);
    MembersStable(p, s, Space(p, 0) + 1, true, ResponseFields(None));
  }

  /** Every proper prefix of an accepted object is cut off, neither accepted early nor refused. */
  lemma PrefixIsCut(s: seq<byte>, k: nat)
    requires Parse(s).Ok? && !IsJsonSpace(s[|s| - 1])
    requires k < |s|
    ensures Parse(s[..k]).Cut?
  {
    hide Parse;
    var p := s[..k];
    if Parse(p).Bad? { BadIsFinal(p, s); }
    if Parse(p).Ok? {
      OkIsKept(p, s);
      assert false;
    }
  }

  /** Whitespace after a complete object changes nothing. */
  lemma TrailingSpace(p: seq<byte>, tail: seq<byte>)
    requires Parse(p).Ok? && JsonBlank(tail)
    ensures Parse(p + tail) == Ok(Parse(p).value, |p| + |tail|)
  {
    hide Members, Space;
    var s := p + tail;
    var j := Space(p, 0);
    SpaceStable(p, s, 0);
    MembersStable(p, s, j + 1, true, ResponseFields(None));
    SpaceToEnd(p, tail, Members(p, j + 1, true, ResponseFields(None)).next);
  }

  lemma SpaceToEnd(p: seq<byte>, tail: seq<byte>, i: nat)
    requires i <= |p| && Space(p, i) == |p| && JsonBlank(tail)
    ensures Space(p + tail, i) == |p| + |tail|
  {
    hide Space;
    var s := p + tail;
    forall k | i <= k < |s| ensures IsJsonSpace(s[k]) {
      if k >= |p| { assert s[k] == tail[k - |p|]; }
    }
  }

  /**
   The scanner's reading of a cut: every proper prefix of an accepted object asks for more bytes, except one that
   stops inside a skipped number, and such a prefix ends in a sign, a point or an exponent letter.
   */
  lemma PrefixViability(s: seq<byte>, k: nat)
    requires Classify(s).Done? && !IsJsonSpace(s[|s| - 1])
    requires k < |s|
    ensures Classify(s[..k]) == Eof <==> !InNumberGap(s[..k])
    ensures InNumberGap(s[..k]) ==> EndsInGap(s[..k])
  {
    hide Parse;
    PrefixIsCut(s, k);
  }

  const STOPPED: seq<byte> := [OPEN_BRACE, QUOTE, QUOTE, COLON, MINUS]
  const GOES_ON: seq<byte> := [OPEN_BRACE, QUOTE, QUOTE, COLON, MINUS, ZERO + 1, CLOSE_BRACE]

  lemma StoppedIsInGap()
    ensures InNumberGap(STOPPED)
  {
    var p, acc := STOPPED, ResponseFields(None);
    assert |USAGE| == 5;
    assert MemberKey(p, 1, true) == Ok(Some([]), 3) && Colon(p, 3) == Ok((), 4);
    assert Scalar(p, 4) == Cut(true);
    assert Element(p, 4, []) == Cut(true);
    assert Member(p, 4, [], acc) == Cut(true);
    assert Members(p, 1, true, acc) == Cut(true);
  }

  lemma GoesOnIsDone()
    ensures Classify(GOES_ON) == Done(None)
  {
    var s, acc := GOES_ON, ResponseFields(None);
    assert |USAGE| == 5;
    assert MemberKey(s, 1, true) == Ok(Some([]), 3) && Colon(s, 3) == Ok((), 4);
    assert Digits(s, 5) == 6;
    assert Scalar(s, 4) == Ok((), 6);
    assert Element(s, 4, []) == Ok((), 6);
    assert Member(s, 4, [], acc) == Ok(acc, 6);
    assert MemberKey(s, 6, false) == Ok(None, 7);
    assert Members(s, 6, false, acc) == Ok(acc, 7);
    assert Members(s, 1, true, acc) == Ok(acc, 7);
  }

  /** A rejected buffer need not be rejected for good: `{"":-` is rejected, and `{"":-1}` is a complete object. */
  lemma RejectedIsNotAlwaysFinal()
    ensures STOPPED == GOES_ON[..|STOPPED|]
    ensures Classify(STOPPED).Rejected? && Classify(GOES_ON) == Done(None)
  {
    hide Parse;
    StoppedIsInGap();
    GoesOnIsDone();
  }

  // ---- what follows a number gap in an accepted text ----

  lemma {:induction false} NestedGap(p: seq<byte>, s: seq<byte>, i: nat, blank: Fields)
    requires Extends(p, s) && i <= |p|
    requires Nested(p, i, blank) == Cut(true) && Nested(s, i, blank).Ok?
    ensures ResumesNumber(p, s)
    decreases |p| - i, 1
  {
    hide Members, Scalar;
    SpaceStable(p, s, i);
    MembersGap(p, s, Space(p, i) + 1, true, blank);
  }

  lemma {:induction false} MemberGap(p: seq<byte>, s: seq<byte>, i: nat, key: seq<Code>, acc: Fields)
    requires Extends(p, s) && i <= |p|
    requires Member(p, i, key, acc) == Cut(true) && Member(s, i, key, acc).Ok?
    ensures ResumesNumber(p, s)
    decreases |p| - i, 2
  {
    hide Skip, Counter, Nested, Word;
    match acc
    case ResponseFields(_) =>
      if key != USAGE {
        SkipGap(p, s, i, [], AnyValue);
      } else {
        NestedAtEnd(p, UsageFields(NO_USAGE, {}));
        SpaceStable(p, s, i);
        NestedGap(p, s, i, UsageFields(NO_USAGE, {}));
      }
    case UsageFields(body, seen) =>
      if key == PROMPT_DETAILS || key == COMPLETION_DETAILS {
        NestedGap(p, s, i, DetailFields(NO_DETAILS, {}));
      } else {
        SkipGap(p, s, i, [], AnyValue);
      }
    case DetailFields(details, seen) => SkipGap(p, s, i, [], AnyValue);
  }

  lemma NestedAtEnd(p: seq<byte>, blank: Fields)
    ensures forall i: nat | i <= |p| && Space(p, i) == |p| :: Nested(p, i, blank) == Cut(false)
  {
  }

  lemma {:induction false} MembersGap(p: seq<byte>, s: seq<byte>, i: nat, first: bool, acc: Fields)
    requires Extends(p, s) && i <= |p|
    requires Members(p, i, first, acc) == Cut(true) && Members(s, i, first, acc).Ok?
    ensures ResumesNumber(p, s)
    decreases |p| - i, 0
  {
    hide MemberKey, MembersFrom;
    MemberKeyStable(p, s, i, first);
    match MemberKey(p, i, first)
    case Ok(Some(key), j) => MembersFromGap(p, s, j, key, acc);
  }

  lemma {:induction false} MembersFromGap(p: seq<byte>, s: seq<byte>, i: nat, key: seq<Code>, acc: Fields)
    requires Extends(p, s) && i <= |p|
    requires MembersFrom(p, i, key, acc) == Cut(true) && MembersFrom(s, i, key, acc).Ok?
    ensures ResumesNumber(p, s)
    decreases |p| - i, 3
  {
    hide MemberKey, Colon, Member;
    ColonStable(p, s, i);
    var j := Colon(p, i).next;
    var value := Member(p, j, key, acc);
    if value.Ok? {
      MembersAtEnd(p, value.value);
      MemberStable(p, s, j, key, acc);
      MembersGap(p, s, value.next, false, value.value);
    } else {
      MemberGap(p, s, j, key, acc);
    }
  }

  lemma MembersAtEnd(p: seq<byte>, acc: Fields)
    ensures Members(p, |p|, false, acc) == Cut(false)
  {
    hide MembersFrom;
  }

  /** In an accepted text, a digit or a sign follows every number gap. */
  lemma GapIsResumed(s: seq<byte>, k: nat)
    requires Parse(s).Ok? && k <= |s| && InNumberGap(s[..k])
    ensures k < |s| && FollowsGap(s[k])
  {
    hide Members, Scalar;
    var p := s[..k];
    SpaceStable(p, s, 0);
    MembersGap(p, s, Space(p, 0) + 1, true, ResponseFields(None));
  }
}
