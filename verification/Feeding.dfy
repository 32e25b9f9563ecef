/** Feeding the scanner pieces of one object, pieces of junk, and blanks. */
module Feeding {
  import opened Bytes
  import opened Recognizer
  import opened TokenUsages
  import opened UsageProbe
  import opened CandidateSplit
  import opened UsageScanning

  /** A complete response object without whitespace around it. */
  ghost predicate IsObject(text: seq<byte>) {
    && Classify(text).Done?
    && !IsJsonSpace(text[0]) && !IsJsonSpace(text[|text| - 1])
  }

  function UsageOf(text: seq<byte>): Option<TokenUsage> {
    match Classify(text)
    case Done(usage) => usage
    case _ => None
  }

  // ---- feeding one object ----

  /** What the scanner holds after the first `length` bytes of `text` and whatever whitespace follows it. */
  function Held(text: seq<byte>, length: nat): seq<byte> {
    if length < |text| then text[..length] else []
  }

  function After(st: State, text: seq<byte>, length: nat): State {
    State(Held(text, length), if length < |text| then st.usage else Merge(st.usage, UsageOf(text)))
  }

  lemma ObjectIsBraced(text: seq<byte>)
    requires IsObject(text)
    ensures |text| >= 2 && text[0] == OPEN_BRACE && text[|text| - 1] == CLOSE_BRACE
    ensures Trim(text) == text
  {
    hide Parse, Trim;
    AcceptedIsBraced(text);
    TrimCore(text);
  }

  /** The buffer holds the first `length` bytes of the object and its trailing whitespace: what becomes of it. */
  lemma ConsumePrefix(st: State, text: seq<byte>, tail: seq<byte>, length: nat)
    requires IsObject(text) && JsonBlank(tail) && |text| + |tail| <= MAX_PENDING
    requires length <= |text| + |tail|
    requires length < |text| ==> !InNumberGap(text[..length])
    requires st.pending == (text + tail)[..length]
    ensures Consume(st) == After(st, text, length)
  {
    hide Parse;
    if length < |text| {
      assert st.pending == text[..length];
      PrefixViability(text, length);
    } else {
      var spaces := tail[..length - |text|];
      assert st.pending == text + spaces;
      TrailingSpace(text, spaces);
    }
  }

  /** A frame without a marker continues the open object, byte for byte. */
  lemma ContinueObject(st: State, text: seq<byte>, tail: seq<byte>, from: nat, to: nat)
    requires IsObject(text) && JsonBlank(tail) && |text| + |tail| <= MAX_PENDING
    requires 0 < from < |text| && from <= to <= |text| + |tail|
    requires to < |text| ==> !InNumberGap(text[..to])
    requires st.pending == text[..from]
    requires !HasMarker((text + tail)[from..to])
    ensures Push(st, (text + tail)[from..to]) == After(st, text, to)
  {
    hide Consume, SplitClosed, Find, OfferAll, Classify, Merge, UsageOf, Trim;
    var frame := (text + tail)[from..to];
    if from < to {
      PushOpen(st, frame);
      assert frame[..|frame|] == frame && frame[|frame|..] == [];
      NothingLeft(Offer(st, frame));
      assert text[..from] + frame == (text + tail)[..to];
      ConsumePrefix(st.(pending := st.pending + frame), text, tail, to);
    } else {
      assert frame == [];
      IdlePush(st);
    }
  }

  lemma IdlePush(st: State)
    ensures Push(st, []) == st
  {
  }

  /** A blank frame, or a blank end of one, leaves an empty buffer alone. */
  lemma BlankIsIdle(st: State, frame: seq<byte>)
    requires Inv(st) && JsonBlank(frame)
    ensures !HasMarker(frame) && OfferAll(st, SplitClosed(frame)) == st
  {
    hide Classify, Find, OfferAll, SplitClosed;
    if HasMarker(frame) {
      var k := Find(frame, MARKER).value;
      MarkerHasNoSpace(0);
      assert false;
    }
    FindMarkerJoin(frame, []);
    BlankBoundary(st, frame, []);
  }

  lemma BlankPush(st: State, frame: seq<byte>)
    requires Inv(st) && st.pending == [] && JsonBlank(frame)
    ensures Push(st, frame) == st
  {
    BlankIsIdle(st, frame);
  }

  lemma SliceUnmarked(data: seq<byte>, from: nat, to: nat)
    requires from <= to <= |data| && !HasMarker(data)
    ensures !HasMarker(data[from..to])
  {
    var slice := data[from..to];
    if HasMarker(slice) {
      var k := Find(slice, MARKER).value;
      SliceSlice(data, from, to, k, k + |MARKER|);
      assert OccursAt(data, MARKER, from + k);
      assert false;
    }
  }

  // ---- junk ----

  /** A byte that no JSON value starts with, or a bracket, which is no object either. */
  predicate StartsNoObject(b: byte) {
    && !IsAsciiSpace(b) && !IsDigit(b) && b != MINUS && b != QUOTE && b != OPEN_BRACE
    && b != LOWER_N && b != LOWER_T && b != LOWER_F
  }

  lemma NoObjectIsRejected(s: seq<byte>)
    requires s != [] && StartsNoObject(s[0])
    ensures Classify(s) == Rejected
  {
    assert Space(s, 0) == 0;
    assert Scalar(s, 0).Bad?;
  }

  /** What is left after trimming, if anything, is rejected by its first byte. */
  predicate IsJunk(data: seq<byte>) {
    Trim(data) == [] || StartsNoObject(Trim(data)[0])
  }

  lemma OfferJunk(st: State, data: seq<byte>)
    requires Inv(st) && st.pending == [] && IsJunk(data)
    ensures Offer(st, Trim(data)) == st
  {
    hide Classify, Trim;
    var core := Trim(data);
    assert [] + core == core;
    if core == [] { EmptyOfferIsIdle(st); } else { NoObjectIsRejected(core); }
  }

  /** A frame of junk, or a junk end of one, leaves an empty buffer alone. */
  lemma JunkIsIdle(st: State, frame: seq<byte>)
    requires Inv(st) && st.pending == [] && IsJunk(frame) && !HasMarker(frame)
    ensures OfferAll(st, SplitClosed(frame)) == st && Push(st, frame) == st
  {
    hide Classify, Trim, Find, Offer;
    if frame != [] {
      SplitUnmarked(frame);
      OfferJunk(st, frame);
      OfferOne(st, Trim(frame));
    } else {
      NothingLeft(st);
    }
  }

  lemma FirstIsJunk(data: seq<byte>)
    requires data != [] && StartsNoObject(data[0])
    ensures IsJunk(data) && Trim(data) != [] && Trim(data)[0] == data[0]
  {
    TrimStartSkips([], data);
    assert [] + data == data;
    var core := TrimEnd(data);
    if core == [] { assert false; }
  }

  /** The first byte that is not blank decides. */
  lemma JunkByStart(data: seq<byte>)
    ensures Trim(data) == [] <==> TrimStart(data) == []
    ensures Trim(data) != [] ==> Trim(data)[0] == TrimStart(data)[0]
    ensures IsJunk(data) <==> TrimStart(data) == [] || StartsNoObject(TrimStart(data)[0])
  {
    hide TrimStart, TrimEnd, StartsNoObject;
    var started := TrimStart(data);
    var core := TrimEnd(started);
    assert core == [] ==> started[|core|..] == started;
  }

  lemma {:induction false} TrimStartFront(data: seq<byte>, n: nat)
    requires n <= |data|
    ensures TrimStart(data[..n]) == [] || (TrimStart(data) != [] && TrimStart(data[..n])[0] == TrimStart(data)[0])
  {
    if n > 0 && IsAsciiSpace(data[0]) {
      assert data[..n][1..] == data[1..][..n - 1];
      TrimStartFront(data[1..], n - 1);
    }
  }

  /** A front of junk is junk. */
  lemma JunkFront(data: seq<byte>, n: nat)
    requires IsJunk(data) && n <= |data|
    ensures IsJunk(data[..n])
  {
    hide Trim, TrimStart, StartsNoObject;
    JunkByStart(data);
    JunkByStart(data[..n]);
    TrimStartFront(data, n);
  }

  /** Junk in front of junk that is not blank at its first byte is junk. */
  lemma JunkThen(a: seq<byte>, f: seq<byte>)
    requires IsJunk(a) && f != [] && StartsNoObject(f[0])
    ensures IsJunk(a + f)
  {
    hide Trim, TrimStart, StartsNoObject;
    if Blank(a) {
      TrimSkipsBlank(a, f);
      FirstIsJunk(f);
    } else {
      JunkByStart(a);
      TrimStartKeeps(a, f);
      NotBlankStays(a);
      JunkByStart(a + f);
    }
  }

  lemma NotBlankStays(a: seq<byte>)
    requires !Blank(a)
    ensures TrimStart(a) != []
  {
    hide TrimStart;
    var started := TrimStart(a);
    assert a == a[..|a| - |started|] + started;
  }

  /** Nothing but blanks and bytes that start no object. */
  predicate IsInert(text: seq<byte>) {
    forall k | 0 <= k < |text| :: IsAsciiSpace(text[k]) || StartsNoObject(text[k])
  }

  lemma InertIsJunk(data: seq<byte>)
    requires IsInert(data)
    ensures IsJunk(data)
  {
    hide StartsNoObject;
    var a, b := TrimIsSlice(data);
    if Trim(data) != [] {
      var started := TrimStart(data);
      assert !IsAsciiSpace(Trim(data)[0]);
      assert Trim(data)[0] == data[a];
    }
  }

  // ---- the start of an event ----

  lemma {:induction false} TrimEndIgnores(core: seq<byte>, after: seq<byte>)
    requires Blank(after)
    ensures TrimEnd(core + after) == TrimEnd(core)
  {
    var n := |after|;
    if n == 0 {
      assert core + after == core;
    } else {
      assert (core + after)[..|core| + n - 1] == core + after[..n - 1];
      TrimEndIgnores(core, after[..n - 1]);
    }
  }

  lemma {:induction false} TrimStartKeeps(core: seq<byte>, after: seq<byte>)
    requires !Blank(core)
    ensures TrimStart(core + after) == TrimStart(core) + after
  {
    if IsAsciiSpace(core[0]) {
      assert (core + after)[1..] == core[1..] + after;
      TrimStartKeeps(core[1..], after);
    }
  }

  lemma TrimIgnoresBlank(core: seq<byte>, after: seq<byte>)
    requires Blank(after)
    ensures Trim(core + after) == Trim(core)
  {
    hide TrimStart, TrimEnd;
    if Blank(core) {
      TrimBlank(core);
      TrimBlank(core + after);
    } else {
      TrimStartKeeps(core, after);
      TrimEndIgnores(TrimStart(core), after);
    }
  }

  lemma TrimMiddle(before: seq<byte>, core: seq<byte>, after: seq<byte>)
    requires Blank(before) && Blank(after)
    ensures Trim(before + core + after) == Trim(core)
  {
    hide Trim;
    assert before + core + after == before + (core + after);
    TrimSkipsBlank(before, core + after);
    TrimIgnoresBlank(core, after);
  }

  predicate OneLine(data: seq<byte>) {
    Find(data, LINE_END).None?
  }

  lemma NoLineEndJoin(x: seq<byte>, y: seq<byte>)
    ensures OneLine(x + y) <==> OneLine(x) && OneLine(y)
  {
    hide Find;
    FindNewlineJoin(x, y);
  }

  lemma MarkerIsOneLine()
    ensures OneLine(MARKER)
  {
    forall k: nat ensures !OccursAt(MARKER, LINE_END, k) {
      if OccursAt(MARKER, LINE_END, k) {
        NewlineAt(MARKER, k);
        assert false;
      }
    }
    FindNothing(MARKER, LINE_END);
  }

  lemma NewlineAt(data: seq<byte>, k: nat)
    requires OccursAt(data, LINE_END, k)
    ensures data[k] == NEWLINE
  {
    assert data[k] == data[k..k + 1][0];
  }

  /** The line of an event, up to anywhere behind its marker. */
  lemma EventLine(rest: seq<byte>)
    requires OneLine(rest)
    ensures
      var line := MARKER + rest;
      OneLine(line) && Find(line, MARKER) == Some(0) && Payload(line) == Trim(rest)
  {
    hide Find, Trim;
    var line := MARKER + rest;
    MarkerIsOneLine();
    NoLineEndJoin(MARKER, rest);
    assert line[0..|MARKER|] == MARKER;
    FindIs(line, MARKER, 0);
    assert line[|MARKER|..] == rest;
    if rest != [] && rest[0] == SPACE {
      assert rest == [SPACE] + rest[1..];
      TrimSkipsBlank([SPACE], rest[1..]);
    }
  }

  /** The front of some blanks up to their first line end. */
  lemma BlankLine(spaces: seq<byte>) returns (x: seq<byte>, tail: seq<byte>)
    requires JsonBlank(spaces)
    ensures spaces == x + tail && JsonBlank(x) && JsonBlank(tail) && OneLine(x)
    ensures tail != [] ==> tail[0] == NEWLINE
  {
    hide Find;
    match Find(spaces, LINE_END)
    case None =>
      x, tail := spaces, [];
    case Some(p) =>
      x, tail := spaces[..p], spaces[p..];
      NewlineAt(spaces, p);
      FindNewlineJoin(x, tail);
      assert x + tail == spaces;
      assert Find(x, LINE_END) != Some(p);
  }

  /** A marker, any blanks, a piece of one line and blanks behind it: the piece is offered, trimmed. */
  lemma StartPiece(st: State, lead: seq<byte>, piece: seq<byte>, spaces: seq<byte>)
    requires Inv(st) && st.pending == [] && JsonBlank(lead) && OneLine(lead) && OneLine(piece) && JsonBlank(spaces)
    ensures Push(st, MARKER + lead + piece + spaces) == Offer(st, Trim(piece))
  {
    hide Classify, Trim, Find, OneLine, Offer;
    var x, tail := BlankLine(spaces);
    var rest := lead + piece + x;
    NoLineEndJoin(lead, piece);
    NoLineEndJoin(lead + piece, x);
    EventLine(rest);
    TrimMiddle(lead, piece, x);
    assert MARKER + lead + piece + spaces == (MARKER + rest) + tail;
    LineThenBlank(st, MARKER + rest, tail);
  }

  lemma LineThenBlank(st: State, line: seq<byte>, tail: seq<byte>)
    requires Inv(st) && st.pending == [] && HasMarker(line) && OneLine(line)
    requires JsonBlank(tail) && (tail != [] ==> tail[0] == NEWLINE)
    ensures Push(st, line + tail) == Offer(st, Payload(line))
  {
    hide Classify, Trim, Find, Offer, Payload;
    SplitLine(line, tail);
    OfferAllAppend(st, [Payload(line)], SplitClosed(tail));
    OfferOne(st, Payload(line));
    OfferKeepsInv(st, Payload(line));
    BlankIsIdle(Offer(st, Payload(line)), tail);
  }

  /** An unmarked frame with a piece in it and blanks around: the piece is offered, trimmed. */
  lemma FirstFragment(st: State, before: seq<byte>, piece: seq<byte>, after: seq<byte>)
    requires st.pending == [] && JsonBlank(before) && JsonBlank(after) && before + piece + after != []
    requires !HasMarker(before + piece + after)
    ensures Push(st, before + piece + after) == Offer(st, Trim(piece))
  {
    hide Classify, Find, Trim, Offer;
    TrimMiddle(before, piece, after);
    SplitUnmarked(before + piece + after);
    OfferOne(st, Trim(piece));
  }

  lemma OfferPrefix(st: State, text: seq<byte>, k: nat)
    requires IsObject(text) && |text| <= MAX_PENDING && k <= |text|
    requires k < |text| ==> !InNumberGap(text[..k])
    requires st.pending == []
    ensures Offer(st, text[..k]) == After(st, text, k)
  {
    hide Classify, Consume;
    assert [] + text[..k] == text[..k] && text + [] == text;
    ConsumePrefix(st.(pending := text[..k]), text, [], k);
  }

  /** Two ways to write one text: the shorter front is the start of the longer one. */
  lemma FrontOf(a: seq<byte>, b: seq<byte>, c: seq<byte>, d: seq<byte>)
    requires a + b == c + d && |a| <= |c|
    ensures a == c[..|a|] && b == c[|a|..] + d
  {
    assert a == (a + b)[..|a|] == (c + d)[..|a|] == c[..|a|];
    assert b == (a + b)[|a|..] == (c + d)[|a|..] == c[|a|..] + d;
  }

  lemma SuffixSlice(x: seq<byte>, y: seq<byte>, from: nat, to: nat)
    requires |x| <= from <= to <= |x| + |y|
    ensures (x + y)[from..to] == y[from - |x|..to - |x|]
  {
  }
}
