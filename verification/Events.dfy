/**
 Server-sent events as an upstream writes them, and what the scanner does with one piece of one of them (section 9.2.5
 of the WHATWG HTML standard; the code knows `data:` lines only).
 */
module Events {
  import opened Bytes
  import opened TokenUsages
  import opened UsageProbe
  import opened CandidateSplit
  import opened UsageScanning
  import opened Feeding

  /**
   Lines without a marker, such as comments and `event:` lines; or a data event: the marker, blanks, one line of
   payload, and blanks up to its last line end, which may be `\n\n` or `\r\n\r\n`.
   */
  datatype Block = Ignored(lines: seq<byte>) | Data(lead: seq<byte>, text: seq<byte>, end: seq<byte>)

  function BlockText(b: Block): (text: seq<byte>)
    ensures b.Data? ==> |text| == Start(b) + |b.text| + |b.end|
  {
    match b
    case Ignored(lines) => lines
    case Data(lead, text, end) => MARKER + lead + text + end
  }

  /** Where the payload starts. */
  function Start(b: Block): nat
    requires b.Data?
  {
    |MARKER| + |b.lead|
  }

  /** Where the payload stops. */
  function Stop(b: Block): nat {
    if b.Data? then Start(b) + |b.text| else |b.lines|
  }

  /** A payload the probe can use, which fits the buffer together with its line ends. */
  ghost predicate IsUsable(b: Block) {
    b.Data? && IsObject(b.text) && |b.text| + |b.end| <= MAX_PENDING
  }

  /** A payload that is given up on as soon as it is offered: blank, too long, or rejected. */
  ghost predicate IsUseless(text: seq<byte>) {
    var core := Trim(text);
    core == [] || |core| > MAX_PENDING || Classify(core) == Rejected
  }

  ghost predicate WellFormed(b: Block) {
    match b
    case Ignored(lines) =>
      lines != [] && StartsNoObject(lines[0]) && lines[|lines| - 1] == NEWLINE && !HasMarker(lines)
    case Data(lead, text, end) =>
      && JsonBlank(lead) && OneLine(lead) && OneLine(text)
      && JsonBlank(end) && end != [] && end[|end| - 1] == NEWLINE
      && (IsUsable(b) || IsUseless(text))
  }

  /** The event as the gateway's own tests write it: `data: `, the payload, and a blank line. */
  function Event(text: seq<byte>): Block {
    Data([SPACE], text, [NEWLINE, NEWLINE])
  }

  /** The usage a block adds: that of a usable payload. */
  ghost function UsageIn(b: Block): Option<TokenUsage> {
    if IsUsable(b) then UsageOf(b.text) else None
  }

  /** The part of the payload held after `off` bytes of the block. */
  ghost function HeldAt(b: Block, off: nat): seq<byte> {
    if IsUsable(b) && Start(b) < off < Stop(b) then b.text[..off - Start(b)] else []
  }

  /** The usage after bytes `from..to` of the block. */
  ghost function UsageAt(usage: Option<TokenUsage>, b: Block, from: nat, to: nat): Option<TokenUsage> {
    if from < Stop(b) <= to then Merge(usage, UsageIn(b)) else usage
  }

  /** The places where a block may be cut at all: anywhere but inside the marker. */
  predicate IsCut(b: Block, off: nat) {
    off <= |BlockText(b)| && (b.Data? && 0 < off ==> |MARKER| <= off)
  }

  /** What follows in the block is blank, or starts with a byte that starts no object, and contains no marker. */
  predicate IsJunkFrom(b: Block, off: nat)
    requires off <= |BlockText(b)|
  {
    IsJunk(BlockText(b)[off..]) && !HasMarker(BlockText(b)[off..])
  }

  /**
   A cut after `to` bytes of the block, when the last one was after `from`. A piece that starts behind the marker must
   not contain another one. A usable payload must not be cut behind the sign, point or exponent letter of a skipped
   number, and its first fragment must not end in whitespace, which would be trimmed. Ignored lines and useless payloads
   may be cut where the rest of the block is junk, the latter only if their first fragment is useless, too.
   */
  ghost predicate CutAllowed(b: Block, from: nat, to: nat)
    requires from <= to <= |BlockText(b)|
  {
    && IsCut(b, to)
    && (b.Ignored? ==> to == 0 || IsJunkFrom(b, to))
    && (b.Data? ==>
          && (0 < from < Stop(b) && (from <= Start(b) || IsUsable(b)) ==> !HasMarker(BlockText(b)[from..to]))
          && if IsUsable(b) then
               && (Start(b) < to < Stop(b) ==> !InNumberGap(b.text[..to - Start(b)]))
               && (from <= Start(b) < to < Stop(b) ==> !IsAsciiSpace(b.text[to - Start(b) - 1]))
             else
               Start(b) < to < Stop(b) ==>
                 IsJunkFrom(b, to) && (from <= Start(b) ==> IsUseless(b.text[..to - Start(b)])))
  }

  /** A position at which a piece may start: where nothing is held in a block that is not usable, the rest is junk. */
  ghost predicate MayStand(b: Block, off: nat) {
    && IsCut(b, off)
    && (b.Ignored? ==> off == 0 || IsJunkFrom(b, off))
    && (b.Data? && !IsUsable(b) && Start(b) < off < Stop(b) ==> IsJunkFrom(b, off))
  }

  lemma CutMayStand(b: Block, from: nat, to: nat)
    requires from <= to <= |BlockText(b)| && CutAllowed(b, from, to)
    ensures MayStand(b, to)
  {
    hide IsUsable, IsUseless, BlockText, IsJunkFrom, InNumberGap, HasMarker, IsAsciiSpace;
  }

  // ---- the bytes of a block ----

  lemma DataPrefix(b: Block, k: nat, spaces: nat)
    requires b.Data? && k <= |b.text| && spaces <= |b.end| && (k == |b.text| || spaces == 0)
    ensures BlockText(b)[0..Start(b) + k + spaces] == MARKER + b.lead + b.text[..k] + b.end[..spaces]
  {
  }

  lemma DataMiddle(b: Block, from: nat, k: nat, spaces: nat)
    requires b.Data? && k <= |b.text| && spaces <= |b.end| && (k == |b.text| || spaces == 0)
    requires |MARKER| <= from <= Start(b)
    ensures BlockText(b)[from..Start(b) + k + spaces] == b.lead[from - |MARKER|..] + b.text[..k] + b.end[..spaces]
  {
    DataPrefix(b, k, spaces);
    var front := b.lead + b.text[..k] + b.end[..spaces];
    assert MARKER + b.lead + b.text[..k] + b.end[..spaces] == MARKER + front;
    SuffixSlice(MARKER, front, from, Start(b) + k + spaces);
    assert BlockText(b)[from..Start(b) + k + spaces] == (MARKER + front)[from..Start(b) + k + spaces];
  }

  lemma DataInner(b: Block, from: nat, to: nat)
    requires b.Data? && Start(b) <= from <= to <= |BlockText(b)|
    ensures BlockText(b)[from..to] == (b.text + b.end)[from - Start(b)..to - Start(b)]
  {
    assert BlockText(b) == (MARKER + b.lead) + (b.text + b.end);
    SuffixSlice(MARKER + b.lead, b.text + b.end, from, to);
  }

  lemma DataTail(b: Block, from: nat, to: nat)
    requires b.Data? && Stop(b) <= from <= to <= |BlockText(b)|
    ensures BlockText(b)[from..to] == b.end[from - Stop(b)..to - Stop(b)]
  {
    SuffixSlice(MARKER + b.lead + b.text, b.end, from, to);
  }

  lemma BlankSlice(data: seq<byte>, from: nat, to: nat)
    requires JsonBlank(data) && from <= to <= |data|
    ensures JsonBlank(data[from..to])
  {
  }

  lemma PrefixIsOneLine(text: seq<byte>, k: nat)
    requires OneLine(text) && k <= |text|
    ensures OneLine(text[..k])
  {
    assert text == text[..k] + text[k..];
    NoLineEndJoin(text[..k], text[k..]);
  }

  // ---- one piece of one block ----

  /** Nothing but the marker and blanks, or blanks behind the marker. */
  lemma MarkerPiece(st: State, b: Block, from: nat, to: nat)
    requires WellFormed(b) && b.Data? && Inv(st) && st.pending == []
    requires IsCut(b, from) && |MARKER| <= to <= Start(b) && from <= to
    ensures Push(st, BlockText(b)[from..to]) == st
  {
    hide Classify, Push, Trim, Offer, OneLine, IsUseless, IsUsable;
    if from == 0 {
      var k := to - |MARKER|;
      PrefixIsOneLine(b.lead, k);
      EmptyIsOneLine();
      assert BlockText(b)[0..to] == MARKER + b.lead[..k] + [] + [];
      StartPiece(st, b.lead[..k], [], []);
      TrimEmpty();
      EmptyOfferIsIdle(st);
    } else {
      assert BlockText(b)[from..to] == b.lead[from - |MARKER|..to - |MARKER|];
      BlankPush(st, BlockText(b)[from..to]);
    }
  }

  lemma EmptyIsOneLine()
    ensures OneLine([])
  {
  }

  lemma TrimEmpty()
    ensures Trim([]) == []
  {
  }

  /** A piece starts in front of the marker, or behind it and contains no other. */
  ghost predicate IsFirst(b: Block, from: nat, to: nat)
    requires b.Data? && from <= to <= |BlockText(b)|
  {
    from == 0 || (|MARKER| <= from <= Start(b) && !HasMarker(BlockText(b)[from..to]))
  }

  /** The first piece of a data event with payload in it, of which there are `k` bytes. */
  lemma FirstPiece(st: State, b: Block, from: nat, to: nat)
    requires WellFormed(b) && b.Data? && Inv(st) && st.pending == [] && Start(b) < to <= |BlockText(b)| && from < to
    requires IsFirst(b, from, to)
    ensures
      var k := if to < Stop(b) then to - Start(b) else |b.text|;
      Push(st, BlockText(b)[from..to]) == Offer(st, Trim(b.text[..k]))
  {
    hide Classify, Push, Trim, Offer, OneLine, IsUseless, BlockText, HasMarker;
    var k := if to < Stop(b) then to - Start(b) else |b.text|;
    var spaces := to - Start(b) - k;
    BlankSlice(b.end, 0, spaces);
    assert b.end[0..spaces] == b.end[..spaces];
    if from == 0 {
      DataPrefix(b, k, spaces);
      PrefixIsOneLine(b.text, k);
      StartPiece(st, b.lead, b.text[..k], b.end[..spaces]);
    } else {
      DataMiddle(b, from, k, spaces);
      FirstFragment(st, b.lead[from - |MARKER|..], b.text[..k], b.end[..spaces]);
    }
  }

  lemma StartUsable(st: State, b: Block, from: nat, to: nat)
    requires WellFormed(b) && IsUsable(b) && Inv(st) && st.pending == [] && Start(b) < to <= |BlockText(b)|
    requires from <= Start(b) && IsCut(b, from) && CutAllowed(b, from, to)
    ensures Push(st, BlockText(b)[from..to]) == State(HeldAt(b, to), UsageAt(st.usage, b, from, to))
  {
    hide Classify, Push, Merge, UsageOf, InNumberGap, HasMarker, Trim, Offer, OneLine, IsUseless, BlockText;
    var k := if to < Stop(b) then to - Start(b) else |b.text|;
    ObjectIsBraced(b.text);
    FirstPiece(st, b, from, to);
    assert b.text[..|b.text|] == b.text;
    TrimCore(b.text[..k]);
    OfferPrefix(st, b.text, k);
  }

  lemma ContinueUsable(st: State, b: Block, from: nat, to: nat)
    requires WellFormed(b) && IsUsable(b) && Start(b) < from < Stop(b) && from <= to <= |BlockText(b)|
    requires st.pending == HeldAt(b, from)
    requires CutAllowed(b, from, to)
    ensures Push(st, BlockText(b)[from..to]) == State(HeldAt(b, to), UsageAt(st.usage, b, from, to))
  {
    hide Classify, Push, InNumberGap, HasMarker, UsageOf, Merge, OneLine, IsUseless, BlockText;
    DataInner(b, from, to);
    ContinueObject(st, b.text, b.end, from - Start(b), to - Start(b));
  }

  lemma OfferUseless(st: State, text: seq<byte>)
    requires IsUseless(text) && Inv(st) && st.pending == []
    ensures Offer(st, Trim(text)) == st
  {
    hide Classify, Trim;
    var core := Trim(text);
    assert [] + core == core;
    if core == [] { EmptyOfferIsIdle(st); }
  }

  lemma StartUseless(st: State, b: Block, from: nat, to: nat)
    requires WellFormed(b) && b.Data? && !IsUsable(b) && Inv(st) && st.pending == []
    requires Start(b) < to <= |BlockText(b)| && from <= Start(b) && IsCut(b, from) && CutAllowed(b, from, to)
    ensures Push(st, BlockText(b)[from..to]) == st
  {
    hide Classify, Push, Trim, Offer, OneLine, IsUseless, HasMarker, BlockText;
    if from < Stop(b) || from == 0 {
      FirstPiece(st, b, from, to);
      assert b.text[..|b.text|] == b.text;
      OfferUseless(st, if to < Stop(b) then b.text[..to - Start(b)] else b.text);
    } else {
      EndIsJunk(b, from);
      LaterPieceIsIdle(st, b, from, to);
    }
  }

  lemma BlanksUnmarked(data: seq<byte>)
    requires JsonBlank(data)
    ensures !HasMarker(data)
  {
    EmptyIsOpen();
    BlankIsIdle(EMPTY, data);
  }

  lemma EndIsJunk(b: Block, off: nat)
    requires WellFormed(b) && Stop(b) <= off <= |BlockText(b)|
    ensures IsJunkFrom(b, off)
  {
    hide Classify, Find, Trim, OneLine, IsUseless, IsUsable, BlockText, StartsNoObject;
    var rest := BlockText(b)[off..];
    assert rest == BlockText(b)[off..|BlockText(b)|];
    if b.Data? {
      DataTail(b, off, |BlockText(b)|);
    } else {
      WholeSlice(b);
      assert rest == [];
    }
    BlanksUnmarked(rest);
    TrimBlank(rest);
  }

  /** A piece of a block of which nothing is held, and which has only junk left. */
  lemma LaterPieceIsIdle(st: State, b: Block, from: nat, to: nat)
    requires Inv(st) && st.pending == [] && from <= to <= |BlockText(b)| && IsJunkFrom(b, from)
    ensures Push(st, BlockText(b)[from..to]) == st
  {
    hide Classify, Push, IsJunk, HasMarker, BlockText;
    var rest := BlockText(b)[from..];
    JunkFront(rest, to - from);
    SliceUnmarked(rest, 0, to - from);
    assert rest[0..to - from] == rest[..to - from] == BlockText(b)[from..to];
    JunkIsIdle(st, rest[..to - from]);
  }

  lemma LinesAreJunk(b: Block)
    requires WellFormed(b) && b.Ignored?
    ensures IsJunkFrom(b, 0)
  {
    hide Find, Trim, StartsNoObject;
    assert b.lines[0..] == b.lines;
    FirstIsJunk(b.lines);
  }

  /** One piece of one block, from any place where it was cut to any allowed one. */
  lemma PushPiece(st: State, b: Block, from: nat, to: nat)
    requires WellFormed(b) && Inv(st)
    requires from <= to <= |BlockText(b)| && MayStand(b, from)
    requires st.pending == HeldAt(b, from)
    requires CutAllowed(b, from, to)
    ensures Push(st, BlockText(b)[from..to]) == State(HeldAt(b, to), UsageAt(st.usage, b, from, to))
  {
    hide Classify, InNumberGap, HasMarker, Push, UsageOf, BlockText, IsJunkFrom, OneLine, IsUseless, StartsNoObject;
    if from == to {
      assert BlockText(b)[from..to] == [];
      IdlePush(st);
    } else if b.Ignored? {
      if from == 0 { LinesAreJunk(b); }
      LaterPieceIsIdle(st, b, from, to);
      NothingAdded(st.usage);
    } else if to <= Start(b) {
      PayloadStop(b);
      MarkerPiece(st, b, from, to);
      NothingAdded(st.usage);
    } else if Stop(b) <= from && Start(b) < from {
      EndIsJunk(b, from);
      LaterPieceIsIdle(st, b, from, to);
    } else if IsUsable(b) {
      if from <= Start(b) { StartUsable(st, b, from, to); } else { ContinueUsable(st, b, from, to); }
    } else {
      NothingAdded(st.usage);
      if from <= Start(b) { StartUseless(st, b, from, to); } else { LaterPieceIsIdle(st, b, from, to); }
    }
  }

  lemma PayloadStop(b: Block)
    requires b.Data?
    ensures Start(b) <= Stop(b) && (IsUsable(b) ==> Start(b) < Stop(b))
  {
    hide Classify, Trim;
    if IsUsable(b) { ObjectIsBraced(b.text); }
  }

  lemma WholeSlice(b: Block)
    ensures BlockText(b)[0..|BlockText(b)|] == BlockText(b)
    ensures b.Ignored? ==> |BlockText(b)| == |b.lines|
  {
  }

  lemma NothingAdded(usage: Option<TokenUsage>)
    ensures Merge(usage, None) == usage
  {
  }

  // ---- what follows a block ----

  /** How the bytes behind a block may begin: with an event, or with ignored lines. */
  predicate StartsBlock(f: seq<byte>) {
    f == [] || StartsEvent(f) || StartsNoObject(f[0])
  }

  lemma BlankEnds(data: seq<byte>)
    requires JsonBlank(data)
    ensures EndsEvent(data)
  {
    EmptyIsOpen();
    BlankIsIdle(EMPTY, data);
  }

  /** The first line end in the blanks at the end of an event. */
  lemma LineEndIn(end: seq<byte>) returns (x: seq<byte>, tail: seq<byte>)
    requires JsonBlank(end) && end != [] && end[|end| - 1] == NEWLINE
    ensures end == x + tail && OneLine(x) && JsonBlank(x) && JsonBlank(tail) && tail != [] && tail[0] == NEWLINE
  {
    hide Find;
    x, tail := BlankLine(end);
    assert end[|end| - 1..|end| - 1 + |LINE_END|] == LINE_END;
    assert OccursAt(end, LINE_END, |end| - 1);
    assert tail == [] ==> x == end;
  }

  lemma WholeEventEnds(b: Block)
    requires WellFormed(b) && b.Data?
    ensures EndsEvent(BlockText(b))
  {
    hide Classify, Find, Trim, OneLine, IsUseless, IsUsable;
    var x, tail := LineEndIn(b.end);
    var rest := b.lead + b.text + x;
    NoLineEndJoin(b.lead, b.text);
    NoLineEndJoin(b.lead + b.text, x);
    EventLine(rest);
    assert BlockText(b) == (MARKER + rest) + tail;
    LineEnds(MARKER + rest, tail);
  }

  lemma LineEnds(line: seq<byte>, tail: seq<byte>)
    requires Find(line, MARKER) == Some(0) && OneLine(line)
    requires JsonBlank(tail) && tail != [] && tail[0] == NEWLINE
    ensures EndsEvent(line + tail)
  {
    hide Find, Trim;
    var after := AfterMarker(line, 0);
    AfterMarkerIsSuffix(line, 0);
    var front := line[..|line| - |after|];
    assert line == front + after;
    NoLineEndJoin(front, after);
    FindMarkerJoin(line, tail);
    AfterMarkerJoin(line, tail, 0);
    FindNewlineJoin(after, tail);
    assert tail[0..|LINE_END|] == LINE_END;
    FindIs(tail, LINE_END, 0);
    assert (after + tail)[|after|..] == tail;
    BlankEnds(tail);
  }

  /** The rest of a block ends it, and what follows may come in the same frame. */
  lemma RestThenMore(st: State, b: Block, off: nat, f: seq<byte>)
    requires WellFormed(b) && Inv(st) && off < |BlockText(b)| && MayStand(b, off) && st.pending == HeldAt(b, off)
    requires CutAllowed(b, off, |BlockText(b)|) && (b.Data? && 0 < off <= Start(b) ==> f == [])
    requires StartsBlock(f) && (st.pending != [] ==> f == [] || StartsEvent(f))
    ensures Push(Push(st, BlockText(b)[off..]), f) == Push(st, BlockText(b)[off..] + f)
  {
    hide Classify, InNumberGap, HasMarker, Push, UsageOf, BlockText, IsJunkFrom, OneLine, IsUseless, StartsNoObject,
         EndsEvent, AtBoundary;
    var rest := BlockText(b)[off..];
    assert rest == BlockText(b)[off..|BlockText(b)|];
    PushPiece(st, b, off, |BlockText(b)|);
    if b.Data? && 0 < off <= Start(b) {
      assert rest + f == rest;
      IdlePush(Push(st, rest));
    } else if b.Data? && (off == 0 || st.pending != []) {
      RestEnds(st, b, off);
      Batching(st, rest, f);
    } else {
      RestIsJunk(b, off);
      JunkThenMore(st, rest, f);
    }
  }

  lemma RestEnds(st: State, b: Block, off: nat)
    requires WellFormed(b) && b.Data? && off < |BlockText(b)| && st.pending == HeldAt(b, off)
    requires off == 0 || st.pending != []
    requires CutAllowed(b, off, |BlockText(b)|)
    ensures AtBoundary(st, BlockText(b)[off..])
  {
    hide Classify, EndsEvent, Find, InNumberGap, OneLine, IsUseless;
    var rest := BlockText(b)[off..];
    assert rest == BlockText(b)[off..|BlockText(b)|];
    if off == 0 {
      WholeEventEnds(b);
      assert rest == BlockText(b);
    } else {
      assert rest[|rest| - 1] == b.end[|b.end| - 1];
    }
  }

  /** The rest of a block that the scanner ignores in whole. */
  predicate IsIgnoredText(a: seq<byte>) {
    a != [] && IsAsciiSpace(a[|a| - 1]) && IsJunk(a) && !HasMarker(a)
  }

  lemma RestIsJunk(b: Block, off: nat)
    requires WellFormed(b) && off < |BlockText(b)| && MayStand(b, off)
    requires b.Data? ==> Start(b) < off && (IsUsable(b) ==> Stop(b) <= off)
    ensures IsIgnoredText(BlockText(b)[off..])
  {
    hide Classify, HasMarker, OneLine, IsUseless, IsUsable, StartsNoObject, IsJunk;
    var a := BlockText(b)[off..];
    if b.Data? {
      if Stop(b) <= off { EndIsJunk(b, off); }
      assert a[|a| - 1] == b.end[|b.end| - 1];
    } else {
      if off == 0 { LinesAreJunk(b); }
      assert a[|a| - 1] == b.lines[|b.lines| - 1];
    }
  }

  lemma JunkThenMore(st: State, a: seq<byte>, f: seq<byte>)
    requires Inv(st) && st.pending == [] && IsIgnoredText(a) && StartsBlock(f)
    ensures Push(Push(st, a), f) == Push(st, a + f)
  {
    hide Classify, Find, IsJunk, StartsNoObject, Push, StartsEvent;
    JunkIsIdle(st, a);
    FindMarkerJoin(a, f);
    if f == [] {
      assert a + f == a;
      IdlePush(st);
    } else if HasMarker(f) {
      SplitSkips(a, f);
      PushClosed(st, f);
      PushClosed(st, a + f);
    } else {
      assert StartsNoObject(f[0]) by { MarkerInFront(f); }
      FirstIsJunk(f);
      JunkIsIdle(st, f);
      JunkThen(a, f);
      JunkIsIdle(st, a + f);
    }
  }

  lemma MarkerInFront(f: seq<byte>)
    ensures StartsEvent(f) ==> HasMarker(f)
  {
  }

  lemma PushClosed(st: State, f: seq<byte>)
    requires st.pending == []
    ensures Push(st, f) == OfferAll(st, SplitClosed(f))
  {
  }

  // ---- payloads of bytes that start no object ----

  lemma MarkerHasT(data: seq<byte>, k: nat)
    requires OccursAt(data, MARKER, k)
    ensures data[k + 2] == LOWER_T
  {
    assert data[k + 2] == data[k..k + |MARKER|][2];
  }

  lemma InertHasNoMarker(data: seq<byte>)
    requires IsInert(data)
    ensures !HasMarker(data)
  {
    hide Find;
    if HasMarker(data) {
      var k := Find(data, MARKER).value;
      MarkerHasT(data, k);
      assert false;
    }
  }

  lemma InertIsUseless(text: seq<byte>)
    requires IsInert(text)
    ensures IsUseless(text)
  {
    hide Classify, Trim, StartsNoObject;
    InertIsJunk(text);
    var core := Trim(text);
    if core != [] { NoObjectIsRejected(core); }
  }

  /** A payload like `[DONE]` may be cut anywhere, any number of times. */
  lemma InertIsCutAnywhere(b: Block, from: nat, to: nat)
    requires WellFormed(b) && b.Data? && IsInert(b.text) && !IsUsable(b)
    requires from <= to <= |BlockText(b)| && IsCut(b, from) && IsCut(b, to)
    ensures MayStand(b, from) && CutAllowed(b, from, to) && MayStand(b, to)
  {
    hide Classify, Find, Trim, OneLine, IsUseless, IsUsable, BlockText, StartsNoObject;
    var text := BlockText(b);
    if |MARKER| <= from {
      InertPiece(b, from, to);
      InertPiece(b, from, |text|);
      assert text[from..] == text[from..|text|];
    }
    if |MARKER| <= to {
      InertPiece(b, to, |text|);
      assert text[to..] == text[to..|text|];
    }
    if Start(b) < to < Stop(b) { InertIsUseless(b.text[..to - Start(b)]); }
  }

  lemma InertPiece(b: Block, from: nat, to: nat)
    requires WellFormed(b) && b.Data? && IsInert(b.text) && |MARKER| <= from <= to <= |BlockText(b)|
    ensures IsJunk(BlockText(b)[from..to]) && !HasMarker(BlockText(b)[from..to])
  {
    hide *;
    var inner := b.lead + b.text + b.end;
    InertInside(b);
    SuffixSlice(MARKER, inner, from, to);
    InertSlice(inner, from - |MARKER|, to - |MARKER|);
    InertIsJunk(BlockText(b)[from..to]);
    InertHasNoMarker(BlockText(b)[from..to]);
  }

  lemma InertInside(b: Block)
    requires WellFormed(b) && b.Data? && IsInert(b.text)
    ensures BlockText(b) == MARKER + (b.lead + b.text + b.end) && IsInert(b.lead + b.text + b.end)
  {
    hide IsUseless, IsUsable, OneLine, StartsNoObject;
  }

  lemma InertSlice(data: seq<byte>, i: nat, j: nat)
    requires IsInert(data) && i <= j <= |data|
    ensures IsInert(data[i..j])
  {
    hide StartsNoObject, IsAsciiSpace;
  }
}
