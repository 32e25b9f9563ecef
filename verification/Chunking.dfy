/**
 Where the network cuts a stream of server-sent events does not matter, as long as the cuts stay clear of the places
 named in `CutAllowed` and `CutsAllowed`.
 */
module Chunking {
  import opened Bytes
  import opened TokenUsages
  import opened UsageProbe
  import opened ProbeMeaning
  import opened BlankRuns
  import opened ValueRuns
  import opened CandidateSplit
  import opened UsageScanning
  import opened Feeding
  import opened Events

  function Stream(blocks: seq<Block>): seq<byte> {
    if blocks == [] then [] else BlockText(blocks[0]) + Stream(blocks[1..])
  }

  ghost function UsagesIn(blocks: seq<Block>): seq<Option<TokenUsage>> {
    if blocks == [] then [] else [UsageIn(blocks[0])] + UsagesIn(blocks[1..])
  }

  ghost predicate AllWellFormed(blocks: seq<Block>) {
    forall i | 0 <= i < |blocks| :: WellFormed(blocks[i])
  }

  // ---- a first fragment that ends in blanks ----

  /** How much of the first `k` bytes is left when the blanks at their end are trimmed. */
  function Kept(text: seq<byte>, k: nat): (a: nat)
    requires k <= |text|
    ensures a <= k
  {
    |TrimEnd(text[..k])|
  }

  lemma TrimEndIs(front: seq<byte>)
    requires front != [] && !IsAsciiSpace(front[0])
    ensures
      var a := |TrimEnd(front)|;
      && 0 < a <= |front| && Trim(front) == front[..a] && Blank(front[a..]) && !IsAsciiSpace(front[a - 1])
  {
    assert TrimStart(front) == front;
    hide TrimStart, TrimEnd;
    assert front[0..] == front;
  }

  lemma TrimKept(text: seq<byte>, k: nat)
    requires 0 < k <= |text| && !IsAsciiSpace(text[0])
    ensures
      var a := Kept(text, k);
      && 0 < a <= k && Blank(text[a..k]) && Trim(text[..k]) == text[..a] && !IsAsciiSpace(text[a - 1])
      && (a < k <==> IsAsciiSpace(text[k - 1]))
  {
    hide Trim, TrimEnd;
    var front := text[..k];
    var a := Kept(text, k);
    TrimEndIs(front);
    assert text[a..k] == front[a..] && text[..a] == front[..a];
    if a < k { assert front[a..][k - 1 - a] == text[k - 1]; }
  }

  lemma KeptIs(text: seq<byte>, k: nat)
    requires IsObject(text) && 0 < k < |text|
    ensures
      var a := Kept(text, k);
      && 0 < a <= k && BlankRun(text, a, k) && Trim(text[..k]) == text[..a] && !IsAsciiSpace(text[a - 1])
      && (a < k <==> IsAsciiSpace(text[k - 1])) && (a < k ==> !InNumberGap(text[..a]))
  {
    hide Classify, DocumentOf, Kept, Trim, Parse;
    var a := Kept(text, k);
    ObjectIsBraced(text);
    VerdictIsMeaning(text);
    TrimKept(text, k);
    forall n | 0 <= n < k - a ensures IsJsonSpace(text[a..k][n]) {
      NoFeedInDocument(text, a + n);
    }
    if a < k {
      assert IsJsonSpace(text[a..k][0]);
      ObjectParses(text);
      if InNumberGap(text[..a]) { GapIsResumed(text, a); }
    }
  }

  lemma ObjectParses(text: seq<byte>)
    requires IsObject(text)
    ensures Parse(text).Ok?
  {
    hide Parse;
  }

  /** The block whose payload lacks the blanks that are trimmed when it is cut after `to` bytes. */
  function Shortened(b: Block, to: nat): Block
    requires b.Data? && Start(b) <= to <= Stop(b)
  {
    var k := to - Start(b);
    b.(text := ClosedUp(b.text, Kept(b.text, k), k))
  }

  /** The payload is cut behind blanks, and the probe reads it the same without them. */
  ghost predicate EndsInBlanks(b: Block, to: nat) {
    && IsUsable(b) && Start(b) < to < Stop(b)
    && IsAsciiSpace(b.text[to - Start(b) - 1])
    && IsHarmless(b.text, Kept(b.text, to - Start(b)), to - Start(b))
  }

  /** A first cut behind such blanks: they are trimmed, and nothing is lost with them. */
  ghost predicate CutBehindBlanks(b: Block, from: nat, to: nat) {
    EndsInBlanks(b, to) && from <= to && IsFirst(b, from, to)
  }

  lemma ClosedUpIsObject(text: seq<byte>, a: nat, b: nat)
    requires IsObject(text) && BlankRun(text, a, b) && 0 < a < b < |text| && IsHarmless(text, a, b)
    ensures IsObject(ClosedUp(text, a, b)) && UsageOf(ClosedUp(text, a, b)) == UsageOf(text)
  {
    hide Classify, DocumentOf, IsHarmless;
    VerdictIsMeaning(text);
    ClosedUpKeepsVerdict(text, a, b);
    var t := ClosedUp(text, a, b);
    assert t[0] == text[0] && t[|t| - 1] == text[|text| - 1];
  }

  /** Offering a first fragment that ends in harmless blanks leaves the start of the closed-up object. */
  lemma HeldBehindBlanks(st: State, text: seq<byte>, k: nat)
    requires IsObject(text) && |text| <= MAX_PENDING && 0 < k < |text| && st.pending == []
    requires IsAsciiSpace(text[k - 1]) && IsHarmless(text, Kept(text, k), k)
    ensures
      var a := Kept(text, k);
      var t := ClosedUp(text, a, k);
      && 0 < a < |t| && |t| == |text| - (k - a) && IsObject(t) && UsageOf(t) == UsageOf(text)
      && Offer(st, Trim(text[..k])) == State(t[..a], st.usage)
  {
    hide Classify, Parse, IsHarmless, UsageOf, Trim, Merge, Kept, Offer;
    var a := Kept(text, k);
    var t := ClosedUp(text, a, k);
    KeptIs(text, k);
    ClosedUpIsObject(text, a, k);
    assert t[..a] == text[..a];
    hide IsObject;
    OfferPrefix(st, t, a);
  }

  lemma ClosedUpIsOneLine(text: seq<byte>, a: nat, b: nat)
    requires OneLine(text) && a <= b <= |text|
    ensures OneLine(ClosedUp(text, a, b))
  {
    hide OneLine;
    assert text == text[..a] + text[a..b] + text[b..];
    NoLineEndJoin(text[..a] + text[a..b], text[b..]);
    NoLineEndJoin(text[..a], text[a..b]);
    NoLineEndJoin(text[..a], text[b..]);
  }

  lemma ShortenedText(text: seq<byte>, k: nat)
    requires IsObject(text) && OneLine(text) && 0 < k < |text| && IsAsciiSpace(text[k - 1])
    requires IsHarmless(text, Kept(text, k), k)
    ensures
      var a := Kept(text, k);
      var t := ClosedUp(text, a, k);
      && IsObject(t) && OneLine(t) && UsageOf(t) == UsageOf(text) && 0 < a < |t| == |text| - (k - a)
      && t[..a] == Trim(text[..k]) && !InNumberGap(t[..a]) && !IsAsciiSpace(t[a - 1])
  {
    hide Classify, Parse, OneLine, IsHarmless, UsageOf, Trim, Kept;
    var a := Kept(text, k);
    KeptIs(text, k);
    ClosedUpIsObject(text, a, k);
    ClosedUpIsOneLine(text, a, k);
    var t := ClosedUp(text, a, k);
    assert t[..a] == text[..a] && t[a - 1] == text[a - 1];
  }

  lemma ShortenedIs(b: Block, to: nat)
    requires WellFormed(b) && EndsInBlanks(b, to)
    ensures
      var short := Shortened(b, to);
      var gone := to - Start(b) - Kept(b.text, to - Start(b));
      && WellFormed(short) && IsUsable(short) && UsageIn(short) == UsageIn(b)
      && |BlockText(short)| == |BlockText(b)| - gone && Stop(short) == Stop(b) - gone && Start(short) == Start(b)
      && Start(b) < to - gone < Stop(short) && CutAllowed(short, 0, to - gone)
      && HeldAt(short, to - gone) == Trim(b.text[..to - Start(b)])
  {
    hide *;
    BlanksBounds(b, to);
    var k := to - Start(b);
    var a := Kept(b.text, k);
    ShortenedText(b.text, k);
    ShorterBlock(b, ClosedUp(b.text, a, k), k - a);
    ShorterCut(b.(text := ClosedUp(b.text, a, k)), a);
    ShortenedBlock(b, to);
  }

  lemma BlanksBounds(b: Block, to: nat)
    requires WellFormed(b) && EndsInBlanks(b, to)
    ensures b.Data? && IsUsable(b) && Start(b) < to < Stop(b) == Start(b) + |b.text|
    ensures IsObject(b.text) && OneLine(b.text) && IsAsciiSpace(b.text[to - Start(b) - 1])
    ensures IsHarmless(b.text, Kept(b.text, to - Start(b)), to - Start(b))
  {
    hide IsObject, OneLine, IsHarmless, Kept, IsUseless;
  }

  lemma ShortenedBlock(b: Block, to: nat)
    requires b.Data? && Start(b) <= to <= Stop(b)
    ensures
      var k := to - Start(b);
      Shortened(b, to) == b.(text := ClosedUp(b.text, Kept(b.text, k), k))
  {
  }

  lemma ShorterBlock(b: Block, t: seq<byte>, gone: nat)
    requires b.Data? && WellFormed(b) && IsUsable(b) && IsObject(t) && OneLine(t) && UsageOf(t) == UsageOf(b.text)
    requires |t| + gone == |b.text|
    ensures
      var short := b.(text := t);
      && WellFormed(short) && IsUsable(short) && UsageIn(short) == UsageIn(b)
      && |BlockText(short)| == |BlockText(b)| - gone && Stop(short) == Stop(b) - gone && Start(short) == Start(b)
  {
    hide IsObject, OneLine, IsUseless, UsageOf, JsonBlank;
  }

  lemma ShorterCut(b: Block, a: nat)
    requires b.Data? && IsUsable(b) && 0 < a < |b.text|
    requires !InNumberGap(b.text[..a]) && !IsAsciiSpace(b.text[a - 1])
    ensures CutAllowed(b, 0, Start(b) + a) && HeldAt(b, Start(b) + a) == b.text[..a]
  {
    hide IsUsable, InNumberGap, IsAsciiSpace, HasMarker, BlockText;
  }

  /** From the cut on, both blocks have the same bytes. */
  lemma ShortenedRest(b: Block, to: nat)
    requires b.Data? && Start(b) <= to <= Stop(b)
    ensures
      var gone := to - Start(b) - Kept(b.text, to - Start(b));
      && to - gone <= |BlockText(Shortened(b, to))|
      && BlockText(Shortened(b, to))[to - gone..] == BlockText(b)[to..]
  {
    var k := to - Start(b);
    var a := Kept(b.text, k);
    hide Kept;
    var x := MARKER + b.lead;
    SuffixOf(x, b.text[..k], b.text[k..], b.end);
    SuffixOf(x, b.text[..a], b.text[k..], b.end);
    assert b.text == b.text[..k] + b.text[k..];
  }

  lemma SuffixOf(x: seq<byte>, y: seq<byte>, z: seq<byte>, end: seq<byte>)
    ensures (x + (y + z) + end)[|x| + |y|..] == z + end
  {
    assert x + (y + z) + end == (x + y) + (z + end);
  }

  lemma PushBehindBlanks(st: State, b: Block, from: nat, to: nat)
    requires WellFormed(b) && Inv(st) && st.pending == [] && CutBehindBlanks(b, from, to)
    ensures
      var gone := to - Start(b) - Kept(b.text, to - Start(b));
      Push(st, BlockText(b)[from..to]) == State(HeldAt(Shortened(b, to), to - gone), st.usage)
  {
    hide *;
    FirstBounds(b, from, to);
    BlanksBounds(b, to);
    var k := to - Start(b);
    FirstPiece(st, b, from, to);
    ShortenedIs(b, to);
    HeldBehindBlanks(st, b.text, k);
    ShortenedText(b.text, k);
  }

  lemma FirstBounds(b: Block, from: nat, to: nat)
    requires CutBehindBlanks(b, from, to)
    ensures b.Data? && EndsInBlanks(b, to) && from <= Start(b) < to <= |BlockText(b)|
    ensures IsFirst(b, from, to) && |b.text| <= MAX_PENDING
  {
    hide IsObject, HasMarker, IsHarmless, Kept, BlockText;
  }

  // ---- a whole stream ----

  /**
   The cuts between the frames are all allowed, `off` bytes into the first block. Behind harmless blanks the rest is
   read as if those blanks were not there. A frame that starts between the marker and the payload must not go on
   behind the event, where another marker would hide it. A frame that completes a payload held from earlier frames must
   not go on with ignored lines, which would be glued to it.
   */
  ghost predicate CutsAllowed(blocks: seq<Block>, off: nat, frames: seq<seq<byte>>)
    requires blocks != [] ==> off <= |BlockText(blocks[0])|
    decreases |blocks|, |frames|
  {
    if frames == [] || blocks == [] then true
    else
      var b, frame := blocks[0], frames[0];
      var left := |BlockText(b)| - off;
      if |frame| < left then
        var to := off + |frame|;
        if CutBehindBlanks(b, off, to) then
          ShortenedLength(b, to);
          CutsAllowed([Shortened(b, to)] + blocks[1..], Start(b) + Kept(b.text, to - Start(b)), frames[1..])
        else CutAllowed(b, off, to) && CutsAllowed(blocks, to, frames[1..])
      else
        && CutAllowed(b, off, off + left)
        && (b.Data? && 0 < off <= Start(b) ==> |frame| == left)
        && (HeldAt(b, off) != [] && |frame| > left && |blocks| > 1 ==> blocks[1].Data?)
        && CutsAllowed(blocks[1..], 0, [frame[left..]] + frames[1..])
  }

  lemma ShortenedLength(b: Block, to: nat)
    requires b.Data? && Start(b) <= to <= Stop(b)
    ensures Start(b) + Kept(b.text, to - Start(b)) <= |BlockText(Shortened(b, to))|
  {
  }

  /** The state fits a position `off` bytes into the first of the remaining blocks. */
  ghost predicate AtPosition(st: State, blocks: seq<Block>, off: nat) {
    if blocks == [] then off == 0 && st.pending == []
    else
      && off < |BlockText(blocks[0])| && MayStand(blocks[0], off)
      && st.pending == HeldAt(blocks[0], off)
  }

  function Left(blocks: seq<Block>, off: nat): seq<byte>
    requires blocks != [] ==> off <= |BlockText(blocks[0])|
  {
    if blocks == [] then [] else BlockText(blocks[0])[off..] + Stream(blocks[1..])
  }

  /** The state when `n` more bytes have arrived, `off` bytes into the first of the remaining blocks. */
  ghost function Arrived(usage: Option<TokenUsage>, blocks: seq<Block>, off: nat, n: nat): State
    requires blocks != [] ==> off <= |BlockText(blocks[0])|
    decreases |blocks|
  {
    if blocks == [] then State([], usage)
    else
      var b, to := blocks[0], off + n;
      var end := |BlockText(b)|;
      if to < end then State(HeldAt(b, to), UsageAt(usage, b, off, to))
      else Arrived(UsageAt(usage, b, off, end), blocks[1..], 0, to - end)
  }

  /** The same usage, and nothing held where nothing is expected to be. */
  ghost predicate Matches(st: State, expected: State) {
    st.usage == expected.usage && (expected.pending == [] ==> st.pending == [])
  }

  /** Any frames of the stream, whether or not the rest of it ever arrives. */
  lemma {:induction false} StreamRun(st: State, blocks: seq<Block>, off: nat, frames: seq<seq<byte>>,
                                     unsent: seq<byte>)
    requires AllWellFormed(blocks) && Inv(st) && AtPosition(st, blocks, off)
    requires Flatten(frames) + unsent == Left(blocks, off)
    requires CutsAllowed(blocks, off, frames)
    ensures Matches(PushAll(st, frames), Arrived(st.usage, blocks, off, |Flatten(frames)|))
    decreases |blocks|, |frames|, 1
  {
    hide Classify, Push, InNumberGap, HasMarker, UsageAt, HeldAt, BlockText, WellFormed, CutAllowed, CutBehindBlanks,
         MayStand, Left;
    if frames == [] {
      ArrivedNothing(st, blocks, off);
    } else if blocks == [] {
      NothingIsLeft(off, frames, unsent);
      IdlePush(st);
      StreamRun(st, blocks, off, frames[1..], unsent);
    } else if |frames[0]| < |BlockText(blocks[0])| - off {
      if CutBehindBlanks(blocks[0], off, off + |frames[0]|) {
        BlanksTrimmed(st, blocks, off, frames, unsent);
      } else {
        StillInBlock(st, blocks, off, frames, unsent);
      }
    } else {
      BlockFinished(st, blocks, off, frames, unsent);
    }
  }

  lemma NothingIsLeft(off: nat, frames: seq<seq<byte>>, unsent: seq<byte>)
    requires frames != [] && Flatten(frames) + unsent == Left([], off)
    ensures frames[0] == [] && Flatten(frames[1..]) + unsent == [] && Flatten(frames) == Flatten(frames[1..])
  {
  }

  lemma ArrivedNothing(st: State, blocks: seq<Block>, off: nat)
    requires AtPosition(st, blocks, off)
    ensures Arrived(st.usage, blocks, off, 0) == st
  {
  }

  lemma ArrivedInSteps(usage: Option<TokenUsage>, blocks: seq<Block>, off: nat, m: nat, n: nat)
    requires blocks != [] && off + m < |BlockText(blocks[0])|
    ensures Arrived(usage, blocks, off, m + n)
            == Arrived(UsageAt(usage, blocks[0], off, off + m), blocks, off + m, n)
  {
    hide UsageIn, Merge, BlockText;
  }

  /** The first frame, which ends inside the first block. */
  lemma FrameInBlock(blocks: seq<Block>, off: nat, frames: seq<seq<byte>>, unsent: seq<byte>)
    requires blocks != [] && frames != [] && off + |frames[0]| < |BlockText(blocks[0])|
    requires Flatten(frames) + unsent == Left(blocks, off)
    ensures frames[0] == BlockText(blocks[0])[off..off + |frames[0]|]
    ensures Flatten(frames[1..]) + unsent == Left(blocks, off + |frames[0]|)
    ensures |Flatten(frames)| == |frames[0]| + |Flatten(frames[1..])|
  {
    hide BlockText;
    var text, frame := BlockText(blocks[0]), frames[0];
    var later := Flatten(frames[1..]) + unsent;
    var to := off + |frame|;
    assert frame + later == Flatten(frames) + unsent;
    FrontOf(frame, later, text[off..], Stream(blocks[1..]));
    assert text[off..][..|frame|] == text[off..to] && text[off..][|frame|..] == text[to..];
  }

  lemma FirstPosition(st: State, blocks: seq<Block>, off: nat)
    requires AllWellFormed(blocks) && AtPosition(st, blocks, off) && blocks != []
    ensures WellFormed(blocks[0]) && MayStand(blocks[0], off) && st.pending == HeldAt(blocks[0], off)
    ensures blocks[0].Data? && off <= Start(blocks[0]) ==> st.pending == []
  {
    hide WellFormed, MayStand;
  }

  lemma NextPosition(st: State, blocks: seq<Block>, to: nat)
    requires blocks != [] && to < |BlockText(blocks[0])| && MayStand(blocks[0], to)
    requires st.pending == HeldAt(blocks[0], to)
    ensures AtPosition(st, blocks, to)
  {
    hide MayStand, HeldAt, BlockText;
  }

  lemma CutsStay(blocks: seq<Block>, off: nat, frames: seq<seq<byte>>)
    requires blocks != [] && frames != [] && off + |frames[0]| < |BlockText(blocks[0])|
    requires CutsAllowed(blocks, off, frames) && !CutBehindBlanks(blocks[0], off, off + |frames[0]|)
    ensures CutAllowed(blocks[0], off, off + |frames[0]|) && CutsAllowed(blocks, off + |frames[0]|, frames[1..])
  {
    hide CutAllowed, CutBehindBlanks, BlockText, HeldAt;
  }

  lemma FirstFrameMatches(st: State, frames: seq<seq<byte>>, expected: State)
    requires frames != [] && Matches(PushAll(Push(st, frames[0]), frames[1..]), expected)
    ensures Matches(PushAll(st, frames), expected)
  {
    hide Push;
  }

  lemma {:induction false} StillInBlock(st: State, blocks: seq<Block>, off: nat, frames: seq<seq<byte>>,
                                        unsent: seq<byte>)
    requires AllWellFormed(blocks) && Inv(st) && AtPosition(st, blocks, off)
    requires blocks != [] && frames != [] && off + |frames[0]| < |BlockText(blocks[0])|
    requires Flatten(frames) + unsent == Left(blocks, off)
    requires CutsAllowed(blocks, off, frames) && !CutBehindBlanks(blocks[0], off, off + |frames[0]|)
    ensures Matches(PushAll(st, frames), Arrived(st.usage, blocks, off, |Flatten(frames)|))
    decreases |blocks|, |frames|, 0
  {
    hide *;
    var b, to, more := blocks[0], off + |frames[0]|, frames[1..];
    FirstPosition(st, blocks, off);
    CutsStay(blocks, off, frames);
    FrameInBlock(blocks, off, frames, unsent);
    PushPiece(st, b, off, to);
    CutMayStand(b, off, to);
    NextPosition(Push(st, frames[0]), blocks, to);
    PushKeepsInv(st, frames[0]);
    StreamRun(Push(st, frames[0]), blocks, to, more, unsent);
    ArrivedInSteps(st.usage, blocks, off, |frames[0]|, |Flatten(more)|);
    FirstFrameMatches(st, frames, Arrived(st.usage, blocks, off, |Flatten(frames)|));
  }

  /** Two blocks that differ in the length of their payloads only, at the same distance from their ends. */
  lemma ArrivedAlike(usage: Option<TokenUsage>, b: Block, short: Block, rest: seq<Block>, base: nat, gone: nat,
                     off: nat, n: nat)
    requires b.Data? && short.Data? && IsUsable(b) && IsUsable(short) && UsageIn(short) == UsageIn(b)
    requires |BlockText(b)| == |BlockText(short)| + gone && Stop(b) == Stop(short) + gone && Start(b) == Start(short)
    requires base <= Start(b) < off < Stop(short) && off <= |BlockText(short)|
    ensures Matches(Arrived(usage, [short] + rest, off, n), Arrived(usage, [b] + rest, base, off + gone - base + n))
  {
    hide IsUsable, UsageIn, Merge, BlockText;
    var end, to := |BlockText(short)|, off + n;
    assert ([short] + rest)[1..] == rest && ([b] + rest)[1..] == rest;
    assert UsageAt(usage, short, off, to) == UsageAt(usage, b, base, to + gone);
    assert UsageAt(usage, short, off, end) == UsageAt(usage, b, base, end + gone);
    if to < end {
      assert Arrived(usage, [short] + rest, off, n) == State(HeldAt(short, to), UsageAt(usage, short, off, to));
      if to < Stop(short) { assert |HeldAt(b, to + gone)| == to + gone - Start(b); }
    }
  }

  /** All about the shortened block that the rest of the run needs. */
  lemma ShortenedStep(st: State, b: Block, off: nat, to: nat)
    requires WellFormed(b) && Inv(st) && st.pending == [] && CutBehindBlanks(b, off, to)
    ensures
      var short, from := Shortened(b, to), Start(b) + Kept(b.text, to - Start(b));
      && WellFormed(short) && short.Data? && IsUsable(short) && UsageIn(short) == UsageIn(b)
      && |BlockText(b)| == |BlockText(short)| + (to - from) && Stop(b) == Stop(short) + (to - from)
      && Start(short) == Start(b) < from < Stop(short) && from < |BlockText(short)|
      && BlockText(short)[from..] == BlockText(b)[to..]
      && Push(st, BlockText(b)[off..to]) == State(HeldAt(short, from), st.usage)
      && AtPosition(State(HeldAt(short, from), st.usage), [short], from)
  {
    hide Classify, Push, WellFormed, CutAllowed, Trim, Kept, IsHarmless, OneLine, UsageIn, Shortened, BlockText;
    PushBehindBlanks(st, b, off, to);
    ShortenedIs(b, to);
    ShortenedRest(b, to);
  }

  lemma CutsAfterBlanks(blocks: seq<Block>, off: nat, frames: seq<seq<byte>>)
    requires blocks != [] && frames != [] && off + |frames[0]| < |BlockText(blocks[0])|
    requires CutsAllowed(blocks, off, frames) && CutBehindBlanks(blocks[0], off, off + |frames[0]|)
    ensures
      var b, to := blocks[0], off + |frames[0]|;
      && b.Data? && off <= Start(b) < to < Stop(b) == Start(b) + |b.text| && IsUsable(b)
      && Start(b) + Kept(b.text, to - Start(b)) <= |BlockText(Shortened(b, to))|
      && CutsAllowed([Shortened(b, to)] + blocks[1..], Start(b) + Kept(b.text, to - Start(b)), frames[1..])
  {
    var b, to := blocks[0], off + |frames[0]|;
    assert b.Data? && off <= Start(b) < to < Stop(b) && IsUsable(b);
    hide WellFormed, BlockText, IsUsable, IsHarmless, Kept, Shortened;
    ShortenedLength(b, to);
  }

  lemma ReplacedFirst(st: State, blocks: seq<Block>, short: Block, from: nat, to: nat)
    requires AllWellFormed(blocks) && blocks != [] && WellFormed(short)
    requires from < |BlockText(short)| && to <= |BlockText(blocks[0])|
    requires BlockText(short)[from..] == BlockText(blocks[0])[to..]
    requires AtPosition(st, [short], from)
    ensures
      var next := [short] + blocks[1..];
      && AllWellFormed(next) && AtPosition(st, next, from) && Left(next, from) == Left(blocks, to)
      && next[1..] == blocks[1..]
  {
    hide WellFormed, BlockText, MayStand, HeldAt, Stream;
    var next := [short] + blocks[1..];
    assert next[1..] == blocks[1..];
  }

  /** The first frame ends in harmless blanks: go on with the payload without them. */
  lemma {:induction false} BlanksTrimmed(st: State, blocks: seq<Block>, off: nat, frames: seq<seq<byte>>,
                                         unsent: seq<byte>)
    requires AllWellFormed(blocks) && Inv(st) && AtPosition(st, blocks, off)
    requires blocks != [] && frames != [] && off + |frames[0]| < |BlockText(blocks[0])|
    requires Flatten(frames) + unsent == Left(blocks, off)
    requires CutsAllowed(blocks, off, frames) && CutBehindBlanks(blocks[0], off, off + |frames[0]|)
    ensures Matches(PushAll(st, frames), Arrived(st.usage, blocks, off, |Flatten(frames)|))
    decreases |blocks|, |frames|, 0
  {
    hide *;
    var b, to := blocks[0], off + |frames[0]|;
    CutsAfterBlanks(blocks, off, frames);
    FirstPosition(st, blocks, off);
    var short, from := Shortened(b, to), Start(b) + Kept(b.text, to - Start(b));
    var next, more := [short] + blocks[1..], frames[1..];
    assert blocks == [b] + blocks[1..];
    FrameInBlock(blocks, off, frames, unsent);
    ShortenedStep(st, b, off, to);
    ReplacedFirst(State(HeldAt(short, from), st.usage), blocks, short, from, to);
    ArrivedAlike(st.usage, b, short, blocks[1..], off, to - from, from, |Flatten(more)|);
    PushKeepsInv(st, frames[0]);
    StreamRun(Push(st, frames[0]), next, from, more, unsent);
    MatchesTrans(st, frames, Arrived(st.usage, next, from, |Flatten(more)|),
                 Arrived(st.usage, blocks, off, |Flatten(frames)|));
  }

  lemma MatchesTrans(st: State, frames: seq<seq<byte>>, x: State, y: State)
    requires frames != [] && Matches(PushAll(Push(st, frames[0]), frames[1..]), x) && Matches(x, y)
    ensures Matches(PushAll(st, frames), y)
  {
    hide Push;
  }

  lemma CutsFinish(blocks: seq<Block>, off: nat, frames: seq<seq<byte>>)
    requires blocks != [] && frames != [] && off <= |BlockText(blocks[0])| <= off + |frames[0]|
    requires CutsAllowed(blocks, off, frames)
    ensures
      var b, frame := blocks[0], frames[0];
      var left := |BlockText(b)| - off;
      && CutAllowed(b, off, |BlockText(b)|)
      && (b.Data? && 0 < off <= Start(b) ==> |frame| == left)
      && (HeldAt(b, off) != [] && |frame| > left && |blocks| > 1 ==> blocks[1].Data?)
      && CutsAllowed(blocks[1..], 0, [frame[left..]] + frames[1..])
  {
    hide CutAllowed, CutBehindBlanks, BlockText, HeldAt;
  }

  lemma ArrivedFinish(usage: Option<TokenUsage>, blocks: seq<Block>, off: nat, m: nat, n: nat)
    requires blocks != [] && off + m == |BlockText(blocks[0])|
    ensures Arrived(usage, blocks, off, m + n)
            == Arrived(UsageAt(usage, blocks[0], off, |BlockText(blocks[0])|), blocks[1..], 0, n)
  {
    hide UsageAt, BlockText, HeldAt;
  }

  lemma SecondBlock(blocks: seq<Block>)
    requires blocks != [] && blocks[1..] != []
    ensures |blocks| > 1 && blocks[1..][0] == blocks[1]
  {
  }

  lemma AllButFirst(blocks: seq<Block>)
    requires AllWellFormed(blocks) && blocks != []
    ensures AllWellFormed(blocks[1..])
  {
    hide WellFormed;
  }

  /** The frame completes the first block: feed the rest of it, then what the frame holds of the next ones. */
  lemma {:induction false} BlockFinished(st: State, blocks: seq<Block>, off: nat, frames: seq<seq<byte>>,
                                         unsent: seq<byte>)
    requires AllWellFormed(blocks) && Inv(st) && AtPosition(st, blocks, off)
    requires blocks != [] && frames != [] && off < |BlockText(blocks[0])| <= off + |frames[0]|
    requires Flatten(frames) + unsent == Left(blocks, off)
    requires CutsAllowed(blocks, off, frames)
    ensures Matches(PushAll(st, frames), Arrived(st.usage, blocks, off, |Flatten(frames)|))
    decreases |blocks|, |frames|, 0
  {
    hide *;
    var b, rest, more := blocks[0], blocks[1..], frames[1..];
    var end := |BlockText(b)|;
    FirstPosition(st, blocks, off);
    AllButFirst(blocks);
    CutsFinish(blocks, off, frames);
    var x, y := SplitFrame(blocks, off, frames, unsent);
    PushPiece(st, b, off, end);
    NextStart(rest, y, more, unsent);
    if y != [] { SecondBlock(blocks); }
    RestThenMore(st, b, off, y);
    PushKeepsInv(st, x);
    NothingHeld(b);
    StartPosition(Push(st, x), rest);
    StreamRun(Push(st, x), rest, 0, [y] + more, unsent);
    PushAllCons(Push(st, x), y, more);
    ArrivedFinish(st.usage, blocks, off, |x|, |Flatten([y] + more)|);
    FirstFrameMatches(st, frames, Arrived(st.usage, blocks, off, |Flatten(frames)|));
  }

  lemma NothingHeld(b: Block)
    ensures HeldAt(b, |BlockText(b)|) == [] == HeldAt(b, 0)
  {
  }

  lemma StartPosition(st: State, blocks: seq<Block>)
    requires AllWellFormed(blocks) && st.pending == []
    ensures AtPosition(st, blocks, 0)
  {
    hide WellFormed;
    if blocks != [] { NotEmpty(blocks[0]); }
  }

  lemma NotEmpty(b: Block)
    requires WellFormed(b)
    ensures 0 < |BlockText(b)| && HeldAt(b, 0) == []
  {
  }

  lemma PushAllCons(st: State, y: seq<byte>, more: seq<seq<byte>>)
    ensures PushAll(st, [y] + more) == PushAll(Push(st, y), more)
  {
    hide Push;
    assert ([y] + more)[1..] == more;
  }

  /** The first frame, cut where its first block ends. */
  lemma SplitFrame(blocks: seq<Block>, off: nat, frames: seq<seq<byte>>, unsent: seq<byte>)
    returns (x: seq<byte>, y: seq<byte>)
    requires blocks != [] && frames != [] && off <= |BlockText(blocks[0])|
    requires |frames[0]| >= |BlockText(blocks[0])| - off
    requires Flatten(frames) + unsent == Left(blocks, off)
    ensures x == BlockText(blocks[0])[off..] == BlockText(blocks[0])[off..|BlockText(blocks[0])|]
    ensures frames[0] == x + y && y == frames[0][|BlockText(blocks[0])| - off..]
    ensures y + Flatten(frames[1..]) + unsent == Stream(blocks[1..])
    ensures Flatten([y] + frames[1..]) + unsent == Left(blocks[1..], 0)
    ensures |Flatten(frames)| == |x| + |Flatten([y] + frames[1..])|
  {
    hide BlockText, Stream;
    var text, frame, more := BlockText(blocks[0]), frames[0], frames[1..];
    x, y := text[off..], frame[|text| - off..];
    var later := Flatten(more) + unsent;
    Associates(frame, Flatten(more), unsent);
    FrontOf(x, Stream(blocks[1..]), frame, later);
    FlattenCons(y, more);
    Associates(y, Flatten(more), unsent);
    LeftFromStart(blocks[1..]);
  }

  lemma Associates(x: seq<byte>, y: seq<byte>, z: seq<byte>)
    ensures x + y + z == x + (y + z)
  {
  }

  lemma FlattenCons(first: seq<byte>, more: seq<seq<byte>>)
    ensures Flatten([first] + more) == first + Flatten(more)
  {
    assert ([first] + more)[1..] == more;
  }

  lemma LeftFromStart(blocks: seq<Block>)
    ensures Left(blocks, 0) == Stream(blocks)
  {
    hide BlockText;
    if blocks != [] { assert BlockText(blocks[0])[0..] == BlockText(blocks[0]); }
  }

  /** A nonempty start of a block, cut where that is allowed, shows what kind of block it is. */
  lemma NextStart(blocks: seq<Block>, y: seq<byte>, more: seq<seq<byte>>, unsent: seq<byte>)
    requires AllWellFormed(blocks) && CutsAllowed(blocks, 0, [y] + more)
    requires y + Flatten(more) + unsent == Stream(blocks)
    ensures StartsBlock(y)
    ensures y == [] || (blocks != [] && (blocks[0].Data? ==> StartsEvent(y)))
  {
    hide Classify, InNumberGap, IsHarmless, IsUseless, IsObject, StartsNoObject, OneLine, HasMarker;
    if y != [] {
      var b := blocks[0];
      assert y[0] == Stream(blocks)[0] == BlockText(b)[0];
      if b.Data? {
        assert |MARKER| <= |y|;
        assert y[0..|MARKER|] == (y + Flatten(more) + unsent)[0..|MARKER|] == BlockText(b)[0..|MARKER|] == MARKER;
      }
    }
  }

  // ---- the conditions can be met ----

  function Blocks(blocks: seq<Block>): seq<seq<byte>> {
    if blocks == [] then [] else [BlockText(blocks[0])] + Blocks(blocks[1..])
  }

  lemma WholeBlockAllowed(b: Block)
    ensures CutAllowed(b, 0, |BlockText(b)|) && HeldAt(b, 0) == []
  {
  }

  /** For every stream one block a frame is allowed, and so is a single frame. */
  lemma {:induction false} WholeEventsAllowed(blocks: seq<Block>)
    ensures Flatten(Blocks(blocks)) == Stream(blocks) && CutsAllowed(blocks, 0, Blocks(blocks))
    ensures CutsAllowed(blocks, 0, [Stream(blocks)])
    decreases |blocks|
  {
    hide BlockText, CutAllowed, HeldAt, CutBehindBlanks;
    if blocks != [] {
      var text, rest := BlockText(blocks[0]), blocks[1..];
      WholeEventsAllowed(rest);
      WholeBlockAllowed(blocks[0]);
      assert Blocks(blocks)[1..] == Blocks(rest);
      EmptyFrameAllowed(rest, Blocks(rest));
      assert text[|text|..] == [] && Stream(blocks)[|text|..] == Stream(rest);
      assert [Stream(blocks)][1..] == [] && [Stream(rest)] + [] == [Stream(rest)];
    }
  }

  lemma NoBlanksCut(b: Block)
    ensures !CutBehindBlanks(b, 0, 0) && CutAllowed(b, 0, 0)
  {
  }

  lemma EmptyFrameAllowed(blocks: seq<Block>, frames: seq<seq<byte>>)
    requires CutsAllowed(blocks, 0, frames)
    ensures CutsAllowed(blocks, 0, [[]] + frames)
  {
    hide BlockText, CutAllowed, HeldAt, CutBehindBlanks;
    assert ([[]] + frames)[1..] == frames;
    if blocks != [] {
      NoBlanksCut(blocks[0]);
      WholeBlockAllowed(blocks[0]);
      if |BlockText(blocks[0])| == 0 { EmptyFrameAllowed(blocks[1..], frames); }
    }
  }

  // ---- chunk independence ----

  /** How many blocks have arrived up to the end of their payload within the first `n` bytes of the stream. */
  function Delivered(blocks: seq<Block>, n: nat): (k: nat)
    ensures k <= |blocks|
    decreases |blocks|
  {
    if blocks == [] || n < Stop(blocks[0]) then 0
    else
      1 + Delivered(blocks[1..], if n > |BlockText(blocks[0])| then n - |BlockText(blocks[0])| else 0)
  }

  lemma StopInside(b: Block)
    requires WellFormed(b)
    ensures 0 < Stop(b) <= |BlockText(b)|
  {
  }

  lemma NoneDelivered(blocks: seq<Block>)
    requires AllWellFormed(blocks)
    ensures Delivered(blocks, 0) == 0
  {
    hide WellFormed;
    if blocks != [] { StopInside(blocks[0]); }
  }

  lemma {:induction false} ArrivedUsage(usage: Option<TokenUsage>, blocks: seq<Block>, n: nat)
    requires AllWellFormed(blocks)
    ensures Arrived(usage, blocks, 0, n).usage == MergeAll(usage, UsagesIn(blocks[..Delivered(blocks, n)]))
    decreases |blocks|
  {
    hide UsageIn, Merge, WellFormed, BlockText, HeldAt, Stop;
    var k := Delivered(blocks, n);
    if blocks != [] { StopInside(blocks[0]); }
    if k == 0 {
      assert blocks[..0] == [];
    } else {
      var b := blocks[0];
      var left := if n > |BlockText(b)| then n - |BlockText(b)| else 0;
      assert blocks[..k][0] == b && blocks[..k][1..] == blocks[1..][..k - 1];
      assert UsagesIn(blocks[..k])[1..] == UsagesIn(blocks[1..][..k - 1]);
      ArrivedUsage(Merge(usage, UsageIn(b)), blocks[1..], left);
      if n < |BlockText(b)| {
        NoneDelivered(blocks[1..]);
        assert blocks[1..][..0] == [];
      }
    }
  }

  lemma {:induction false} ArrivedWhole(usage: Option<TokenUsage>, blocks: seq<Block>)
    requires AllWellFormed(blocks)
    ensures Arrived(usage, blocks, 0, |Stream(blocks)|).pending == []
    ensures Delivered(blocks, |Stream(blocks)|) == |blocks|
    decreases |blocks|
  {
    hide UsageIn, Merge, WellFormed, BlockText, Stop;
    if blocks != [] {
      StopInside(blocks[0]);
      ArrivedWhole(UsageAt(usage, blocks[0], 0, |BlockText(blocks[0])|), blocks[1..]);
    }
  }

  /**
   Chunk independence for server-sent events: however a stream is cut into frames, as long as every cut is allowed,
   the scanner ends empty and holds the merged usages of all usable payloads, in order. Comments, `event:` lines,
   `[DONE]` and other payloads the probe cannot use add nothing and disturb nothing.
   */
  lemma SseChunkIndependence(blocks: seq<Block>, frames: seq<seq<byte>>)
    requires AllWellFormed(blocks)
    requires Flatten(frames) == Stream(blocks)
    requires CutsAllowed(blocks, 0, frames)
    ensures PushAll(EMPTY, frames) == State([], MergeAll(None, UsagesIn(blocks)))
  {
    hide Classify, PushAll, CutsAllowed, Merge, MergeAll, UsageIn, WellFormed, Stream, Arrived, HeldAt, MayStand;
    SsePrefix(blocks, frames, []);
    ArrivedWhole(None, blocks);
    assert Flatten(frames) + [] == Flatten(frames);
    assert blocks[..|blocks|] == blocks;
  }

  /**
   If the stream breaks off, the usage is that of the payloads that arrived in full; and nothing is held unless the
   stream broke off inside a usable payload.
   */
  lemma SsePrefix(blocks: seq<Block>, frames: seq<seq<byte>>, unsent: seq<byte>)
    requires AllWellFormed(blocks)
    requires Flatten(frames) + unsent == Stream(blocks)
    requires CutsAllowed(blocks, 0, frames)
    ensures PushAll(EMPTY, frames).usage
            == MergeAll(None, UsagesIn(blocks[..Delivered(blocks, |Flatten(frames)|)]))
    ensures Arrived(None, blocks, 0, |Flatten(frames)|).pending == [] ==> PushAll(EMPTY, frames).pending == []
  {
    hide Classify, PushAll, CutsAllowed, Merge, MergeAll, UsageIn, WellFormed, Stream, Arrived, HeldAt, MayStand;
    EmptyIsOpen();
    LeftFromStart(blocks);
    StartPosition(EMPTY, blocks);
    StreamRun(EMPTY, blocks, 0, frames, unsent);
    ArrivedUsage(None, blocks, |Flatten(frames)|);
  }

  // ---- the end of a stream ----

  const DONE_TEXT: seq<byte> := [91, 68, 79, 78, 69, 93]  // [DONE]

  /** The event that ends a stream adds nothing and may be cut anywhere in its payload. */
  lemma DoneIsInert()
    ensures WellFormed(Event(DONE_TEXT)) && UsageIn(Event(DONE_TEXT)) == None
    ensures
      var b := Event(DONE_TEXT);
      forall from, to | 0 <= from <= to <= |BlockText(b)| && IsCut(b, from) && IsCut(b, to) :: CutAllowed(b, from, to)
  {
    hide *;
    DoneIsWellFormed();
    var b := Event(DONE_TEXT);
    forall from, to | 0 <= from <= to <= |BlockText(b)| && IsCut(b, from) && IsCut(b, to)
      ensures CutAllowed(b, from, to)
    {
      InertIsCutAnywhere(b, from, to);
    }
  }

  lemma DoneIsWellFormed()
    ensures WellFormed(Event(DONE_TEXT)) && UsageIn(Event(DONE_TEXT)) == None
    ensures Event(DONE_TEXT).Data? && Event(DONE_TEXT).text == DONE_TEXT
    ensures !IsUsable(Event(DONE_TEXT)) && IsInert(DONE_TEXT)
  {
    hide Find, Trim;
    var text := DONE_TEXT;
    TrimCore(text);
    NoObjectIsRejected(text);
    assert !IsObject(text);
    forall k: nat ensures !OccursAt(text, LINE_END, k) && !OccursAt([SPACE], LINE_END, k) {
      if OccursAt(text, LINE_END, k) { NewlineAt(text, k); }
      if OccursAt([SPACE], LINE_END, k) { NewlineAt([SPACE], k); }
    }
    FindNothing(text, LINE_END);
    FindNothing([SPACE], LINE_END);
  }
}
