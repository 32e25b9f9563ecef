/** One cut anywhere, and exactly what the scanner then makes of the stream or body that was cut. */
module SingleCuts {
  import opened Bytes
  import opened Recognizer
  import opened TokenUsages
  import opened UsageProbe
  import opened JsonGrammar
  import opened ProbeMeaning
  import opened BlankRuns
  import opened ValueRuns
  import opened CandidateSplit
  import opened UsageScanning
  import opened Feeding
  import opened Events
  import opened Chunking
  import opened PlainBodies

  // ---- a document and what follows it ----

  /** The verdict on a text with one object in it, whatever follows. */
  lemma ObjectVerdict(s: seq<byte>, j: nat, members: seq<Entry>, k: nat)
    requires Space(s, 0) == j < |s| && s[j] == OPEN_BRACE && ObjectAt(s, j + 1) == Ok(members, k)
    ensures Classify(s)
            == if Usable(Response, members) && Space(s, k) == |s| then Done(ResponseUsage(members)) else Rejected
  {
    hide Members, ObjectAt, Usable, ResponseUsage, Space;
    ReadNothing(Response);
    UsableNone(Response);
    MembersRead(s, j + 1, true, Response, []);
    assert [] + members == members;
  }

  /** Behind a document nothing but blanks may follow: blanks do not change its verdict, anything else is rejected. */
  lemma DocumentFollowed(t: seq<byte>, more: seq<byte>)
    requires DocumentOf(t).Some?
    ensures Classify(t + more) == if JsonBlank(more) then Classify(t) else Rejected
  {
    hide *;
    var s, j := t + more, Space(t, 0);
    DocumentIs(t);
    var found := ObjectAt(t, j + 1);
    FrontExtends(t, more);
    SpaceStable(t, s, 0);
    ObjectStable(t, s, j + 1);
    ObjectVerdict(t, j, found.value, found.next);
    ObjectVerdict(s, j, found.value, found.next);
    BlanksToEnd(t, more, found.next);
  }

  lemma FrontExtends(t: seq<byte>, more: seq<byte>)
    ensures Extends(t, t + more) && forall j | 0 <= j < |t| :: (t + more)[j] == t[j]
  {
  }

  lemma BlanksToEnd(t: seq<byte>, more: seq<byte>, k: nat)
    requires k <= |t| && Space(t, k) == |t|
    ensures Space(t + more, k) == |t + more| <==> JsonBlank(more)
  {
    if JsonBlank(more) {
      SpaceToEnd(t, more, k);
    } else {
      var bad :| 0 <= bad < |more| && !IsJsonSpace(more[bad]);
      assert !IsJsonSpace((t + more)[|t| + bad]);
    }
  }

  lemma ObjectIsDocument(text: seq<byte>)
    requires IsObject(text)
    ensures DocumentOf(text).Some?
  {
    hide DocumentOf, Classify;
    VerdictIsMeaning(text);
  }

  // ---- one cut payload ----

  /**
   The usage that is left of a payload cut behind its first `k` bytes: none behind the sign, point or exponent letter
   of a skipped number; else that of the payload without the blanks in front of the cut, which is the payload itself
   if there are none, and reads the same if they are harmless.
   */
  function PayloadCutUsage(text: seq<byte>, k: nat): Option<TokenUsage>
    requires k <= |text|
  {
    if InNumberGap(text[..k]) then None else UsageOf(ClosedUp(text, Kept(text, k), k))
  }

  lemma NoGapBehindBlank(text: seq<byte>, k: nat)
    requires 0 < k <= |text| && InNumberGap(text[..k])
    ensures !IsAsciiSpace(text[k - 1])
  {
    hide Parse;
    assert Parse(text[..k]) == Cut(true) ==> EndsInGap(text[..k]);
  }

  /** The first fragment of a payload, offered. */
  lemma OfferFragment(st: State, text: seq<byte>, k: nat)
    requires IsObject(text) && |text| <= MAX_PENDING && 0 < k < |text| && st.pending == []
    ensures
      Offer(st, Trim(text[..k])) == if InNumberGap(text[..k]) then st else State(text[..Kept(text, k)], st.usage)
  {
    hide Classify, Parse, Trim, Kept, UsageOf, Merge;
    var a := Kept(text, k);
    KeptIs(text, k);
    if InNumberGap(text[..k]) {
      NoGapBehindBlank(text, k);
      GapIsDropped(st, text[..k]);
    } else {
      assert a == k ==> text[..a] == text[..k];
      OfferPrefix(st, text, a);
    }
  }

  lemma GapIsDropped(st: State, p: seq<byte>)
    requires InNumberGap(p) && st.pending == []
    ensures Offer(st, p) == st
  {
    hide Parse;
    assert [] + p == p;
  }

  lemma ClosedUpAllOfIt(text: seq<byte>, a: nat, k: nat, more: seq<byte>)
    requires a <= k <= |text|
    ensures text[..a] + (text[k..] + more) == ClosedUp(text, a, k) + more
  {
  }

  /** What follows a cut, offered to what is held of the payload: its usage if only blanks follow, and nothing else. */
  lemma OfferRest(st: State, text: seq<byte>, k: nat, more: seq<byte>)
    requires IsObject(text) && 0 < k < |text| && (JsonBlank(more) ==> |text| + |more| <= MAX_PENDING)
    requires !InNumberGap(text[..k]) && st.pending == text[..Kept(text, k)]
    ensures Offer(st, text[k..] + more)
            == State([], if JsonBlank(more) then Merge(st.usage, PayloadCutUsage(text, k)) else st.usage)
  {
    hide Classify, Parse, Trim, Kept, Merge, ClosedUp, UsageOf, IsObject, BlankRun, JsonBlank, DocumentOf;
    var a := Kept(text, k);
    KeptIs(text, k);
    var t := ClosedUp(text, a, k);
    ObjectIsDocument(text);
    ClosedUpDocument(text, a, k);
    DocumentFollowed(t, more);
    ClosedUpAllOfIt(text, a, k, more);
    ClosedUpLength(text, a, k);
    SameUsage(t);
    ConsumeClosed(st.(pending := t + more), UsageOf(t), JsonBlank(more), Classify(t));
  }

  lemma ClosedUpLength(text: seq<byte>, a: nat, k: nat)
    requires a <= k <= |text|
    ensures |ClosedUp(text, a, k)| <= |text|
  {
  }

  lemma SameUsage(t: seq<byte>)
    requires Classify(t) != Eof
    ensures UsageOf(t) == match Classify(t) case Done(usage) => usage case _ => None
  {
    hide Classify;
  }

  lemma ConsumeClosed(st: State, usage: Option<TokenUsage>, blank: bool, verdict: Verdict)
    requires verdict != Eof && usage == match verdict case Done(u) => u case _ => None
    requires Classify(st.pending) == if blank then verdict else Rejected
    requires blank ==> |st.pending| <= MAX_PENDING
    ensures Consume(st) == State([], if blank then Merge(st.usage, usage) else st.usage)
  {
    hide Classify;
    MergeIsAMonoid(st.usage, None, None);
  }

  // ---- the blocks behind the cut ----

  /** The lines in front of the next event. */
  function LeadingLines(rest: seq<Block>): seq<byte> {
    if rest == [] || rest[0].Data? then [] else rest[0].lines + LeadingLines(rest[1..])
  }

  /** The blocks from the next event on. */
  function NextEvents(rest: seq<Block>): seq<Block> {
    if rest == [] || rest[0].Data? then rest else NextEvents(rest[1..])
  }

  lemma {:induction false} LinesThenEvents(rest: seq<Block>)
    requires AllWellFormed(rest)
    ensures Stream(rest) == LeadingLines(rest) + Stream(NextEvents(rest)) && FollowedByEvent(NextEvents(rest))
    ensures LeadingLines(rest) == [] <==> rest == [] || rest[0].Data?
    decreases |rest|
  {
    hide IsUsable, IsUseless, OneLine, HasMarker, StartsNoObject;
    if rest != [] && rest[0].Ignored? {
      LinesThenEvents(rest[1..]);
      assert Stream(rest) == rest[0].lines + Stream(rest[1..]);
    }
  }

  lemma JoinedLines(lines: seq<byte>, later: seq<byte>)
    requires lines != [] && StartsNoObject(lines[0]) && lines[|lines| - 1] == NEWLINE
    requires !HasMarker(lines) && !HasMarker(later) && (later != [] ==> later[|later| - 1] == NEWLINE)
    ensures !HasMarker(lines + later) && IsJunk(lines + later)
    ensures (lines + later)[0] == lines[0] && (lines + later)[|lines + later| - 1] == NEWLINE
  {
    hide Find, StartsNoObject, Trim;
    FindMarkerJoin(lines, later);
    FirstIsJunk(lines + later);
    assert later != [] ==> (lines + later)[|lines + later| - 1] == later[|later| - 1];
  }

  lemma LinesAre(b: Block)
    requires WellFormed(b) && b.Ignored?
    ensures b.lines != [] && StartsNoObject(b.lines[0]) && b.lines[|b.lines| - 1] == NEWLINE && !HasMarker(b.lines)
  {
  }

  lemma {:induction false} LeadingLinesAre(rest: seq<Block>)
    requires AllWellFormed(rest)
    ensures
      var lines := LeadingLines(rest);
      && !HasMarker(lines) && IsJunk(lines)
      && (lines != [] ==> StartsNoObject(lines[0]) && lines[|lines| - 1] == NEWLINE)
    decreases |rest|
  {
    hide WellFormed, IsJunk, HasMarker, StartsNoObject;
    if rest == [] || rest[0].Data? {
      BlanksUnmarked([]);
      NothingIsJunk();
    } else {
      LeadingLinesAre(rest[1..]);
      LinesAre(rest[0]);
      JoinedLines(rest[0].lines, LeadingLines(rest[1..]));
    }
  }

  lemma NothingIsJunk()
    ensures IsJunk([])
  {
    TrimBlank([]);
  }

  lemma {:induction false} LinesAddNoUsage(usage: Option<TokenUsage>, rest: seq<Block>)
    ensures MergeAll(usage, UsagesIn(rest)) == MergeAll(usage, UsagesIn(NextEvents(rest)))
    decreases |rest|
  {
    hide UsageIn;
    if rest != [] && rest[0].Ignored? {
      LinesAddNoUsage(usage, rest[1..]);
      NothingAdded(usage);
      LinesAddNothing(rest[0]);
      assert UsagesIn(rest)[1..] == UsagesIn(rest[1..]);
    }
  }

  lemma LinesAddNothing(b: Block)
    requires b.Ignored?
    ensures UsageIn(b) == None
  {
  }

  ghost predicate FollowedByEvent(rest: seq<Block>) {
    AllWellFormed(rest) && (rest != [] ==> rest[0].Data?)
  }

  lemma StreamStarts(rest: seq<Block>)
    requires FollowedByEvent(rest)
    ensures AllWellFormed(rest) && (rest == [] ==> Stream(rest) == [])
    ensures rest != [] ==> StartsEvent(Stream(rest)) && HasMarker(Stream(rest))
    ensures StartsBlock(Stream(rest))
  {
    hide WellFormed;
    if rest != [] { assert Stream(rest)[0..|MARKER|] == MARKER; }
  }

  /** Blocks in one frame, followed by more. */
  lemma {:induction false} FrontThenMore(st: State, blocks: seq<Block>, x: seq<byte>)
    requires AllWellFormed(blocks) && Inv(st) && st.pending == [] && StartsBlock(x)
    ensures Push(st, Stream(blocks) + x) == Push(State([], MergeAll(st.usage, UsagesIn(blocks))), x)
    decreases |blocks|
  {
    hide Classify, Push, WellFormed, BlockText, UsageIn, Merge, CutAllowed, IsUsable, IsCut, HeldAt, StartsBlock;
    if blocks == [] {
      assert [] + x == x;
    } else {
      var b, rest := blocks[0], blocks[1..];
      WholeBlockPushed(st, b);
      BlocksStart(rest, x);
      WholeBlockThenMore(st, b, Stream(rest) + x);
      assert BlockText(b) + (Stream(rest) + x) == Stream(blocks) + x;
      var next := Push(st, BlockText(b));
      PushKeepsInv(st, BlockText(b));
      FrontThenMore(next, rest, x);
      assert UsagesIn(blocks)[1..] == UsagesIn(rest);
    }
  }

  lemma WholeBlockPushed(st: State, b: Block)
    requires WellFormed(b) && Inv(st) && st.pending == []
    ensures Push(st, BlockText(b)) == State([], Merge(st.usage, UsageIn(b)))
  {
    hide Classify, Push, WellFormed, BlockText, UsageIn, Merge, CutAllowed;
    WholeSlice(b);
    WholeBlockAllowed(b);
    NothingHeld(b);
    StopInside(b);
    PushPiece(st, b, 0, |BlockText(b)|);
  }

  lemma WholeBlockThenMore(st: State, b: Block, f: seq<byte>)
    requires WellFormed(b) && Inv(st) && st.pending == [] && StartsBlock(f)
    ensures Push(Push(st, BlockText(b)), f) == Push(st, BlockText(b) + f)
  {
    hide Classify, Push, WellFormed, BlockText, CutAllowed, StartsBlock;
    WholeBlockAllowed(b);
    NotEmpty(b);
    assert BlockText(b)[0..] == BlockText(b);
    RestThenMore(st, b, 0, f);
  }

  lemma BlocksStart(blocks: seq<Block>, x: seq<byte>)
    requires AllWellFormed(blocks) && StartsBlock(x)
    ensures StartsBlock(Stream(blocks) + x)
  {
    hide IsUsable, IsUseless, OneLine, HasMarker, StartsNoObject;
    var s := Stream(blocks) + x;
    if blocks == [] {
      assert s == x;
    } else if blocks[0].Data? {
      assert s[0..|MARKER|] == MARKER;
    }
  }

  /** The rest of the stream in one frame. */
  lemma RestOfStream(st: State, rest: seq<Block>)
    requires AllWellFormed(rest) && Inv(st) && st.pending == []
    ensures Push(st, Stream(rest)) == State([], MergeAll(st.usage, UsagesIn(rest)))
  {
    hide Classify, Push, WellFormed, UsageIn, Stream, MergeAll;
    assert Stream(rest) + [] == Stream(rest);
    EmptyIsOpen();
    FrontThenMore(st, rest, []);
    IdlePush(State([], MergeAll(st.usage, UsagesIn(rest))));
  }

  // ---- one cut in any block ----

  /** The part of the payload in the first frame. */
  function Fragment(b: Block, off: nat): seq<byte> {
    if b.Ignored? || off <= Start(b) then [] else if off < Stop(b) then b.text[..off - Start(b)] else b.text
  }

  /** Whatever the block, its bytes in front of the cut offer their part of the payload, trimmed. */
  lemma FirstFrame(st: State, b: Block, off: nat)
    requires WellFormed(b) && Inv(st) && st.pending == [] && off <= |BlockText(b)|
    ensures Push(st, BlockText(b)[..off]) == Offer(st, Trim(Fragment(b, off)))
  {
    hide Classify, Push, Trim, Offer, OneLine, IsUseless, IsUsable, BlockText, StartsNoObject, HasMarker;
    var x := BlockText(b)[..off];
    assert x == BlockText(b)[0..off];
    TrimEmpty();
    EmptyOfferIsIdle(st);
    if off == 0 {
      IdlePush(st);
    } else if b.Ignored? {
      LinesAreJunk(b);
      LaterPieceIsIdle(st, b, 0, off);
    } else if off < |MARKER| {
      MarkerRest(b, off);
      FrontUnmarked(x);
      MarkerIsJunk(x);
      JunkIsIdle(st, x);
    } else if off <= Start(b) {
      MarkerPiece(st, b, 0, off);
    } else {
      FirstPiece(st, b, 0, off);
      assert b.text[..|b.text|] == b.text;
    }
  }

  lemma MarkerIsJunk(x: seq<byte>)
    requires x != [] && x[0] == MARKER[0]
    ensures IsJunk(x)
  {
    FirstIsJunk(x);
  }

  lemma MarkerRest(b: Block, d: nat)
    requires b.Data? && d <= |MARKER|
    ensures BlockText(b)[d..] == MARKER[d..] + (b.lead + b.text + b.end)
    ensures BlockText(b)[..d] == MARKER[..d]
  {
    assert BlockText(b) == MARKER + (b.lead + b.text + b.end);
  }

  lemma FrontUnmarked(x: seq<byte>)
    requires |x| < |MARKER|
    ensures !HasMarker(x)
  {
  }

  /**
   What is left of a cut block and the lines behind it. The verdict on the first fragment decides: a fragment that is
   cut off is held, and the rest of the block and the lines are glued to it; if it was complete or rejected, the rest is
   skipped in front of the next event, and read as a plain body if there is none.
   */
  function AfterCut(st: State, b: Block, off: nat, rest: seq<Block>): State
    requires off <= |BlockText(b)|
  {
    var held := Offer(st, Trim(Fragment(b, off)));
    var more := BlockText(b)[off..] + LeadingLines(rest);
    if held.pending != [] then Offer(held, more)
    else if NextEvents(rest) != [] then held
    else Offer(held, Trim(more))
  }

  lemma BlockEndsBlank(b: Block, off: nat)
    requires WellFormed(b) && off < |BlockText(b)|
    ensures BlockText(b)[off..] != [] && IsAsciiSpace(BlockText(b)[off..][|BlockText(b)[off..]| - 1])
  {
    hide IsUsable, IsUseless, OneLine, Find, StartsNoObject;
    var g := BlockText(b)[off..];
    assert g[|g| - 1] == BlockText(b)[|BlockText(b)| - 1];
  }

  /** An unmarked end of a frame with an open object: it continues the object, and the next event starts. */
  lemma OpenThenEvents(held: State, more: seq<byte>, rest: seq<Block>)
    requires Inv(held) && held.pending != [] && !HasMarker(more) && FollowedByEvent(rest)
    requires more != [] ==> IsAsciiSpace(more[|more| - 1])
    ensures Push(held, more + Stream(rest)) == Push(Offer(held, more), Stream(rest))
  {
    hide Classify, Find, Push, OfferAll, SplitClosed, Stream, Offer, FollowedByEvent, StartsEvent;
    StreamStarts(rest);
    if more == [] {
      assert more + Stream(rest) == Stream(rest);
      EmptyOfferIsIdle(held);
    } else {
      Batching(held, more, Stream(rest));
      PushOpen(held, more);
      assert more[..|more|] == more && more[|more|..] == [];
      NothingLeft(Offer(held, more));
    }
  }

  /** The same with nothing open: it is skipped in front of an event, and a plain body if there is none. */
  lemma ClosedThenEvents(held: State, more: seq<byte>, rest: seq<Block>)
    requires Inv(held) && held.pending == [] && !HasMarker(more) && FollowedByEvent(rest)
    requires more != [] ==> IsAsciiSpace(more[|more| - 1])
    ensures Push(held, more + Stream(rest))
            == Push(if rest != [] then held else Offer(held, Trim(more)), Stream(rest))
  {
    hide Classify, Find, Push, OfferAll, SplitClosed, Stream, Offer, FollowedByEvent, Trim, StartsEvent;
    StreamStarts(rest);
    if rest != [] {
      FindMarkerJoin(more, Stream(rest));
      SplitSkips(more, Stream(rest));
      PushClosed(held, Stream(rest));
      PushClosed(held, more + Stream(rest));
    } else {
      assert more + [] == more;
      IdlePush(Offer(held, Trim(more)));
      if more == [] {
        TrimEmpty();
        EmptyOfferIsIdle(held);
        IdlePush(held);
      } else {
        PushUnmarked(held, more);
      }
    }
  }

  lemma PushUnmarked(st: State, frame: seq<byte>)
    requires st.pending == [] && frame != [] && !HasMarker(frame)
    ensures Push(st, frame) == Offer(st, Trim(frame))
  {
    hide Classify, Find, Trim, Offer;
    SplitUnmarked(frame);
    OfferOne(st, Trim(frame));
  }

  /**
   One cut in any block, ignored lines and useless payloads included, with no marker behind the cut: the first frame and
   the rest of the block come to `AfterCut`, and the next event goes on from there.
   */
  lemma CutAnywhere(st: State, b: Block, off: nat, rest: seq<Block>)
    requires WellFormed(b) && AllWellFormed(rest) && Inv(st) && st.pending == []
    requires off <= |BlockText(b)| && !HasMarker(BlockText(b)[off..])
    ensures Push(Push(st, BlockText(b)[..off]), BlockText(b)[off..] + Stream(rest))
            == Push(AfterCut(st, b, off, rest), Stream(NextEvents(rest)))
    ensures Inv(AfterCut(st, b, off, rest))
    ensures AfterCut(st, b, off, rest).pending == [] ==>
              Push(AfterCut(st, b, off, rest), Stream(NextEvents(rest)))
              == State([], MergeAll(AfterCut(st, b, off, rest).usage, UsagesIn(rest)))
  {
    hide *;
    var held := Offer(st, Trim(Fragment(b, off)));
    var behind, lines, events := BlockText(b)[off..], LeadingLines(rest), NextEvents(rest);
    var more, after := behind + lines, AfterCut(st, b, off, rest);
    FirstFrame(st, b, off);
    OfferKeepsInv(st, Trim(Fragment(b, off)));
    LinesThenEvents(rest);
    LeadingLinesAre(rest);
    MoreIsUnmarked(b, off, lines);
    assert behind + Stream(rest) == more + Stream(events);
    AfterCutIs(st, b, off, rest);
    if held.pending != [] {
      OpenThenEvents(held, more, events);
      OfferKeepsInv(held, more);
    } else {
      ClosedThenEvents(held, more, events);
      OfferKeepsInv(held, Trim(more));
    }
    if after.pending == [] {
      EventsAreWellFormed(events);
      RestOfStream(after, events);
      LinesAddNoUsage(after.usage, rest);
    }
  }

  lemma AfterCutIs(st: State, b: Block, off: nat, rest: seq<Block>)
    requires off <= |BlockText(b)|
    ensures
      var held := Offer(st, Trim(Fragment(b, off)));
      var more := BlockText(b)[off..] + LeadingLines(rest);
      AfterCut(st, b, off, rest)
      == if held.pending != [] then Offer(held, more)
         else if NextEvents(rest) != [] then held else Offer(held, Trim(more))
  {
    hide Offer, Trim, Fragment, BlockText, LeadingLines, NextEvents;
  }

  lemma EventsAreWellFormed(rest: seq<Block>)
    requires FollowedByEvent(rest)
    ensures AllWellFormed(rest)
  {
    hide WellFormed;
  }

  lemma MoreIsUnmarked(b: Block, off: nat, lines: seq<byte>)
    requires WellFormed(b) && off <= |BlockText(b)| && !HasMarker(BlockText(b)[off..]) && !HasMarker(lines)
    requires lines != [] ==> lines[|lines| - 1] == NEWLINE
    ensures
      var more := BlockText(b)[off..] + lines;
      !HasMarker(more) && (more != [] ==> IsAsciiSpace(more[|more| - 1]))
  {
    hide Find, WellFormed, BlockText;
    if off < |BlockText(b)| { BlockEndsBlank(b, off); }
    FindMarkerJoin(BlockText(b)[off..], lines);
    var more := BlockText(b)[off..] + lines;
    if lines != [] {
      assert more[|more| - 1] == lines[|lines| - 1];
    } else {
      assert more == BlockText(b)[off..];
    }
  }

  // ---- what is trimmed off an end ----

  /** A text that starts with a byte that is no blank keeps everything up to any other such byte. */
  lemma TrimKeepsUpTo(g: seq<byte>, k: nat) returns (n: nat)
    requires k < |g| && !IsAsciiSpace(g[0]) && !IsAsciiSpace(g[k])
    ensures k < n <= |g| && Trim(g) == g[..n]
  {
    TrimEndIs(g);
    n := |TrimEnd(g)|;
    hide TrimStart, TrimEnd, Trim;
    BlankFrom(g, n);
  }

  lemma BlankFrom(g: seq<byte>, n: nat)
    requires n <= |g| && Blank(g[n..])
    ensures forall k | n <= k < |g| :: IsAsciiSpace(g[k])
  {
    forall k | n <= k < |g| ensures IsAsciiSpace(g[k]) {
      assert g[k] == g[n..][k - n];
    }
  }

  /** Text that starts like the rest of a broken marker is given up on at once. */
  lemma BrokenMarkerIsRejected(s: seq<byte>)
    requires s != []
    requires s[0] in {97, 58} || (|s| > 1 && s[0] == LOWER_T && s[1] == 97)
    ensures Classify(s) == Rejected
  {
    assert Space(s, 0) == 0;
    assert TRUE_TAIL[0] == LOWER_R;
    assert s[0] == LOWER_T ==> Word(s, 1, TRUE_TAIL).Bad?;
    assert Scalar(s, 0).Bad?;
  }

  lemma BrokenMarkerTrimmed(off: nat, more: seq<byte>)
    requires 0 < off < |MARKER|
    ensures Classify(Trim(MARKER[off..] + more)) == Rejected
  {
    hide Classify, Trim;
    var g := MARKER[off..] + more;
    assert g[0] == MARKER[off] && (off == 2 ==> g[1] == MARKER[3]);
    var n := TrimKeepsUpTo(g, if off == 2 then 1 else 0);
    BrokenMarkerIsRejected(g[..n]);
  }

  /** The rest of a number, and of the object it is in, is rejected whatever follows. */
  lemma NumberRestIsRejected(core: seq<byte>, more: seq<byte>)
    requires core != [] && FollowsGap(core[0]) && core[|core| - 1] == CLOSE_BRACE
    ensures Classify(core + more) == Rejected
  {
    hide Num;
    var s := core + more;
    assert Space(core, 0) == 0 && Space(s, 0) == 0;
    assert Scalar(core, 0) == Cut(true) ==> EndsInGap(core);
    NumEndsInside(core);
    assert Extends(core, s);
    ScalarStable(core, s, 0);
  }

  lemma NumEndsInside(core: seq<byte>)
    requires core != [] && FollowsGap(core[0]) && core[|core| - 1] == CLOSE_BRACE
    ensures !Scalar(core, 0).Cut? && (Scalar(core, 0).Ok? ==> Scalar(core, 0).next < |core|)
  {
    hide Num;
    assert Scalar(core, 0) == Cut(true) ==> EndsInGap(core);
    if Scalar(core, 0).Ok? {
      NumBytes(core, 0);
      assert !IsNumberByte(core[|core| - 1]);
    }
  }

  // ---- one cut in an event with a usable payload ----

  /**
   The usage that is left of an event with a usable payload, cut after `off` bytes. A cut inside the marker loses it; a
   cut between the marker and the payload loses it when anything follows in the same frame; a cut in the payload loses
   it when lines follow that are glued to it.
   */
  function CutUsage(b: Block, off: nat, rest: seq<Block>): Option<TokenUsage>
    requires b.Data?
  {
    if off == 0 || Stop(b) <= off then UsageOf(b.text)
    else if off < |MARKER| then None
    else if off <= Start(b) then if rest == [] then UsageOf(b.text) else None
    else if rest != [] && rest[0].Ignored? then None
    else PayloadCutUsage(b.text, off - Start(b))
  }

  /** What is left of such an event, and of the lines behind it, in closed form. */
  ghost predicate CutLeaves(st: State, b: Block, off: nat, rest: seq<Block>)
    requires b.Data? && off <= |BlockText(b)|
  {
    AfterCut(st, b, off, rest) == State([], Merge(st.usage, CutUsage(b, off, rest)))
  }

  lemma OfferNothing(st: State)
    requires Inv(st)
    ensures Offer(st, Trim([])) == st
  {
    hide Classify, Trim;
    TrimEmpty();
    EmptyOfferIsIdle(st);
  }

  lemma OfferRejected(st: State, text: seq<byte>)
    requires st.pending == [] && Classify(text) == Rejected
    ensures Offer(st, text) == st
  {
    hide Classify;
    assert [] + text == text;
  }

  lemma FragmentIs(b: Block, off: nat)
    requires b.Data?
    ensures off <= Start(b) ==> Fragment(b, off) == []
    ensures Start(b) < off < Stop(b) ==> Fragment(b, off) == b.text[..off - Start(b)]
    ensures Start(b) < off && Stop(b) <= off ==> Fragment(b, off) == b.text
  {
  }

  lemma StateIs(st: State)
    requires st.pending == []
    ensures st == State([], Merge(st.usage, None))
  {
    NothingAdded(st.usage);
  }

  /** A cut inside the marker. */
  lemma MarkerCutLeaves(st: State, b: Block, off: nat, rest: seq<Block>)
    requires WellFormed(b) && IsUsable(b) && Inv(st) && st.pending == [] && 0 < off < |MARKER|
    ensures off <= |BlockText(b)| && AfterCut(st, b, off, rest) == st
  {
    hide Classify, Trim, Offer, LeadingLines, NextEvents, WellFormed, IsUsable, BlockText;
    BlockIsLonger(b);
    AfterCutIs(st, b, off, rest);
    FragmentIs(b, off);
    OfferNothing(st);
    MarkerRest(b, off);
    var inner, lines := b.lead + b.text + b.end, LeadingLines(rest);
    BrokenMarkerTrimmed(off, inner + lines);
    assert MARKER[off..] + (inner + lines) == BlockText(b)[off..] + lines;
    OfferRejected(st, Trim(BlockText(b)[off..] + lines));
  }

  lemma BlockIsLonger(b: Block)
    requires IsUsable(b)
    ensures b.Data? && |MARKER| <= Start(b) <= Stop(b) <= |BlockText(b)|
    ensures Start(b) == |MARKER| + |b.lead| && Stop(b) == Start(b) + |b.text|
  {
  }

  /** A document behind blanks, with blanks and lines behind it. */
  lemma TrimmedDocument(before: seq<byte>, text: seq<byte>, end: seq<byte>, lines: seq<byte>)
    requires JsonBlank(before) && IsObject(text) && JsonBlank(end) && (lines != [] ==> StartsNoObject(lines[0]))
    ensures lines == [] ==> Trim(before + text + end + lines) == text
    ensures lines != [] ==> Classify(Trim(before + text + end + lines)) == Rejected
  {
    hide Classify, Trim, IsObject;
    ObjectIsBraced(text);
    if lines == [] {
      assert before + text + end + lines == before + text + end;
      TrimMiddle(before, text, end);
    } else {
      var more := end + lines;
      assert before + text + end + lines == before + (text + more);
      TrimSkipsBlank(before, text + more);
      var k := |text| + |end|;
      assert (text + more)[k] == lines[0];
      var n := TrimKeepsUpTo(text + more, k);
      assert (text + more)[..n] == text + more[..n - |text|];
      assert more[..n - |text|][|end|] == lines[0];
      ObjectIsDocument(text);
      DocumentFollowed(text, more[..n - |text|]);
    }
  }

  /** A cut between the marker and the payload. */
  lemma LeadCutLeaves(st: State, b: Block, off: nat, rest: seq<Block>)
    requires WellFormed(b) && IsUsable(b) && AllWellFormed(rest) && Inv(st) && st.pending == []
    requires b.Data? && |MARKER| <= off <= Start(b)
    ensures
      && off <= |BlockText(b)|
      && AfterCut(st, b, off, rest) == if rest == [] then State([], Merge(st.usage, UsageOf(b.text))) else st
  {
    hide *;
    BlockIsLonger(b);
    AfterCutIs(st, b, off, rest);
    FragmentIs(b, off);
    OfferNothing(st);
    LinesThenEvents(rest);
    LeadingLinesAre(rest);
    BlockParts(b);
    var before, lines := b.lead[off - |MARKER|..], LeadingLines(rest);
    LeadRest(b, off);
    BlankSuffix(b.lead, off - |MARKER|);
    TrimmedDocument(before, b.text, b.end, lines);
    NoEventsNoLines(rest);
    if rest == [] {
      WholeFront(b.text);
      OfferPrefix(st, b.text, |b.text|);
      AfterWhole(st, b.text);
    } else if NextEvents(rest) == [] {
      OfferRejected(st, Trim(before + b.text + b.end + lines));
    }
  }

  lemma WholeFront(text: seq<byte>)
    ensures text[..|text|] == text
  {
  }

  lemma AfterWhole(st: State, text: seq<byte>)
    ensures After(st, text, |text|) == State([], Merge(st.usage, UsageOf(text)))
  {
    hide Merge, UsageOf;
  }

  lemma BlankSuffix(data: seq<byte>, k: nat)
    requires JsonBlank(data) && k <= |data|
    ensures JsonBlank(data[k..])
  {
  }

  lemma NoEventsNoLines(rest: seq<Block>)
    ensures NextEvents(rest) == [] && LeadingLines(rest) == [] && AllWellFormed(rest) ==> rest == []
    ensures rest == [] ==> NextEvents(rest) == [] && LeadingLines(rest) == []
  {
    hide IsUsable, IsUseless, HasMarker, OneLine;
    if rest != [] && rest[0].Ignored? && AllWellFormed(rest) { LinesAre(rest[0]); }
  }

  lemma BlockParts(b: Block)
    requires WellFormed(b) && IsUsable(b)
    ensures b.Data? && JsonBlank(b.lead) && IsObject(b.text) && JsonBlank(b.end) && |b.text| + |b.end| <= MAX_PENDING
    ensures |b.text| <= MAX_PENDING && 0 < |b.text| && Stop(b) == Start(b) + |b.text|
  {
    hide IsObject, IsUseless, OneLine, JsonBlank, HasMarker;
    PayloadIsNotEmpty(b);
  }

  lemma LeadRest(b: Block, off: nat)
    requires b.Data? && |MARKER| <= off <= Start(b)
    ensures off <= |BlockText(b)| && BlockText(b)[off..] == b.lead[off - |MARKER|..] + b.text + b.end
  {
    DataMiddle(b, off, |b.text|, |b.end|);
    assert b.text[..|b.text|] == b.text && b.end[..|b.end|] == b.end;
    assert BlockText(b)[off..] == BlockText(b)[off..|BlockText(b)|];
  }

  lemma PayloadRest(b: Block, off: nat)
    requires b.Data? && Start(b) <= off <= Stop(b)
    ensures off <= |BlockText(b)| && BlockText(b)[off..] == b.text[off - Start(b)..] + b.end
  {
    DataInner(b, off, |BlockText(b)|);
    assert BlockText(b)[off..] == BlockText(b)[off..|BlockText(b)|];
  }

  lemma LinesAreNotBlank(end: seq<byte>, lines: seq<byte>)
    requires JsonBlank(end) && (lines != [] ==> StartsNoObject(lines[0]))
    ensures JsonBlank(end + lines) <==> lines == []
    ensures lines == [] ==> end + lines == end
  {
    if lines != [] { assert (end + lines)[|end|] == lines[0]; }
  }

  /** A cut in the payload that does not split a skipped number. */
  lemma OpenCutLeaves(st: State, b: Block, off: nat, rest: seq<Block>)
    requires WellFormed(b) && IsUsable(b) && AllWellFormed(rest) && Inv(st) && st.pending == []
    requires b.Data? && Start(b) < off < Stop(b) && !InNumberGap(b.text[..off - Start(b)])
    ensures
      && off <= |BlockText(b)|
      && AfterCut(st, b, off, rest)
         == if rest != [] && rest[0].Ignored? then st
            else State([], Merge(st.usage, PayloadCutUsage(b.text, off - Start(b))))
  {
    hide *;
    var k, lines := off - Start(b), LeadingLines(rest);
    BlockIsLonger(b);
    BlockParts(b);
    AfterCutIs(st, b, off, rest);
    FragmentIs(b, off);
    OfferFragment(st, b.text, k);
    KeptIs(b.text, k);
    LinesThenEvents(rest);
    LeadingLinesAre(rest);
    PayloadRest(b, off);
    LinesAreNotBlank(b.end, lines);
    assert b.text[k..] + b.end + lines == b.text[k..] + (b.end + lines);
    OfferRest(State(b.text[..Kept(b.text, k)], st.usage), b.text, k, b.end + lines);
    UsageStays(st);
  }

  lemma UsageStays(st: State)
    ensures st.pending == [] ==> State([], st.usage) == st
  {
  }

  /** A cut behind the sign, point or exponent letter of a skipped number. */
  lemma GapCutLeaves(st: State, b: Block, off: nat, rest: seq<Block>)
    requires WellFormed(b) && IsUsable(b) && AllWellFormed(rest) && Inv(st) && st.pending == []
    requires b.Data? && Start(b) < off < Stop(b) && InNumberGap(b.text[..off - Start(b)])
    ensures off <= |BlockText(b)| && AfterCut(st, b, off, rest) == st
  {
    hide *;
    var k, lines := off - Start(b), LeadingLines(rest);
    BlockIsLonger(b);
    BlockParts(b);
    AfterCutIs(st, b, off, rest);
    FragmentIs(b, off);
    OfferFragment(st, b.text, k);
    PayloadRest(b, off);
    NumberRestTrimmed(b.text, k, b.end + lines);
    assert b.text[k..] + b.end + lines == b.text[k..] + (b.end + lines);
    OfferRejected(st, Trim(b.text[k..] + b.end + lines));
  }

  lemma NumberRestTrimmed(text: seq<byte>, k: nat, more: seq<byte>)
    requires IsObject(text) && k < |text| && InNumberGap(text[..k])
    ensures Classify(Trim(text[k..] + more)) == Rejected
  {
    hide Classify, Parse, Trim;
    var core := text[k..];
    ObjectIsBraced(text);
    ObjectParses(text);
    GapIsResumed(text, k);
    assert core[0] == text[k] && core[|core| - 1] == CLOSE_BRACE;
    var g := core + more;
    assert g[0] == core[0] && g[|core| - 1] == core[|core| - 1];
    var n := TrimKeepsUpTo(g, |core| - 1);
    assert g[..n] == core + more[..n - |core|];
    NumberRestIsRejected(core, more[..n - |core|]);
  }

  /** A cut behind the payload. */
  lemma EndCutLeaves(st: State, b: Block, off: nat, rest: seq<Block>)
    requires WellFormed(b) && IsUsable(b) && AllWellFormed(rest) && Inv(st) && st.pending == []
    requires b.Data? && Stop(b) <= off <= |BlockText(b)|
    ensures AfterCut(st, b, off, rest) == State([], Merge(st.usage, UsageOf(b.text)))
  {
    hide *;
    BlockIsLonger(b);
    BlockParts(b);
    AfterCutIs(st, b, off, rest);
    FragmentIs(b, off);
    var held := Offer(st, Trim(b.text));
    WholeFront(b.text);
    ObjectIsBraced(b.text);
    OfferPrefix(st, b.text, |b.text|);
    AfterWhole(st, b.text);
    OfferKeepsInv(st, Trim(b.text));
    EndIsJunk(b, off);
    JunkFromIs(b, off);
    LeadingLinesAre(rest);
    JunkThenLines(BlockText(b)[off..], LeadingLines(rest));
    EmptyPending(held);
    OfferJunk(held, BlockText(b)[off..] + LeadingLines(rest));
  }

  lemma EmptyPending(st: State)
    ensures forall usage :: st == State([], usage) ==> st.pending == []
  {
  }

  lemma JunkThenLines(a: seq<byte>, lines: seq<byte>)
    requires IsJunk(a) && (lines != [] ==> StartsNoObject(lines[0]))
    ensures IsJunk(a + lines)
  {
    hide IsJunk, StartsNoObject;
    if lines == [] { assert a + lines == a; } else { JunkThen(a, lines); }
  }

  lemma UsableCutLeaves(st: State, b: Block, off: nat, rest: seq<Block>)
    requires WellFormed(b) && IsUsable(b) && AllWellFormed(rest) && Inv(st) && st.pending == []
    requires 0 < off <= |BlockText(b)|
    ensures b.Data? && CutLeaves(st, b, off, rest)
  {
    hide Classify, AfterCut, Merge, UsageOf, WellFormed, IsUsable, BlockText, Inv, PayloadCutUsage, InNumberGap;
    BlockIsLonger(b);
    StateIs(st);
    PayloadIsNotEmpty(b);
    if off < |MARKER| {
      MarkerCutLeaves(st, b, off, rest);
    } else if off <= Start(b) {
      LeadCutLeaves(st, b, off, rest);
    } else if Stop(b) <= off {
      EndCutLeaves(st, b, off, rest);
    } else if InNumberGap(b.text[..off - Start(b)]) {
      GapCutLeaves(st, b, off, rest);
      GapLeavesNothing(b.text, off - Start(b));
    } else {
      OpenCutLeaves(st, b, off, rest);
    }
  }

  lemma GapLeavesNothing(text: seq<byte>, k: nat)
    requires k <= |text| && InNumberGap(text[..k])
    ensures PayloadCutUsage(text, k) == None
  {
    hide InNumberGap;
  }

  lemma PayloadIsNotEmpty(b: Block)
    requires IsUsable(b)
    ensures b.Data? && Start(b) < Stop(b)
  {
    hide Classify;
    ObjectIsBraced(b.text);
  }

  // ---- one cut in a stream ----

  lemma {:induction false} StreamAppend(x: seq<Block>, y: seq<Block>)
    ensures Stream(x + y) == Stream(x) + Stream(y)
  {
    hide BlockText;
    if x == [] {
      assert x + y == y;
    } else {
      assert (x + y)[1..] == x[1..] + y;
      StreamAppend(x[1..], y);
    }
  }

  lemma StreamAround(blocks: seq<Block>, n: nat)
    requires n < |blocks|
    ensures Stream(blocks) == Stream(blocks[..n]) + (BlockText(blocks[n]) + Stream(blocks[n + 1..]))
  {
    hide Stream, BlockText;
    SplitAround(blocks, n);
    StreamAppend(blocks[..n], [blocks[n]] + blocks[n + 1..]);
    StreamCons(blocks[n], blocks[n + 1..]);
  }

  lemma SplitAround<T>(s: seq<T>, n: nat)
    requires n < |s|
    ensures s == s[..n] + ([s[n]] + s[n + 1..])
  {
  }

  lemma StreamCons(b: Block, rest: seq<Block>)
    ensures Stream([b] + rest) == BlockText(b) + Stream(rest)
  {
    hide BlockText;
    assert ([b] + rest)[1..] == rest;
  }

  lemma CutStarts(b: Block, off: nat)
    requires WellFormed(b) && off <= |BlockText(b)|
    ensures StartsBlock(BlockText(b)[..off])
  {
    hide IsUsable, IsUseless, OneLine, HasMarker;
    var x := BlockText(b)[..off];
    if b.Data? {
      if |MARKER| <= off {
        assert x[0..|MARKER|] == MARKER;
      } else if off > 0 {
        assert x[0] == MARKER[0];
      }
    }
  }

  lemma CutText(front: seq<byte>, text: seq<byte>, back: seq<byte>, off: nat)
    requires off <= |text|
    ensures
      var all := front + (text + back);
      && all[..|front| + off] == front + text[..off] && all[|front| + off..] == text[off..] + back
  {
    assert front + (text + back) == (front + text[..off]) + (text[off..] + back);
  }

  lemma TwoPushes(a: seq<byte>, b: seq<byte>)
    ensures PushAll(EMPTY, [a, b]) == Push(Push(EMPTY, a), b)
  {
    hide Push;
    assert [a, b][1..] == [b] && [b][1..] == [];
    assert PushAll(Push(EMPTY, a), [b]) == Push(Push(EMPTY, a), b);
  }

  /** The usage merged by the blocks in front of the cut one. */
  ghost function UsageBefore(blocks: seq<Block>, n: nat): State
    requires n <= |blocks|
  {
    State([], MergeAll(None, UsagesIn(blocks[..n])))
  }

  ghost predicate CutInBlock(blocks: seq<Block>, n: nat, off: nat) {
    AllWellFormed(blocks) && n < |blocks| && off <= |BlockText(blocks[n])|
  }

  lemma CutBounds(blocks: seq<Block>, n: nat, off: nat)
    requires CutInBlock(blocks, n, off)
    ensures AllWellFormed(blocks) && n < |blocks| && off <= |BlockText(blocks[n])|
  {
    hide WellFormed, BlockText;
  }

  /** The two frames of a stream cut after `off` bytes of block `n`. */
  function TwoFrames(blocks: seq<Block>, n: nat, off: nat): seq<seq<byte>>
    requires n < |blocks| && off <= |BlockText(blocks[n])|
  {
    StreamAround(blocks, n);
    var stream, cut := Stream(blocks), |Stream(blocks[..n])| + off;
    [stream[..cut], stream[cut..]]
  }

  lemma TwoFramesRun(blocks: seq<Block>, n: nat, off: nat)
    requires CutInBlock(blocks, n, off)
    ensures
      var b, rest := blocks[n], blocks[n + 1..];
      && WellFormed(b) && AllWellFormed(rest) && Inv(UsageBefore(blocks, n))
      && PushAll(EMPTY, TwoFrames(blocks, n, off))
         == Push(Push(UsageBefore(blocks, n), BlockText(b)[..off]), BlockText(b)[off..] + Stream(rest))
  {
    hide Classify, Push, PushAll, UsageIn, UsagesIn, Merge, BlockText, Stream, WellFormed, StartsBlock, MergeAll,
         HasMarker;
    var before, b, rest := blocks[..n], blocks[n], blocks[n + 1..];
    StreamAround(blocks, n);
    CutText(Stream(before), BlockText(b), Stream(rest), off);
    EmptyIsOpen();
    CutStarts(b, off);
    FrontThenMore(EMPTY, before, BlockText(b)[..off]);
    var frames := TwoFrames(blocks, n, off);
    TwoPushes(frames[0], frames[1]);
    assert frames == [frames[0], frames[1]];
  }

  /**
   A stream cut once, anywhere but in front of a marker: the blocks before the cut add what they add, the cut block and
   the lines behind it come to `AfterCut`, and the next event goes on from there; if nothing is held then, the blocks
   behind the cut add what they add uncut.
   */
  lemma CutInStream(blocks: seq<Block>, n: nat, off: nat)
    requires CutInBlock(blocks, n, off) && !HasMarker(BlockText(blocks[n])[off..])
    ensures
      var rest := blocks[n + 1..];
      var after := AfterCut(UsageBefore(blocks, n), blocks[n], off, rest);
      && PushAll(EMPTY, TwoFrames(blocks, n, off)) == Push(after, Stream(NextEvents(rest)))
      && (after.pending == [] ==>
            PushAll(EMPTY, TwoFrames(blocks, n, off)) == State([], MergeAll(after.usage, UsagesIn(rest))))
  {
    hide *;
    CutBounds(blocks, n, off);
    TwoFramesRun(blocks, n, off);
    NothingPending(blocks, n);
    CutAnywhere(UsageBefore(blocks, n), blocks[n], off, blocks[n + 1..]);
  }

  lemma NothingPending(blocks: seq<Block>, n: nat)
    requires n <= |blocks|
    ensures UsageBefore(blocks, n).pending == []
    ensures UsageBefore(blocks, n).usage == MergeAll(None, UsagesIn(blocks[..n]))
  {
    hide MergeAll, UsagesIn;
  }

  /** What a stream gives uncut, but for the usage of one block. */
  ghost function WithUsage(blocks: seq<Block>, n: nat, usage: Option<TokenUsage>): Option<TokenUsage>
    requires n < |blocks|
  {
    MergeAll(None, UsagesIn(blocks[..n]) + [usage] + UsagesIn(blocks[n + 1..]))
  }

  lemma WithUsageIs(blocks: seq<Block>, n: nat, usage: Option<TokenUsage>)
    requires n < |blocks|
    ensures WithUsage(blocks, n, usage)
            == MergeAll(Merge(UsageBefore(blocks, n).usage, usage), UsagesIn(blocks[n + 1..]))
  {
    hide MergeAll, UsagesIn, Merge;
    var before, rest := UsagesIn(blocks[..n]), UsagesIn(blocks[n + 1..]);
    MergeAllAppend(None, before + [usage], rest);
    MergeAllAppend(None, before, [usage]);
    MergeAllOne(MergeAll(None, before), usage);
  }

  /** With the usage of the block itself, that is the whole stream. */
  lemma {:induction false} WithOwnUsage(blocks: seq<Block>, n: nat)
    requires n < |blocks|
    ensures WithUsage(blocks, n, UsageIn(blocks[n])) == MergeAll(None, UsagesIn(blocks))
  {
    hide MergeAll, UsageIn;
    UsagesAround(blocks, n);
  }

  lemma {:induction false} UsagesAround(blocks: seq<Block>, n: nat)
    requires n < |blocks|
    ensures UsagesIn(blocks) == UsagesIn(blocks[..n]) + [UsageIn(blocks[n])] + UsagesIn(blocks[n + 1..])
    decreases n
  {
    hide UsageIn;
    if n > 0 {
      UsagesAround(blocks[1..], n - 1);
      assert blocks[..n][1..] == blocks[1..][..n - 1] && blocks[1..][n..] == blocks[n + 1..];
    } else {
      assert blocks[..0] == [];
    }
  }

  /**
   A stream cut once, anywhere in an event with a usable payload that has no marker behind the cut: every other block
   adds what it adds uncut, whatever follows, and the cut event adds exactly its `CutUsage`.
   */
  lemma SingleCut(blocks: seq<Block>, n: nat, off: nat)
    requires CutInBlock(blocks, n, off) && IsUsable(blocks[n])
    requires off == 0 || !HasMarker(BlockText(blocks[n])[off..])
    ensures blocks[n].Data?
    ensures PushAll(EMPTY, TwoFrames(blocks, n, off))
            == State([], WithUsage(blocks, n, CutUsage(blocks[n], off, blocks[n + 1..])))
  {
    hide *;
    CutBounds(blocks, n, off);
    var b, rest, mid := blocks[n], blocks[n + 1..], UsageBefore(blocks, n);
    BlockIsLonger(b);
    NothingPending(blocks, n);
    TwoFramesRun(blocks, n, off);
    WithUsageIs(blocks, n, CutUsage(b, off, rest));
    if off == 0 {
      UncutRun(mid, b, rest);
      UncutUsage(b, rest);
    } else {
      UsableCutLeaves(mid, b, off, rest);
      CutLeavesIs(mid, b, off, rest);
      CutInStream(blocks, n, off);
    }
  }

  lemma CutLeavesIs(st: State, b: Block, off: nat, rest: seq<Block>)
    requires b.Data? && off <= |BlockText(b)| && CutLeaves(st, b, off, rest)
    ensures AfterCut(st, b, off, rest).pending == []
    ensures AfterCut(st, b, off, rest).usage == Merge(st.usage, CutUsage(b, off, rest))
  {
    hide AfterCut, Merge, CutUsage, BlockText;
  }

  lemma UncutUsage(b: Block, rest: seq<Block>)
    requires IsUsable(b)
    ensures b.Data? && CutUsage(b, 0, rest) == UsageIn(b)
  {
    hide UsageOf;
  }

  lemma UncutRun(st: State, b: Block, rest: seq<Block>)
    requires WellFormed(b) && AllWellFormed(rest) && Inv(st) && st.pending == []
    ensures Push(Push(st, BlockText(b)[..0]), BlockText(b)[0..] + Stream(rest))
            == State([], MergeAll(Merge(st.usage, UsageIn(b)), UsagesIn(rest)))
  {
    hide Classify, Push, WellFormed, UsageIn, Merge, BlockText, MergeAll;
    assert BlockText(b)[..0] == [] && BlockText(b)[0..] == BlockText(b);
    IdlePush(st);
    var all := [b] + rest;
    StreamCons(b, rest);
    assert all[1..] == rest && UsagesIn(all)[1..] == UsagesIn(rest);
    RestOfStream(st, all);
    MergeAllCons(st.usage, UsageIn(b), UsagesIn(rest));
  }

  lemma MergeAllCons(usage: Option<TokenUsage>, first: Option<TokenUsage>, more: seq<Option<TokenUsage>>)
    ensures MergeAll(usage, [first] + more) == MergeAll(Merge(usage, first), more)
  {
    assert ([first] + more)[1..] == more;
  }

  /**
   A stream cut once inside ignored lines loses nothing and gains nothing if an event follows, or if what is left of the
   lines is junk; otherwise what is left of all the lines is read as a plain body.
   */
  lemma CutInLines(blocks: seq<Block>, n: nat, off: nat)
    requires CutInBlock(blocks, n, off) && blocks[n].Ignored?
    ensures
      var b, rest := blocks[n], blocks[n + 1..];
      PushAll(EMPTY, TwoFrames(blocks, n, off))
      == if NextEvents(rest) != [] || IsJunkFrom(b, off) then State([], MergeAll(None, UsagesIn(blocks)))
         else Offer(UsageBefore(blocks, n), Trim(b.lines[off..] + LeadingLines(rest)))
  {
    hide *;
    CutBounds(blocks, n, off);
    var b, rest, mid := blocks[n], blocks[n + 1..], UsageBefore(blocks, n);
    NothingPending(blocks, n);
    TwoFramesRun(blocks, n, off);
    LinesUnmarked(b, off);
    CutInStream(blocks, n, off);
    LinesCutLeaves(mid, b, off, rest);
    WithUsageIs(blocks, n, None);
    LinesAddNothing(b);
    WithOwnUsage(blocks, n);
    NothingAdded(mid.usage);
    if NextEvents(rest) == [] && !IsJunkFrom(b, off) {
      NoStream(rest);
      IdlePush(AfterCut(mid, b, off, rest));
    }
  }

  lemma NoStream(rest: seq<Block>)
    ensures NextEvents(rest) == [] ==> Stream(NextEvents(rest)) == []
  {
  }

  lemma LinesUnmarked(b: Block, off: nat)
    requires WellFormed(b) && b.Ignored? && off <= |BlockText(b)|
    ensures off <= |b.lines| && !HasMarker(BlockText(b)[off..]) && BlockText(b)[off..] == b.lines[off..]
  {
    hide Find, StartsNoObject;
    SliceUnmarked(b.lines, off, |b.lines|);
    assert b.lines[off..] == b.lines[off..|b.lines|];
  }

  lemma LinesCutLeaves(st: State, b: Block, off: nat, rest: seq<Block>)
    requires WellFormed(b) && b.Ignored? && AllWellFormed(rest) && Inv(st) && st.pending == []
    requires off <= |BlockText(b)|
    ensures
      AfterCut(st, b, off, rest)
      == if NextEvents(rest) != [] || IsJunkFrom(b, off) then st
         else Offer(st, Trim(b.lines[off..] + LeadingLines(rest)))
  {
    hide *;
    AfterCutIs(st, b, off, rest);
    NoFragment(b, off);
    OfferNothing(st);
    LinesUnmarked(b, off);
    if NextEvents(rest) == [] && IsJunkFrom(b, off) {
      JunkFromIs(b, off);
      LeadingLinesAre(rest);
      JunkThenLines(b.lines[off..], LeadingLines(rest));
      OfferJunk(st, b.lines[off..] + LeadingLines(rest));
    }
  }

  lemma NoFragment(b: Block, off: nat)
    requires b.Ignored?
    ensures Fragment(b, off) == []
  {
  }

  lemma JunkFromIs(b: Block, off: nat)
    requires off <= |BlockText(b)| && IsJunkFrom(b, off)
    ensures IsJunk(BlockText(b)[off..]) && !HasMarker(BlockText(b)[off..])
  {
  }

  /** A stream cut once in a useless payload loses and gains nothing if both parts are useless on their own. */
  lemma CutInUseless(blocks: seq<Block>, n: nat, off: nat)
    requires CutInBlock(blocks, n, off) && blocks[n].Data? && !IsUsable(blocks[n])
    requires Start(blocks[n]) < off < Stop(blocks[n])
    requires IsJunkFrom(blocks[n], off) && IsUseless(blocks[n].text[..off - Start(blocks[n])])
    ensures PushAll(EMPTY, TwoFrames(blocks, n, off)) == State([], MergeAll(None, UsagesIn(blocks)))
  {
    hide *;
    CutBounds(blocks, n, off);
    var b, rest, mid := blocks[n], blocks[n + 1..], UsageBefore(blocks, n);
    NothingPending(blocks, n);
    TwoFramesRun(blocks, n, off);
    JunkFromIs(b, off);
    CutInStream(blocks, n, off);
    AfterCutIs(mid, b, off, rest);
    FragmentIs(b, off);
    StopIs(b);
    OfferUseless(mid, b.text[..off - Start(b)]);
    LeadingLinesAre(rest);
    JunkThenLines(BlockText(b)[off..], LeadingLines(rest));
    OfferJunk(mid, BlockText(b)[off..] + LeadingLines(rest));
    WithUsageIs(blocks, n, None);
    UselessAddsNothing(b);
    WithOwnUsage(blocks, n);
    NothingAdded(mid.usage);
  }

  lemma StopIs(b: Block)
    requires b.Data?
    ensures Stop(b) == Start(b) + |b.text| && Start(b) == |MARKER| + |b.lead|
  {
  }

  lemma UselessAddsNothing(b: Block)
    requires !IsUsable(b)
    ensures UsageIn(b) == None
  {
  }

  // ---- a marker behind the cut ----

  lemma MarkerBytes(data: seq<byte>, k: nat)
    requires OccursAt(data, MARKER, k)
    ensures forall m | 0 <= m < |MARKER| :: data[k + m] == MARKER[m]
  {
    forall m | 0 <= m < |MARKER| ensures data[k + m] == MARKER[m] {
      assert data[k + m] == data[k..k + |MARKER|][m];
    }
  }

  /** What is held when the search comes to a marker behind the cut: an open fragment has taken what is before it. */
  function HeldAtMarker(st: State, b: Block, off: nat, p: nat): State
    requires off <= p <= |BlockText(b)|
  {
    var held := Offer(st, Trim(Fragment(b, off)));
    if held.pending == [] then held else Continued(held, BlockText(b)[off..p])
  }

  lemma HeldAtMarkerIs(st: State, b: Block, off: nat, p: nat)
    requires off <= p <= |BlockText(b)|
    ensures
      var held := Offer(st, Trim(Fragment(b, off)));
      HeldAtMarker(st, b, off, p) == if held.pending == [] then held else Continued(held, BlockText(b)[off..p])
  {
    hide Offer, Trim, Fragment, Continued, BlockText;
  }

  /** Behind its first byte, nothing in front of the payload looks like the start of a marker. */
  lemma LeadUnlikeMarker(b: Block, p: nat)
    requires WellFormed(b) && b.Data? && 0 < p < Start(b)
    ensures p < |BlockText(b)| && BlockText(b)[p] != MARKER[0]
  {
    hide IsUsable, IsUseless, OneLine;
    assert BlockText(b)[p] == if p < |MARKER| then MARKER[p] else b.lead[p - |MARKER|];
  }

  /** A marker behind the cut lies in the payload. */
  lemma MarkerInPayload(b: Block, off: nat, m: nat)
    requires WellFormed(b) && b.Data? && 0 < off <= |BlockText(b)|
    requires Find(BlockText(b)[off..], MARKER) == Some(m)
    ensures Start(b) <= off + m && off + m + |MARKER| <= Stop(b)
    ensures BlockText(b)[off + m..] == MARKER + BlockText(b)[off + m + |MARKER|..Stop(b)] + b.end
    ensures OneLine(BlockText(b)[off + m + |MARKER|..Stop(b)])
  {
    hide Find, IsUsable, IsUseless, OneLine;
    var text, p := BlockText(b), off + m;
    var behind := text[off..];
    MarkerBytes(behind, m);
    assert text[p] == behind[m + 0] == MARKER[0];
    forall q | 0 < q < Start(b) ensures text[q] != MARKER[0] { LeadUnlikeMarker(b, q); }
    assert p + |MARKER| <= Stop(b) by {
      if Stop(b) < p + |MARKER| {
        var e := if p <= Stop(b) then Stop(b) else p;
        assert text[e] == b.end[e - Stop(b)];
        assert text[e] == behind[m + (e - p)] == MARKER[e - p];
        MarkerHasNoSpace(e - p);
      }
    }
    MarkerSplit(text, p, behind, m);
    var k := p + |MARKER| - Start(b);
    assert text[p + |MARKER|..Stop(b)] == b.text[k..];
    LaterIsOneLine(b.text, k);
    assert text[p + |MARKER|..] == b.text[k..] + b.end;
  }

  lemma MarkerSplit(text: seq<byte>, p: nat, behind: seq<byte>, m: nat)
    requires m <= p <= |text| && behind == text[p - m..] && OccursAt(behind, MARKER, m)
    ensures p + |MARKER| <= |text| && text[p..] == MARKER + text[p + |MARKER|..]
  {
    assert text[p..p + |MARKER|] == behind[m..m + |MARKER|];
    assert text[p..] == text[p..p + |MARKER|] + text[p + |MARKER|..];
  }

  lemma LaterIsOneLine(text: seq<byte>, k: nat)
    requires OneLine(text) && k <= |text|
    ensures OneLine(text[k..])
  {
    assert text == text[..k] + text[k..];
    NoLineEndJoin(text[..k], text[k..]);
  }

  /** A marked line, its end, and what follows. */
  lemma LineThenMore(st: State, after: seq<byte>, end: seq<byte>, more: seq<byte>)
    requires Inv(st) && OneLine(after) && JsonBlank(end) && end != [] && end[|end| - 1] == NEWLINE
    ensures OfferAll(st, SplitClosed(MARKER + after + end + more))
            == OfferAll(Offer(st, Trim(after)), SplitClosed(more))
  {
    hide Classify, Trim, Find, OneLine, Offer, SplitClosed, OfferAll, Payload;
    var x, tail := LineEndIn(end);
    NoLineEndJoin(after, x);
    EventLine(after + x);
    TrimIgnoresBlank(after, x);
    var line := MARKER + (after + x);
    assert MARKER + after + end + more == line + (tail + more);
    FindIs(line, MARKER, 0);
    OneLineIs(line);
    SplitLine(line, tail + more);
    OfferAllAppend(st, [Payload(line)], SplitClosed(tail + more));
    OfferOne(st, Payload(line));
    OfferKeepsInv(st, Payload(line));
    BlanksUnmarked(tail);
    FindMarkerJoin(tail, more);
    BlankBoundary(Offer(st, Payload(line)), tail, more);
  }

  lemma OneLineIs(line: seq<byte>)
    requires OneLine(line)
    ensures Find(line, LINE_END).None?
  {
  }

  /** Searching a frame that starts behind the cut stops at its first marker. */
  lemma SearchToMarker(held: State, f: seq<byte>, m: nat)
    requires Inv(held) && Find(f, MARKER) == Some(m)
    ensures Push(held, f)
            == OfferAll(if held.pending == [] then held else Continued(held, f[..m]), SplitClosed(f[m..]))
  {
    hide Classify, Find, Offer, OfferAll, SplitClosed, Continued;
    if held.pending == [] {
      assert f == f[..m] + f[m..];
      assert f[m..][0..|MARKER|] == f[m..m + |MARKER|];
      FindIs(f[m..], MARKER, 0);
      SplitSkips(f[..m], f[m..]);
      PushClosed(held, f);
    } else {
      assert OccursAt(f, MARKER, m);
      PushOpen(held, f);
    }
  }

  /**
   A marker behind the cut is taken for the start of an event, whatever the payload: the marker and the blanks behind it
   disappear, the rest of the line is a candidate of its own, and the blocks that follow are candidates as ever.
   */
  lemma MarkerBehindCut(st: State, b: Block, off: nat, m: nat, rest: seq<Block>)
    requires WellFormed(b) && b.Data? && AllWellFormed(rest) && Inv(st) && st.pending == []
    requires 0 < off <= |BlockText(b)| && Find(BlockText(b)[off..], MARKER) == Some(m)
    ensures off + m + |MARKER| <= Stop(b) <= |BlockText(b)|
    ensures
      var p := off + m;
      Push(Push(st, BlockText(b)[..off]), BlockText(b)[off..] + Stream(rest))
      == OfferAll(Offer(HeldAtMarker(st, b, off, p), Trim(BlockText(b)[p + |MARKER|..Stop(b)])),
                  SplitClosed(Stream(rest)))
  {
    hide *;
    var text, p := BlockText(b), off + m;
    var behind, held := text[off..], Offer(st, Trim(Fragment(b, off)));
    MarkerInPayload(b, off, m);
    StopInside(b);
    FirstFrame(st, b, off);
    OfferKeepsInv(st, Trim(Fragment(b, off)));
    EndOfData(b);
    MarkerStays(b, off, m, Stream(rest));
    var f := behind + Stream(rest);
    SearchToMarker(held, f, m);
    SlicesAt(text, off, m, Stream(rest));
    HeldAtMarkerIs(st, b, off, p);
    ContinuedInv(held, text[off..p]);
    LineThenMore(HeldAtMarker(st, b, off, p), text[p + |MARKER|..Stop(b)], b.end, Stream(rest));
  }

  lemma SlicesAt(text: seq<byte>, off: nat, m: nat, more: seq<byte>)
    requires off + m <= |text|
    ensures (text[off..] + more)[..m] == text[off..off + m]
    ensures (text[off..] + more)[m..] == text[off + m..] + more
  {
  }

  lemma ContinuedInv(held: State, head: seq<byte>)
    requires Inv(held)
    ensures Inv(Continued(held, head))
  {
    hide Offer, Inv;
    OfferKeepsInv(held, head);
  }

  lemma EndOfData(b: Block)
    requires WellFormed(b) && b.Data?
    ensures JsonBlank(b.end) && b.end != [] && b.end[|b.end| - 1] == NEWLINE
  {
    hide IsUsable, IsUseless, OneLine;
  }

  lemma MarkerStays(b: Block, off: nat, m: nat, more: seq<byte>)
    requires WellFormed(b) && off < |BlockText(b)| && Find(BlockText(b)[off..], MARKER) == Some(m)
    ensures Find(BlockText(b)[off..] + more, MARKER) == Some(m)
  {
    hide Find, WellFormed, BlockText;
    BlockEndsBlank(b, off);
    FindMarkerJoin(BlockText(b)[off..], more);
  }

  /** The same in a whole stream. */
  lemma MarkerBehindCutInStream(blocks: seq<Block>, n: nat, off: nat, m: nat)
    requires CutInBlock(blocks, n, off) && blocks[n].Data? && 0 < off
    requires Find(BlockText(blocks[n])[off..], MARKER) == Some(m)
    ensures off + m + |MARKER| <= Stop(blocks[n]) <= |BlockText(blocks[n])|
    ensures
      var b, p := blocks[n], off + m;
      PushAll(EMPTY, TwoFrames(blocks, n, off))
      == OfferAll(Offer(HeldAtMarker(UsageBefore(blocks, n), b, off, p), Trim(BlockText(b)[p + |MARKER|..Stop(b)])),
                  SplitClosed(Stream(blocks[n + 1..])))
  {
    hide *;
    CutBounds(blocks, n, off);
    NothingPending(blocks, n);
    TwoFramesRun(blocks, n, off);
    MarkerBehindCut(UsageBefore(blocks, n), blocks[n], off, m, blocks[n + 1..]);
  }

  // ---- harmless cuts in a payload ----

  /**
   Cut anywhere but in a skipped number or behind harmful blanks, a payload keeps its usage. Blanks are harmless between
   tokens, in a value, and in a key that does not become one of the eight names without them.
   */
  lemma HarmlessCutKeepsUsage(text: seq<byte>, k: nat)
    requires IsObject(text) && 0 < k < |text| && !InNumberGap(text[..k])
    requires IsAsciiSpace(text[k - 1]) ==> IsHarmless(text, Kept(text, k), k)
    ensures PayloadCutUsage(text, k) == UsageOf(text)
  {
    hide Classify, Parse, Kept, IsHarmless, UsageOf;
    var a := Kept(text, k);
    KeptIs(text, k);
    if a == k {
      assert ClosedUp(text, k, k) == text;
    } else {
      ClosedUpIsObject(text, a, k);
    }
  }

  // ---- one cut in a plain body ----

  lemma OpenUnmarked(held: State, g: seq<byte>)
    requires held.pending != [] && g != [] && !HasMarker(g)
    ensures Push(held, g) == Offer(held, g)
  {
    hide Classify, Find, Offer, OfferAll, SplitClosed;
    PushOpen(held, g);
    assert g[..|g|] == g && g[|g|..] == [];
    NothingLeft(Offer(held, g));
  }

  /** Any text without a marker in two frames, whatever it is: the verdict on the first frame decides. */
  lemma AnyBodyCut(x: seq<byte>, y: seq<byte>)
    requires x != [] && y != [] && !HasMarker(x) && !HasMarker(y)
    ensures
      var held := Offer(EMPTY, Trim(x));
      PushAll(EMPTY, [x, y]) == if held.pending == [] then Offer(held, Trim(y)) else Offer(held, y)
  {
    hide Classify, Find, Trim, Offer, Push, PushAll;
    TwoPushes(x, y);
    PushUnmarked(EMPTY, x);
    var held := Offer(EMPTY, Trim(x));
    if held.pending == [] { PushUnmarked(held, y); } else { OpenUnmarked(held, y); }
  }

  /** The usage that is left of a plain body cut after `cut` bytes. */
  function BodyCutUsage(lead: nat, text: seq<byte>, cut: nat): Option<TokenUsage> {
    if lead < cut < lead + |text| then PayloadCutUsage(text, cut - lead) else UsageOf(text)
  }

  /** A plain body in two frames, cut anywhere. */
  lemma PlainSingleCut(lead: seq<byte>, text: seq<byte>, tail: seq<byte>, cut: nat)
    requires IsBody(lead, text, tail) && cut <= |lead + text + tail|
    ensures
      var body := lead + text + tail;
      PushAll(EMPTY, [body[..cut], body[cut..]]) == State([], BodyCutUsage(|lead|, text, cut))
  {
    hide Classify, Push, HasMarker, UsageOf, IsObject, Merge, PayloadCutUsage;
    var body := lead + text + tail;
    TwoPushes(body[..cut], body[cut..]);
    if |lead| < cut < |lead| + |text| {
      CutInBody(lead, text, tail, cut);
    } else {
      CutAroundBody(lead, text, tail, cut);
    }
  }

  lemma CutAroundBody(lead: seq<byte>, text: seq<byte>, tail: seq<byte>, cut: nat)
    requires IsBody(lead, text, tail) && cut <= |lead + text + tail| && (cut <= |lead| || |lead| + |text| <= cut)
    ensures
      var body := lead + text + tail;
      Push(Push(EMPTY, body[..cut]), body[cut..]) == State([], UsageOf(text))
  {
    hide *;
    var body := lead + text + tail;
    EmptyIsOpen();
    assert body[..cut] == body[0..cut] && body[cut..] == body[cut..|body|] && body[0..] == body;
    AroundBodyAllowed(lead, text, tail, cut);
    RestUnmarked(body, 0, cut);
    PlainPiece(EMPTY, lead, text, tail, 0, cut);
    PushKeepsInv(EMPTY, body[..cut]);
    PlainPiece(Push(EMPTY, body[..cut]), lead, text, tail, cut, |body|);
  }

  lemma AroundBodyAllowed(lead: seq<byte>, text: seq<byte>, tail: seq<byte>, cut: nat)
    requires IsBody(lead, text, tail) && cut <= |lead + text + tail| && (cut <= |lead| || |lead| + |text| <= cut)
    ensures JsonBlank(lead) && IsObject(text) && JsonBlank(tail) && |text| + |tail| <= MAX_PENDING
    ensures !HasMarker(lead + text + tail) && EMPTY.pending == [] && EMPTY.usage == None
    ensures BodyCutAllowed(|lead|, text, 0, cut) && BodyCutAllowed(|lead|, text, cut, |lead + text + tail|)
    ensures BodyHeld(|lead|, text, 0) == [] == BodyHeld(|lead|, text, cut)
    ensures BodyHeld(|lead|, text, |lead + text + tail|) == []
    ensures
      var first := BodyUsage(None, |lead|, text, 0, cut);
      BodyUsage(first, |lead|, text, cut, |lead + text + tail|) == UsageOf(text)
  {
    hide IsObject, HasMarker, UsageOf, Merge, InNumberGap, JsonBlank, IsAsciiSpace, Trim;
    ObjectIsBraced(text);
    MergeIsAMonoid(UsageOf(text), None, None);
  }

  lemma CutInBody(lead: seq<byte>, text: seq<byte>, tail: seq<byte>, cut: nat)
    requires IsBody(lead, text, tail) && |lead| < cut < |lead| + |text|
    ensures
      var body := lead + text + tail;
      Push(Push(EMPTY, body[..cut]), body[cut..]) == State([], PayloadCutUsage(text, cut - |lead|))
  {
    hide Classify, Push, Find, UsageOf, Merge, IsObject, Kept, Trim, Offer, Parse, PayloadCutUsage;
    var body, k := lead + text + tail, cut - |lead|;
    assert body[..cut] == body[0..cut] && body[0..] == body;
    RestUnmarked(body, 0, cut);
    EmptyIsOpen();
    FirstOfBody(EMPTY, lead, text, tail, 0, cut);
    OfferFragment(EMPTY, text, k);
    assert body[cut..] == text[k..] + tail;
    var g := text[k..] + tail;
    if InNumberGap(text[..k]) {
      NumberRestTrimmed(text, k, tail);
      GapLeavesNothing(text, k);
      PushUnmarked(EMPTY, g);
      OfferRejected(EMPTY, Trim(g));
    } else {
      var held := State(text[..Kept(text, k)], None);
      KeptIs(text, k);
      OpenUnmarked(held, g);
      OfferRest(held, text, k, tail);
      MergeIsAMonoid(PayloadCutUsage(text, k), None, None);
    }
  }
}
