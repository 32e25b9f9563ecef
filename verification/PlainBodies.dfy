/** A buffered response is one object: where the network cuts it does not matter either. */
module PlainBodies {
  import opened Bytes
  import opened TokenUsages
  import opened UsageProbe
  import opened BlankRuns
  import opened ValueRuns
  import opened CandidateSplit
  import opened UsageScanning
  import opened Feeding
  import opened Events
  import opened Chunking

  /** One object with blanks before and after it, within the limit and without a marker. */
  ghost predicate IsBody(lead: seq<byte>, text: seq<byte>, tail: seq<byte>) {
    && JsonBlank(lead) && IsObject(text) && JsonBlank(tail) && |text| + |tail| <= 16384
    && !HasMarker(lead + text + tail)
  }

  /** The first fragment of the object ends in blanks without which the probe reads it the same. */
  ghost predicate BodyCutBehindBlanks(lead: nat, text: seq<byte>, from: nat, to: nat) {
    && from <= lead < to < lead + |text|
    && IsAsciiSpace(text[to - lead - 1]) && IsHarmless(text, Kept(text, to - lead), to - lead)
  }

  /** No skipped number is split, and the first fragment of the object does not end in blanks. */
  ghost predicate BodyCutAllowed(lead: nat, text: seq<byte>, from: nat, to: nat) {
    && (lead < to < lead + |text| ==> !InNumberGap(text[..to - lead]))
    && (from <= lead < to < lead + |text| ==> !IsAsciiSpace(text[to - lead - 1]))
  }

  /** The cuts of a body whose object starts behind `lead` blanks, from position `off` on. */
  ghost predicate PlainCuts(lead: nat, text: seq<byte>, off: nat, frames: seq<seq<byte>>)
    decreases |frames|
  {
    if frames == [] then true
    else
      var to := off + |frames[0]|;
      if BodyCutBehindBlanks(lead, text, off, to) then
        var k := to - lead;
        PlainCuts(lead, ClosedUp(text, Kept(text, k), k), lead + Kept(text, k), frames[1..])
      else BodyCutAllowed(lead, text, off, to) && PlainCuts(lead, text, to, frames[1..])
  }

  /** What is held `off` bytes into the body. */
  function BodyHeld(lead: nat, text: seq<byte>, off: nat): seq<byte> {
    if lead < off then Held(text, off - lead) else []
  }

  function BodyUsage(usage: Option<TokenUsage>, lead: nat, text: seq<byte>, from: nat, to: nat): Option<TokenUsage> {
    if from < lead + |text| <= to then Merge(usage, UsageOf(text)) else usage
  }

  lemma BodyPrefix(lead: seq<byte>, text: seq<byte>, tail: seq<byte>, from: nat, k: nat, spaces: nat)
    requires from <= |lead| && k <= |text| && spaces <= |tail| && (k == |text| || spaces == 0)
    ensures (lead + text + tail)[from..|lead| + k + spaces] == lead[from..] + text[..k] + tail[..spaces]
  {
  }

  lemma FirstOfBody(st: State, lead: seq<byte>, text: seq<byte>, tail: seq<byte>, from: nat, to: nat)
    requires st.pending == [] && JsonBlank(lead) && JsonBlank(tail) && text != []
    requires from <= |lead| < to <= |lead| + |text| + |tail|
    requires !HasMarker((lead + text + tail)[from..to])
    ensures
      var k := if to < |lead| + |text| then to - |lead| else |text|;
      Push(st, (lead + text + tail)[from..to]) == Offer(st, Trim(text[..k]))
  {
    hide Classify, Find, Trim, Offer, Push, HasMarker;
    var k := if to < |lead| + |text| then to - |lead| else |text|;
    var spaces := to - |lead| - k;
    BodyPrefix(lead, text, tail, from, k, spaces);
    FirstFragment(st, lead[from..], text[..k], tail[..spaces]);
  }

  /** One piece of a plain body. */
  lemma PlainPiece(st: State, lead: seq<byte>, text: seq<byte>, tail: seq<byte>, from: nat, to: nat)
    requires JsonBlank(lead) && IsObject(text) && JsonBlank(tail) && |text| + |tail| <= MAX_PENDING
    requires from <= to <= |lead| + |text| + |tail| && Inv(st)
    requires !HasMarker((lead + text + tail)[from..to])
    requires BodyCutAllowed(|lead|, text, from, to)
    requires st.pending == BodyHeld(|lead|, text, from)
    ensures Push(st, (lead + text + tail)[from..to])
            == State(BodyHeld(|lead|, text, to), BodyUsage(st.usage, |lead|, text, from, to))
  {
    hide Classify, Find, InNumberGap, Push, Merge, UsageOf, Trim, HasMarker, Offer;
    var frame := (lead + text + tail)[from..to];
    ObjectIsBraced(text);
    if to <= |lead| {
      assert frame == lead[from..to];
      BlankPush(st, frame);
    } else if from <= |lead| {
      var k := if to < |lead| + |text| then to - |lead| else |text|;
      FirstOfBody(st, lead, text, tail, from, to);
      assert text[..|text|] == text;
      TrimCore(text[..k]);
      OfferPrefix(st, text, k);
    } else if from < |lead| + |text| {
      assert lead + text + tail == lead + (text + tail);
      SuffixSlice(lead, text + tail, from, to);
      ContinueObject(st, text, tail, from - |lead|, to - |lead|);
    } else {
      SuffixSlice(lead + text, tail, from, to);
      BlankPush(st, frame);
    }
  }

  lemma ClosedUpBody(lead: seq<byte>, text: seq<byte>, tail: seq<byte>, a: nat, k: nat)
    requires a <= k <= |text|
    ensures
      var t := ClosedUp(text, a, k);
      && t[..a] == text[..a] && |t| == |text| - (k - a)
      && (lead + t + tail)[|lead| + a..] == (lead + text + tail)[|lead| + k..]
  {
    var t := ClosedUp(text, a, k);
    assert t == text[..a] + text[k..] && text == text[..k] + text[k..];
    SuffixOf(lead, text[..a], text[k..], tail);
    SuffixOf(lead, text[..k], text[k..], tail);
  }

  lemma BehindBlanksBounds(lead: nat, text: seq<byte>, from: nat, to: nat)
    requires BodyCutBehindBlanks(lead, text, from, to)
    ensures from <= lead < to < lead + |text|
    ensures IsAsciiSpace(text[to - lead - 1]) && IsHarmless(text, Kept(text, to - lead), to - lead)
  {
    hide Kept, IsHarmless;
  }

  lemma HeldFront(lead: nat, t: seq<byte>, a: nat)
    requires 0 < a < |t|
    ensures BodyHeld(lead, t, lead + a) == t[..a]
  {
  }

  /** The first fragment ends in blanks: what is held is the start of the closed-up object. */
  lemma BodyBehindBlanks(st: State, lead: seq<byte>, text: seq<byte>, tail: seq<byte>, from: nat, to: nat)
    requires JsonBlank(lead) && IsObject(text) && JsonBlank(tail) && |text| + |tail| <= MAX_PENDING
    requires from <= to <= |lead| + |text| + |tail| && st.pending == []
    requires !HasMarker((lead + text + tail)[from..to])
    requires BodyCutBehindBlanks(|lead|, text, from, to)
    ensures
      var k := to - |lead|;
      var a := Kept(text, k);
      var t := ClosedUp(text, a, k);
      && Push(st, (lead + text + tail)[from..to]) == State(BodyHeld(|lead|, t, |lead| + a), st.usage)
      && IsObject(t) && UsageOf(t) == UsageOf(text) && |t| == |text| - (k - a) && 0 < a < |t|
      && (lead + t + tail)[|lead| + a..] == (lead + text + tail)[to..]
  {
    hide *;
    BehindBlanksBounds(|lead|, text, from, to);
    var k := to - |lead|;
    var a := Kept(text, k);
    var t := ClosedUp(text, a, k);
    HeldBehindBlanks(st, text, k);
    ClosedUpBody(lead, text, tail, a, k);
    FirstOfBody(st, lead, text, tail, from, to);
    HeldFront(|lead|, t, a);
  }

  lemma {:induction false} PlainRun(st: State, lead: seq<byte>, text: seq<byte>, tail: seq<byte>, off: nat,
                                    frames: seq<seq<byte>>)
    requires JsonBlank(lead) && IsObject(text) && JsonBlank(tail) && |text| + |tail| <= MAX_PENDING
    requires off <= |lead| + |text| + |tail| && Inv(st) && st.pending == BodyHeld(|lead|, text, off)
    requires Flatten(frames) == (lead + text + tail)[off..] && !HasMarker((lead + text + tail)[off..])
    requires PlainCuts(|lead|, text, off, frames)
    ensures PushAll(st, frames)
            == State([], if off < |lead| + |text| then Merge(st.usage, UsageOf(text)) else st.usage)
    decreases |frames|
  {
    hide Classify, Push, InNumberGap, HasMarker, IsHarmless, Kept, ClosedUp, Merge, UsageOf, IsObject;
    var body := lead + text + tail;
    if frames != [] {
      var frame := frames[0];
      var to := off + |frame|;
      FrontOf(frame, Flatten(frames[1..]), body[off..], []);
      assert frame == body[off..to] && Flatten(frames[1..]) == body[to..];
      RestUnmarked(body, off, to);
      PushKeepsInv(st, frame);
      if BodyCutBehindBlanks(|lead|, text, off, to) {
        BodyBehindBlanks(st, lead, text, tail, off, to);
        var k := to - |lead|;
        var a := Kept(text, k);
        PlainRun(Push(st, frame), lead, ClosedUp(text, a, k), tail, |lead| + a, frames[1..]);
      } else {
        PlainPiece(st, lead, text, tail, off, to);
        PlainRun(Push(st, frame), lead, text, tail, to, frames[1..]);
      }
    }
  }

  lemma RestUnmarked(body: seq<byte>, off: nat, to: nat)
    requires off <= to <= |body| && !HasMarker(body[off..])
    ensures !HasMarker(body[off..to]) && !HasMarker(body[to..])
  {
    hide Find;
    var rest := body[off..];
    SliceUnmarked(rest, 0, to - off);
    SliceUnmarked(rest, to - off, |rest|);
    assert rest[0..to - off] == body[off..to] && rest[to - off..|rest|] == body[to..];
  }

  /**
   Chunk independence for a buffered response: one object and any blanks around it gives its usage and leaves the
   buffer empty in any number of frames.
   */
  lemma PlainChunkIndependence(lead: seq<byte>, text: seq<byte>, tail: seq<byte>, frames: seq<seq<byte>>)
    requires IsBody(lead, text, tail)
    requires Flatten(frames) == lead + text + tail
    requires PlainCuts(|lead|, text, 0, frames)
    ensures PushAll(EMPTY, frames) == State([], UsageOf(text))
    ensures PushAll(EMPTY, frames) == Push(EMPTY, lead + text + tail)
  {
    hide *;
    var body := lead + text + tail;
    assert body[0..] == body && body[0..|body|] == body;
    WholeBodyAllowed(lead, text, tail);
    PlainRun(EMPTY, lead, text, tail, 0, frames);
    PlainPiece(EMPTY, lead, text, tail, 0, |body|);
  }

  lemma WholeBodyAllowed(lead: seq<byte>, text: seq<byte>, tail: seq<byte>)
    requires IsBody(lead, text, tail)
    ensures JsonBlank(lead) && IsObject(text) && JsonBlank(tail) && |text| + |tail| <= MAX_PENDING
    ensures !HasMarker(lead + text + tail) && Inv(EMPTY) && EMPTY.pending == [] && EMPTY.usage == None && text != []
    ensures BodyCutAllowed(|lead|, text, 0, |lead + text + tail|)
    ensures BodyHeld(|lead|, text, 0) == [] == BodyHeld(|lead|, text, |lead + text + tail|)
    ensures BodyUsage(None, |lead|, text, 0, |lead + text + tail|) == Merge(None, UsageOf(text)) == UsageOf(text)
  {
    hide IsObject, HasMarker, UsageOf, Merge, InNumberGap, JsonBlank, IsAsciiSpace, Trim, Classify;
    EmptyIsOpen();
    ObjectIsBraced(text);
    MergeIsAMonoid(UsageOf(text), None, None);
  }

  /** A body over the limit, in one frame, is dropped, whatever it says. */
  lemma OversizedBodyIsDropped(body: seq<byte>)
    requires !HasMarker(body) && |Trim(body)| > 16384
    ensures Push(EMPTY, body) == EMPTY
  {
    hide Classify, Find, Trim;
    TrimEmpty();
    SplitUnmarked(body);
    OfferOne(EMPTY, Trim(body));
  }
}
