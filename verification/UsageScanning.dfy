/** The usage scanner: response frames in, merged usage out, with at most `MAX_PENDING` bytes held in between. */
module UsageScanning {
  import opened Bytes
  import opened TokenUsages
  import opened UsageProbe
  import opened CandidateSplit

  const MAX_PENDING := 16 * 1024

  /** The unfinished object, and the usage merged so far. */
  datatype State = State(pending: seq<byte>, usage: Option<TokenUsage>)

  const EMPTY := State([], None)

  function Consume(st: State): State {
    if |st.pending| > MAX_PENDING then st.(pending := [])
    else
      match Classify(st.pending)
      case Done(usage) => State([], Merge(st.usage, usage))
      case Eof => st
      case Rejected => st.(pending := [])
  }

  function Offer(st: State, candidate: seq<byte>): State {
    Consume(st.(pending := st.pending + candidate))
  }

  function OfferAll(st: State, candidates: seq<seq<byte>>): State
    decreases |candidates|
  {
    if candidates == [] then st else OfferAll(Offer(st, candidates[0]), candidates[1..])
  }

  function Push(st: State, frame: seq<byte>): State {
    OfferAll(st, Split(frame, st.pending != []))
  }

  function PushAll(st: State, frames: seq<seq<byte>>): State
    decreases |frames|
  {
    if frames == [] then st else PushAll(Push(st, frames[0]), frames[1..])
  }

  class UsageScanner {
    var pending: seq<byte>

    constructor ()
      ensures pending == []
    {
      pending := [];
    }

    method ConsumePending(usage: Option<TokenUsage>) returns (merged: Option<TokenUsage>)
      modifies this
      ensures State(pending, merged) == Consume(State(old(pending), usage))
    {
      merged := usage;
      if |pending| > MAX_PENDING {
        pending := [];
        return;
      }
      match Classify(pending) {
        case Done(seen) =>
          merged := MergeUsage(usage, seen);
          pending := [];
        case Eof =>
        case Rejected =>
          pending := [];
      }
    }

    /** Feed one frame. The buffer never outgrows the limit by more than the candidate just appended. */
    method PushFrame(frame: seq<byte>, usage: Option<TokenUsage>) returns (merged: Option<TokenUsage>)
      modifies this
      ensures State(pending, merged) == Push(State(old(pending), usage), frame)
    {
      merged := usage;
      var candidates := new Candidates(frame, pending != []);
      var candidate := candidates.Next();
      while candidate.Some?
        invariant fresh(candidates)
        invariant candidate.None? ==> candidates.Remaining() == []
        invariant OfferAll(State(pending, merged),
                           (if candidate.Some? then [candidate.value] else []) + candidates.Remaining())
                  == Push(State(old(pending), usage), frame)
        decreases candidate.Some?, |candidates.rest|
      {
        ghost var before := State(pending, merged);
        ghost var items := [candidate.value] + candidates.Remaining();
        assert items[1..] == candidates.Remaining();
        pending := pending + candidate.value;
        merged := ConsumePending(merged);
        assert State(pending, merged) == Offer(before, candidate.value);
        ghost var left := candidates.Remaining();
        candidate := candidates.Next();
        assert left == (if candidate.Some? then [candidate.value] else []) + candidates.Remaining();
      }
    }
  }

  // ---- what every step keeps ----

  /** The buffer is small and waits for more bytes. It need not start with a brace. */
  predicate Inv(st: State) {
    |st.pending| <= MAX_PENDING && Classify(st.pending) == Eof
  }

  lemma EmptyIsOpen()
    ensures Inv(EMPTY)
    ensures Classify([]) == Eof
  {
  }

  lemma OfferKeepsInv(st: State, candidate: seq<byte>)
    ensures Inv(Offer(st, candidate))
    ensures Offer(st, candidate).pending == [] || Offer(st, candidate).pending == st.pending + candidate
  {
    EmptyIsOpen();
  }

  lemma {:induction false} OfferAllKeepsInv(st: State, candidates: seq<seq<byte>>)
    requires Inv(st)
    ensures Inv(OfferAll(st, candidates))
    decreases |candidates|
  {
    hide Offer;
    if candidates != [] {
      OfferKeepsInv(st, candidates[0]);
      OfferAllKeepsInv(Offer(st, candidates[0]), candidates[1..]);
    }
  }

  /** After any run of frames the buffer fits the limit and is cut off, never complete and never unusable. */
  lemma {:induction false} PushAllKeepsInv(st: State, frames: seq<seq<byte>>)
    requires Inv(st)
    ensures Inv(PushAll(st, frames))
    decreases |frames|
  {
    hide Offer;
    if frames != [] {
      PushKeepsInv(st, frames[0]);
      PushAllKeepsInv(Push(st, frames[0]), frames[1..]);
    }
  }

  lemma PushKeepsInv(st: State, frame: seq<byte>)
    requires Inv(st)
    ensures Inv(Push(st, frame))
  {
    OfferAllKeepsInv(st, Split(frame, st.pending != []));
  }

  lemma {:induction false} OfferAllAppend(st: State, a: seq<seq<byte>>, b: seq<seq<byte>>)
    ensures OfferAll(st, a + b) == OfferAll(OfferAll(st, a), b)
    decreases |a|
  {
    if a == [] {
      assert a + b == b;
    } else {
      assert (a + b)[1..] == a[1..] + b;
      OfferAllAppend(Offer(st, a[0]), a[1..], b);
    }
  }

  /** While no offer empties the buffer, it is the concatenation of everything offered. */
  lemma {:induction false} OpenBufferIsConcatenation(st: State, candidates: seq<seq<byte>>)
    requires forall i | 0 < i <= |candidates| :: OfferAll(st, candidates[..i]).pending != []
    ensures OfferAll(st, candidates).pending == st.pending + Flatten(candidates)
    decreases |candidates|
  {
    hide Offer;
    if candidates != [] {
      var n := |candidates|;
      var first, rest := candidates[0], candidates[1..];
      var next := Offer(st, first);
      OfferKeepsInv(st, first);
      assert candidates[..1] == [first];
      OfferAllAppend(st, [first], []);
      assert OfferAll(st, [first]) == next;
      forall i | 0 < i <= |rest| ensures OfferAll(next, rest[..i]).pending != [] {
        assert candidates[..i + 1] == [first] + rest[..i];
        OfferAllAppend(st, [first], rest[..i]);
      }
      OpenBufferIsConcatenation(next, rest);
    }
  }

  /** More bytes than the buffer has room for empty it at least once on the way. */
  lemma RecoveryBound(st: State, candidates: seq<seq<byte>>)
    requires Inv(st)
    requires |Flatten(candidates)| > MAX_PENDING - |st.pending|
    ensures exists i | 0 < i <= |candidates| :: OfferAll(st, candidates[..i]).pending == []
  {
    hide Offer;
    if forall i | 0 < i <= |candidates| :: OfferAll(st, candidates[..i]).pending != [] {
      OpenBufferIsConcatenation(st, candidates);
      OfferAllKeepsInv(st, candidates);
      assert false;
    }
  }

  /** While a frame is fed, the buffer exceeds the limit by no more than the candidate just appended. */
  lemma PeakBound(st: State, frame: seq<byte>, i: nat)
    requires Inv(st) && i < |Split(frame, st.pending != [])|
    ensures
      var items := Split(frame, st.pending != []);
      |OfferAll(st, items[..i]).pending + items[i]| <= MAX_PENDING + |items[i]| <= MAX_PENDING + |frame|
  {
    hide Offer;
    var items := Split(frame, st.pending != []);
    OfferAllKeepsInv(st, items[..i]);
    SplitInOrder(frame, st.pending != []);
    ItemLength(items, i);
  }

  lemma {:induction false} ItemLength(items: seq<seq<byte>>, i: nat)
    requires i < |items|
    ensures |items[i]| <= |Flatten(items)|
  {
    if i > 0 { ItemLength(items[1..], i - 1); }
  }

  // ---- batching ----

  lemma EmptyOfferIsIdle(st: State)
    requires Inv(st)
    ensures Offer(st, []) == st
  {
    hide Classify;
    assert st.pending + [] == st.pending;
  }

  /** Cutting a closed split after whole events gives the same candidates, up to an empty one. */
  lemma {:induction false} SplitAtBoundary(st: State, f1: seq<byte>, f2: seq<byte>)
    requires Inv(st) && EndsEvent(f1)
    ensures OfferAll(st, SplitClosed(f1 + f2)) == OfferAll(OfferAll(st, SplitClosed(f1)), SplitClosed(f2))
    decreases |f1|
  {
    hide Offer, OfferAll, SplitClosed, Find, Trim, AfterMarker;
    if f1 != [] { EndsEventIsClean(f1); }
    FindMarkerJoin(f1, f2);
    var marker := Find(f1, MARKER);
    if marker.None? {
      BlankBoundary(st, f1, f2);
    } else {
      var after := AfterMarker(f1, marker.value);
      var end := Find(after, LINE_END).value;
      var payload, rest := Trim(after[..end]), after[end..];
      SplitJoined(f1, f2, end);
      SplitMarked(f1);
      OfferKeepsInv(st, payload);
      SplitAtBoundary(Offer(st, payload), rest, f2);
      OfferOne(st, payload);
      OfferAllAppend(st, [payload], SplitClosed(rest + f2));
      OfferAllAppend(st, [payload], SplitClosed(rest));
    }
  }

  lemma SplitJoined(f1: seq<byte>, f2: seq<byte>, end: nat)
    requires HasMarker(f1) && CleanJoint(f1, f2)
    requires Find(AfterMarker(f1, Find(f1, MARKER).value), LINE_END) == Some(end)
    ensures
      var after := AfterMarker(f1, Find(f1, MARKER).value);
      SplitClosed(f1 + f2) == [Trim(after[..end])] + SplitClosed(after[end..] + f2)
  {
    hide SplitClosed, Find, Trim, AfterMarker;
    var start := Find(f1, MARKER).value;
    var after := AfterMarker(f1, start);
    FindMarkerJoin(f1, f2);
    AfterMarkerLength(f1, start);
    AfterMarkerJoin(f1, f2, start);
    FindNewlineJoin(after, f2);
    SplitMarked(f1 + f2);
    assert (after + f2)[..end] == after[..end];
    assert (after + f2)[end..] == after[end..] + f2;
  }

  lemma AfterMarkerLength(rest: seq<byte>, start: nat)
    requires OccursAt(rest, MARKER, start)
    ensures AfterMarker(rest, start) != [] ==> start + |MARKER| < |rest|
  {
  }

  lemma BlankBoundary(st: State, f1: seq<byte>, f2: seq<byte>)
    requires Inv(st) && Blank(f1) && !HasMarker(f1)
    requires Find(f1 + f2, MARKER) == Shift(Find(f2, MARKER), |f1|)
    ensures OfferAll(st, SplitClosed(f1)) == st
    ensures OfferAll(st, SplitClosed(f1 + f2)) == OfferAll(st, SplitClosed(f2))
  {
    hide Offer;
    hide Trim, Find;
    EmptyOfferIsIdle(st);
    TrimBlank(f1);
    OfferOne(st, []);
    if HasMarker(f2) {
      SplitSkips(f1, f2);
    } else {
      TrimSkipsBlank(f1, f2);
      if f2 == [] { TrimBlank(f2); }
    }
  }

  lemma OfferOne(st: State, candidate: seq<byte>)
    ensures OfferAll(st, [candidate]) == Offer(st, candidate)
  {
    assert OfferAll(Offer(st, candidate), [candidate][1..]) == Offer(st, candidate);
  }

  /** The first frame stops where an event stops: an open object has met its line end, every payload too. */
  predicate AtBoundary(st: State, frame: seq<byte>) {
    if st.pending == [] then EndsEvent(frame)
    else
      match Find(frame, MARKER)
      case None => frame == [] || IsAsciiSpace(frame[|frame| - 1])
      case Some(start) => EndsEvent(frame[start..])
  }

  /** Two frames that meet between events act like one frame. */
  lemma Batching(st: State, f1: seq<byte>, f2: seq<byte>)
    requires Inv(st) && AtBoundary(st, f1)
    requires f2 == [] || StartsEvent(f2) || (st.pending == [] && Push(st, f1).pending == [])
    ensures Push(Push(st, f1), f2) == Push(st, f1 + f2)
  {
    hide Offer;
    var mid := Push(st, f1);
    assert Push(mid, f2) == OfferAll(mid, SplitClosed(f2)) by { PushAtMarker(mid, f2); }
    if st.pending == [] {
      SplitAtBoundary(st, f1, f2);
    } else if f1 == [] {
      assert f1 + f2 == f2;
    } else if f2 == [] {
      assert f1 + f2 == f1;
    } else {
      OpenBatching(st, f1, f2);
    }
  }

  lemma PushAtMarker(st: State, frame: seq<byte>)
    requires frame == [] || StartsEvent(frame) || st.pending == []
    ensures Push(st, frame) == OfferAll(st, SplitClosed(frame))
  {
    if frame != [] && st.pending != [] {
      FindIs(frame, MARKER, 0);
      SplitOpen(frame);
      assert frame[0..] == frame && [] + SplitClosed(frame) == SplitClosed(frame);
    }
  }

  /** Bytes in front of the first marker, which continue an open object. */
  function Head(frame: seq<byte>): (k: nat)
    ensures k <= |frame|
  {
    var marker := Find(frame, MARKER);
    if marker.Some? then marker.value else |frame|
  }

  function Continued(st: State, head: seq<byte>): State {
    if head == [] then st else Offer(st, head)
  }

  lemma PushOpen(st: State, frame: seq<byte>)
    requires st.pending != [] && frame != []
    ensures Push(st, frame) == OfferAll(Continued(st, frame[..Head(frame)]), SplitClosed(frame[Head(frame)..]))
  {
    hide Offer;
    var k := Head(frame);
    SplitOpen(frame);
    if k == 0 {
      assert [] + SplitClosed(frame[k..]) == SplitClosed(frame[k..]);
    } else {
      OfferOne(st, frame[..k]);
      OfferAllAppend(st, [frame[..k]], SplitClosed(frame[k..]));
    }
  }

  lemma HeadOfJoined(f1: seq<byte>, f2: seq<byte>)
    requires f1 != [] && StartsEvent(f2)
    requires match Find(f1, MARKER)
             case None => IsAsciiSpace(f1[|f1| - 1])
             case Some(start) => EndsEvent(f1[start..])
    ensures Head(f1 + f2) == Head(f1)
  {
    hide EndsEvent, Find;
    FindIs(f2, MARKER, 0);
    if HasMarker(f1) {
      var rest := f1[Head(f1)..];
      EndsEventIsClean(rest);
      assert rest[|rest| - 1] == f1[|f1| - 1];
    }
    FindMarkerJoin(f1, f2);
  }

  lemma OpenBatching(st: State, f1: seq<byte>, f2: seq<byte>)
    requires Inv(st) && AtBoundary(st, f1) && st.pending != [] && f1 != [] && StartsEvent(f2)
    ensures Push(st, f1 + f2) == OfferAll(Push(st, f1), SplitClosed(f2))
  {
    hide Push, OfferAll, SplitClosed, Find, EndsEvent, Classify;
    HeadOfJoined(f1, f2);
    var k := Head(f1);
    var head, rest := f1[..k], f1[k..];
    assert (f1 + f2)[..k] == head && (f1 + f2)[k..] == rest + f2;
    PushOpen(st, f1);
    PushOpen(st, f1 + f2);
    OfferKeepsInv(st, head);
    if HasMarker(f1) {
      SplitAtBoundary(Continued(st, head), rest, f2);
    } else {
      assert rest + f2 == f2;
      NothingLeft(Continued(st, head));
    }
  }

  lemma NothingLeft(st: State)
    ensures OfferAll(st, SplitClosed([])) == st
  {
  }
}
