/** Cutting one response frame into the byte sequences that could start or continue an object. */
module CandidateSplit {
  import opened Bytes

  const MARKER: seq<byte> := [100, 97, 116, 97, 58]  // data:
  const LINE_END: seq<byte> := [NEWLINE]

  predicate HasMarker(data: seq<byte>) {
    Find(data, MARKER).Some?
  }

  /** The bytes behind the marker at `start`, less the one space that may follow the colon. */
  function AfterMarker(rest: seq<byte>, start: nat): (after: seq<byte>)
    requires OccursAt(rest, MARKER, start)
    ensures |after| < |rest|
  {
    var after := rest[start + |MARKER|..];
    if after != [] && after[0] == SPACE then after[1..] else after
  }

  /** The candidates of a frame, or of what is left of one, when nothing is open. */
  function SplitClosed(rest: seq<byte>): seq<seq<byte>>
    decreases |rest|, 0
  {
    if rest == [] then []
    else
      match Find(rest, MARKER)
      case None => [Trim(rest)]
      case Some(start) => SplitPayload(AfterMarker(rest, start))
  }

  /** The payload up to its line end, then whatever follows; without a line end it takes the rest of the frame. */
  function SplitPayload(after: seq<byte>): seq<seq<byte>>
    decreases |after|, 1
  {
    match Find(after, LINE_END)
    case Some(end) => [Trim(after[..end])] + SplitClosed(after[end..])
    case None => [Trim(after)]
  }

  /** With an object open, the bytes before the first marker continue it. */
  function Split(frame: seq<byte>, open: bool): seq<seq<byte>> {
    if !open || frame == [] then SplitClosed(frame)
    else
      match Find(frame, MARKER)
      case None => [frame]
      case Some(start) => (if start == 0 then [] else [frame[..start]]) + SplitClosed(frame[start..])
  }

  lemma SplitUnmarked(rest: seq<byte>)
    requires rest != [] && Find(rest, MARKER).None?
    ensures SplitClosed(rest) == [Trim(rest)]
  {
  }

  lemma SplitMarked(rest: seq<byte>)
    requires Find(rest, MARKER).Some?
    ensures
      var after := AfterMarker(rest, Find(rest, MARKER).value);
      var end := Find(after, LINE_END);
      var length := if end.Some? then end.value else |after|;
      SplitClosed(rest) == [Trim(after[..length])] + SplitClosed(after[length..])
  {
    var after := AfterMarker(rest, Find(rest, MARKER).value);
    if Find(after, LINE_END).None? {
      assert after[..|after|] == after && after[|after|..] == [];
    }
  }

  lemma SplitOpen(frame: seq<byte>)
    requires frame != []
    ensures
      var marker := Find(frame, MARKER);
      var length := if marker.Some? then marker.value else |frame|;
      Split(frame, true) == (if length == 0 then [] else [frame[..length]]) + SplitClosed(frame[length..])
  {
    if Find(frame, MARKER).None? {
      assert frame[..|frame|] == frame && frame[|frame|..] == [];
    }
  }

  // ---- searching joined texts ----

  /** Whitespace on either side of a joint keeps a marker from lying across it. */
  ghost predicate CleanJoint(x: seq<byte>, y: seq<byte>) {
    x == [] || y == [] || IsAsciiSpace(x[|x| - 1]) || IsAsciiSpace(y[0])
  }

  lemma MarkerHasNoSpace(i: nat)
    requires i < |MARKER|
    ensures !IsAsciiSpace(MARKER[i])
  {
  }

  lemma FindMarkerJoin(x: seq<byte>, y: seq<byte>)
    requires CleanJoint(x, y)
    ensures Find(x + y, MARKER)
            == if HasMarker(x) then Find(x, MARKER) else Shift(Find(y, MARKER), |x|)
  {
    hide Find;
    forall k: nat | k < |x| < k + |MARKER| ensures !OccursAt(x + y, MARKER, k) {
      if OccursAt(x + y, MARKER, k) {
        var found := (x + y)[k..k + |MARKER|];
        assert found[|x| - 1 - k] == x[|x| - 1] && found[|x| - k] == y[0];
        MarkerHasNoSpace(|x| - 1 - k);
        MarkerHasNoSpace(|x| - k);
        assert false;
      }
    }
    FindJoin(x, y, MARKER);
  }

  lemma FindNewlineJoin(x: seq<byte>, y: seq<byte>)
    ensures Find(x + y, LINE_END)
            == if Find(x, LINE_END).Some? then Find(x, LINE_END) else Shift(Find(y, LINE_END), |x|)
  {
    hide Find;
    FindJoin(x, y, LINE_END);
  }

  lemma AfterMarkerJoin(x: seq<byte>, y: seq<byte>, start: nat)
    requires OccursAt(x, MARKER, start)
    requires start + |MARKER| < |x| || (y != [] ==> y[0] != SPACE)
    ensures OccursAt(x + y, MARKER, start)
    ensures AfterMarker(x + y, start) == AfterMarker(x, start) + y
  {
    hide Find;
    OccursJoin(x, y, MARKER, start);
    assert (x + y)[start + |MARKER|..] == x[start + |MARKER|..] + y;
  }

  /** Text before the first marker is dropped. */
  lemma SplitSkips(x: seq<byte>, y: seq<byte>)
    requires HasMarker(y)
    requires Find(x + y, MARKER) == Shift(Find(y, MARKER), |x|)
    ensures SplitClosed(x + y) == SplitClosed(y)
  {
    hide Find, SplitPayload, AfterMarker;
    AfterMarkerShift(x, y, Find(y, MARKER).value);
  }

  lemma AfterMarkerShift(x: seq<byte>, y: seq<byte>, k: nat)
    requires OccursAt(y, MARKER, k)
    ensures OccursAt(x + y, MARKER, |x| + k)
    ensures AfterMarker(x + y, |x| + k) == AfterMarker(y, k)
  {
    OccursJoin(x, y, MARKER, |x| + k);
    assert (x + y)[|x| + k + |MARKER|..] == y[k + |MARKER|..];
  }

  /** A marked line at the front is one candidate, and the split goes on at its line end. */
  lemma SplitLine(line: seq<byte>, tail: seq<byte>)
    requires HasMarker(line) && Find(line, LINE_END).None?
    requires tail != [] ==> tail[0] == NEWLINE
    ensures SplitClosed(line + tail) == [Payload(line)] + SplitClosed(tail)
  {
    hide Find, Trim;
    FindMarkerJoin(line, tail);
    var k := Find(line, MARKER).value;
    AfterMarkerJoin(line, tail, k);
    var after := AfterMarker(line, k);
    AfterMarkerIsSuffix(line, k);
    var front := line[..|line| - |after|];
    assert line == front + after;
    FindNewlineJoin(front, after);
    FindNewlineJoin(after, tail);
    if tail != [] { FindIs(tail, LINE_END, 0); }
    SplitMarked(line + tail);
    assert (after + tail)[..|after|] == after;
    assert (after + tail)[|after|..] == tail;
    if tail == [] { assert after + tail == after; }
  }

  lemma AfterMarkerIsSuffix(line: seq<byte>, start: nat)
    requires OccursAt(line, MARKER, start)
    ensures
      var after := AfterMarker(line, start);
      line[|line| - |after|..] == after
  {
  }

  // ---- the line-oriented reference ----

  /** The lines of a text, without their line ends. */
  function Lines(data: seq<byte>): (lines: seq<seq<byte>>)
    ensures lines != []
    decreases |data|
  {
    match Find(data, LINE_END)
    case None => [data]
    case Some(end) => [data[..end]] + Lines(data[end + 1..])
  }

  function JoinLines(lines: seq<seq<byte>>): seq<byte>
    requires lines != []
  {
    if |lines| == 1 then lines[0] else lines[0] + LINE_END + JoinLines(lines[1..])
  }

  lemma {:induction false} JoinLinesOfLines(data: seq<byte>)
    ensures JoinLines(Lines(data)) == data
    decreases |data|
  {
    var f := Find(data, LINE_END);
    if f.Some? {
      JoinLinesOfLines(data[f.value + 1..]);
      assert data[f.value] == data[f.value..f.value + 1][0];
      assert data == data[..f.value] + LINE_END + data[f.value + 1..];
      assert Lines(data)[1..] == Lines(data[f.value + 1..]);
    }
  }

  /** The event payload of a marked line. */
  function Payload(line: seq<byte>): seq<byte>
    requires HasMarker(line)
  {
    Trim(AfterMarker(line, Find(line, MARKER).value))
  }

  predicate AnyMarked(lines: seq<seq<byte>>) {
    exists i | 0 <= i < |lines| :: HasMarker(lines[i])
  }

  /**
   Line by line: every marked line yields its payload, lines in between are dropped, and lines after the last
   marked one are taken together as a plain body.
   */
  function PayloadsOf(lines: seq<seq<byte>>): seq<seq<byte>>
    requires lines != []
  {
    if !AnyMarked(lines) then [Trim(JoinLines(lines))]
    else if !HasMarker(lines[0]) then PayloadsOf(lines[1..])
    else [Payload(lines[0])] + if |lines| == 1 then [] else PayloadsOf(lines[1..])
  }

  /** The newline at `end` cuts the text into a line and the rest, and no marker lies across it. */
  lemma FirstLine(data: seq<byte>) returns (line: seq<byte>, rest: seq<byte>)
    requires Find(data, LINE_END).Some?
    ensures data == line + (LINE_END + rest) && Find(line, LINE_END).None?
    ensures Lines(data) == [line] + Lines(rest)
    ensures HasMarker(line) ==> HasMarker(data)
    ensures !HasMarker(line) ==> HasMarker(data) == HasMarker(rest) == HasMarker(LINE_END + rest)
    ensures !HasMarker(line) ==> Find(data, MARKER) == Shift(Find(LINE_END + rest, MARKER), |line|)
  {
    hide FindFrom;
    var end := Find(data, LINE_END).value;
    line, rest := data[..end], data[end + 1..];
    assert data[end] == data[end..end + 1][0];
    assert data == line + (LINE_END + rest);
    FindNewlineJoin(line, LINE_END + rest);
    FindMarkerJoin(line, LINE_END + rest);
    FindMarkerJoin(LINE_END, rest);
  }

  lemma AnyMarkedSplit(line: seq<byte>, lines: seq<seq<byte>>)
    ensures AnyMarked([line] + lines) <==> HasMarker(line) || AnyMarked(lines)
  {
    var all := [line] + lines;
    if AnyMarked(lines) {
      var i :| 0 <= i < |lines| && HasMarker(lines[i]);
      assert all[i + 1] == lines[i];
    }
    if HasMarker(line) { assert all[0] == line; }
  }

  lemma {:induction false} MarkedLine(data: seq<byte>)
    ensures HasMarker(data) <==> AnyMarked(Lines(data))
    decreases |data|
  {
    if Find(data, LINE_END).Some? {
      var line, rest := FirstLine(data);
      MarkedLine(rest);
      AnyMarkedSplit(line, Lines(rest));
    } else {
      assert Lines(data)[0] == data;
    }
  }

  lemma TrimDropsNewline(x: seq<byte>)
    ensures Trim(LINE_END + x) == Trim(x)
  {
    assert (LINE_END + x)[1..] == x;
  }

  /** The split of a nonempty frame is the line-oriented one, with or without a line end in front. */
  lemma {:induction false} SplitIsByLine(data: seq<byte>)
    ensures SplitClosed(LINE_END + data) == PayloadsOf(Lines(data))
    ensures data != [] ==> SplitClosed(data) == PayloadsOf(Lines(data))
    decreases |data|
  {
    MarkedLine(data);
    FindMarkerJoin(LINE_END, data);
    if HasMarker(data) {
      SplitSkips(LINE_END, data);
      MarkedSplitIsByLine(data);
    } else {
      JoinLinesOfLines(data);
      TrimDropsNewline(data);
      SplitUnmarked(LINE_END + data);
    }
  }

  lemma {:induction false} MarkedSplitIsByLine(data: seq<byte>)
    requires HasMarker(data)
    ensures SplitClosed(data) == PayloadsOf(Lines(data))
    decreases |data|, 0
  {
    MarkedLine(data);
    if Find(data, LINE_END).None? {
      SplitLine(data, []);
      assert data + [] == data;
    } else {
      var line, rest := FirstLine(data);
      assert Lines(data)[1..] == Lines(rest);
      SplitIsByLine(rest);
      if HasMarker(line) {
        SplitLine(line, LINE_END + rest);
      } else {
        SplitSkips(line, LINE_END + rest);
      }
    }
  }

  // ---- frames that end at an event boundary ----

  /** Every payload of the frame has its line end, and nothing but whitespace follows the last one. */
  predicate EndsEvent(frame: seq<byte>)
    decreases |frame|
  {
    match Find(frame, MARKER)
    case None => Blank(frame)
    case Some(start) =>
      var after := AfterMarker(frame, start);
      match Find(after, LINE_END)
      case None => false
      case Some(end) => EndsEvent(after[end..])
  }

  predicate StartsEvent(frame: seq<byte>) {
    OccursAt(frame, MARKER, 0)
  }

  lemma {:induction false} EndsEventIsClean(frame: seq<byte>)
    requires EndsEvent(frame) && frame != []
    ensures IsAsciiSpace(frame[|frame| - 1])
    decreases |frame|
  {
    hide Find, AfterMarker;
    var marker := Find(frame, MARKER);
    if marker.Some? {
      var after := AfterMarker(frame, marker.value);
      AfterMarkerIsSuffix(frame, marker.value);
      var rest := after[Find(after, LINE_END).value..];
      EndsEventIsClean(rest);
      assert rest[|rest| - 1] == after[|after| - 1] == frame[|frame| - 1];
    }
  }

  // ---- candidates are slices of their frame ----

  /** The items are slices of `data`, in order and without overlap. */
  ghost predicate InOrder(items: seq<seq<byte>>, data: seq<byte>)
    decreases |items|, 1
  {
    items == [] || exists lo: nat, hi: nat :: HeadAt(items, data, lo, hi)
  }

  ghost predicate HeadAt(items: seq<seq<byte>>, data: seq<byte>, lo: nat, hi: nat)
    requires items != []
    decreases |items|, 0
  {
    lo <= hi <= |data| && items[0] == data[lo..hi] && InOrder(items[1..], data[hi..])
  }

  lemma InOrderNothing(data: seq<byte>)
    ensures InOrder([], data)
  {
  }

  lemma InOrderLater(items: seq<seq<byte>>, data: seq<byte>, from: nat)
    requires from <= |data| && InOrder(items, data[from..])
    ensures InOrder(items, data)
  {
    if items != [] {
      var tail := data[from..];
      var lo: nat, hi: nat :| HeadAt(items, tail, lo, hi);
      assert data[from + lo..from + hi] == tail[lo..hi];
      assert data[from + hi..] == tail[hi..];
      assert HeadAt(items, data, from + lo, from + hi);
    }
  }

  lemma {:induction false} InOrderLength(items: seq<seq<byte>>, data: seq<byte>)
    requires InOrder(items, data)
    ensures |Flatten(items)| <= |data|
  {
    if items != [] {
      var lo: nat, hi: nat :| HeadAt(items, data, lo, hi);
      InOrderLength(items[1..], data[hi..]);
    }
  }

  lemma InOrderCons(item: seq<byte>, more: seq<seq<byte>>, data: seq<byte>, lo: nat, hi: nat)
    requires lo <= hi <= |data| && item == data[lo..hi] && InOrder(more, data[hi..])
    ensures InOrder([item] + more, data)
  {
    assert ([item] + more)[1..] == more;
    assert HeadAt([item] + more, data, lo, hi);
  }

  /** A slice of a slice in front of later slices. */
  lemma InOrderInner(data: seq<byte>, lo: nat, hi: nat, a: nat, b: nat, more: seq<seq<byte>>)
    requires lo <= hi <= |data| && a <= b <= hi - lo && InOrder(more, data[hi..])
    ensures InOrder([data[lo..hi][a..b]] + more, data)
  {
    hide InOrder, HeadAt;
    SliceSlice(data, lo, hi, a, b);
    DropDrop(data, lo + b, hi - lo - b);
    InOrderLater(more, data[lo + b..], hi - lo - b);
    InOrderCons(data[lo..hi][a..b], more, data, lo + a, lo + b);
  }

  lemma InOrderLine(rest: seq<byte>, lo: nat, length: nat, a: nat, b: nat, more: seq<seq<byte>>)
    requires lo + length <= |rest| && a <= b <= length
    requires InOrder(more, rest[lo..][length..])
    ensures InOrder([rest[lo..][..length][a..b]] + more, rest)
  {
    hide InOrder, HeadAt;
    DropTake(rest, lo, length);
    DropDrop(rest, lo, length);
    InOrderInner(rest, lo, lo + length, a, b, more);
  }

  /** Every candidate is a slice of the frame; they come in order and do not overlap. */
  lemma {:induction false} SplitClosedInOrder(rest: seq<byte>)
    ensures InOrder(SplitClosed(rest), rest)
    decreases |rest|
  {
    hide InOrder, HeadAt, Find, Trim, AfterMarker;
    if rest == [] {
      InOrderNothing(rest);
    } else {
      var marker := Find(rest, MARKER);
      if marker.None? {
        var a, b := TrimIsSlice(rest);
        SplitUnmarked(rest);
        assert rest[0..][..|rest|] == rest;
        InOrderNothing([]);
        assert rest[0..][|rest|..] == [];
        InOrderLine(rest, 0, |rest|, a, b, []);
        assert [Trim(rest)] + [] == [Trim(rest)];
      } else {
        var after := AfterMarker(rest, marker.value);
        AfterMarkerIsSuffix(rest, marker.value);
        var end := Find(after, LINE_END);
        var length := if end.Some? then end.value else |after|;
        SplitMarked(rest);
        var a, b := TrimIsSlice(after[..length]);
        SplitClosedInOrder(after[length..]);
        InOrderLine(rest, |rest| - |after|, length, a, b, SplitClosed(after[length..]));
      }
    }
  }

  lemma SplitInOrder(frame: seq<byte>, open: bool)
    ensures InOrder(Split(frame, open), frame)
    ensures |Flatten(Split(frame, open))| <= |frame|
  {
    if open && frame != [] {
      SplitOpen(frame);
      var marker := Find(frame, MARKER);
      var length := if marker.Some? then marker.value else |frame|;
      SplitClosedInOrder(frame[length..]);
      if length == 0 {
        assert frame[0..] == frame;
        assert [] + SplitClosed(frame) == SplitClosed(frame);
      } else {
        InOrderCons(frame[0..length], SplitClosed(frame[length..]), frame, 0, length);
      }
    } else {
      SplitClosedInOrder(frame);
    }
    InOrderLength(Split(frame, open), frame);
  }

  class Candidates {
    var rest: seq<byte>
    var open: bool

    /** What the iterator still has to yield. */
    function Remaining(): seq<seq<byte>>
      reads this
    {
      Split(rest, open)
    }

    constructor (frame: seq<byte>, open: bool)
      ensures rest == frame && this.open == open
      ensures Remaining() == Split(frame, open)
    {
      this.rest := frame;
      this.open := open;
    }

    /** Consume `length` bytes off the front and return them. */
    method Take(length: nat) returns (head: seq<byte>)
      requires length <= |rest|
      modifies this`rest
      ensures head == old(rest)[..length] && rest == old(rest)[length..]
    {
      head := rest[..length];
      rest := rest[length..];
    }

    /** The step once nothing is open: the next marked line, or the whole rest when there is no marker. */
    method NextPayload() returns (item: seq<byte>)
      requires !open && rest != []
      modifies this`rest
      ensures SplitClosed(old(rest)) == [item] + SplitClosed(rest)
      ensures |rest| < |old(rest)|
    {
      var marker := Find(rest, MARKER);
      if marker.Some? {
        SplitMarked(rest);
        var _ := Take(marker.value + |MARKER|);
        if rest != [] && rest[0] == SPACE {
          var _ := Take(1);
        }
        assert rest == AfterMarker(old(rest), marker.value);
        var newline := Find(rest, LINE_END);
        var line := Take(if newline.Some? then newline.value else |rest|);
        item := TrimSlice(line);
      } else {
        SplitUnmarked(rest);
        var all := Take(|rest|);
        assert all == old(rest);
        item := TrimSlice(all);
      }
    }

    method Next() returns (item: Option<seq<byte>>)
      modifies this
      ensures item.None? <==> old(Remaining()) == []
      ensures item.Some? ==> old(Remaining()) == [item.value] + Remaining()
      ensures item.Some? ==> |rest| < |old(rest)|
      ensures item.None? ==> Remaining() == []
    {
      if rest == [] { return None; }
      if open {
        open := false;
        SplitOpen(rest);
        var marker := Find(rest, MARKER);
        var head := Take(if marker.Some? then marker.value else |rest|);
        if head != [] { return Some(head); }
      }
      var payload := NextPayload();
      return Some(payload);
    }
  }
}
