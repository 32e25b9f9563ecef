/**
 The metered response body: every data frame handed to the client is counted and scanned, and one log line is
 written when the body is dropped, whenever that is.
 */
module Metering {
  import opened Bytes
  import opened TokenUsages
  import opened UsageScanning
  import opened Feeding
  import opened Events
  import opened Chunking
  import opened PlainBodies

  /** What one poll of the inner body brings. */
  datatype Poll = Pending | Data(data: seq<byte>) | Trailers | Failed | End

  datatype LogLine = LogLine(responseBytes: nat, aborted: bool, usage: Option<TokenUsage>)

  // ---- the meter as a state machine ----

  /** `sink` is what the observer has published; `armed` says that the report is still to come. */
  datatype Meter = Meter(
    bytes: nat,
    finished: bool,
    scan: State,
    sink: Option<TokenUsage>,
    armed: bool,
    lines: seq<LogLine>)

  const FRESH := Meter(0, false, EMPTY, None, true, [])

  function Polled(m: Meter, observed: bool, poll: Poll): Meter {
    match poll
    case Data(data) =>
      var scan := if observed then Push(m.scan, data) else m.scan;
      m.(bytes := m.bytes + |data|, scan := scan, sink := if observed then scan.usage else m.sink)
    case End => m.(finished := true)
    case _ => m
  }

  predicate IsComplete(m: Meter, announced: Option<nat>) {
    m.finished || announced == Some(m.bytes)
  }

  function Dropped(m: Meter, announced: Option<nat>): Meter {
    if m.armed then
      m.(armed := false, lines := m.lines + [LogLine(m.bytes, !IsComplete(m, announced), m.sink)])
    else m
  }

  function Run(m: Meter, observed: bool, polls: seq<Poll>): Meter
    decreases |polls|
  {
    if polls == [] then m else Run(Polled(m, observed, polls[0]), observed, polls[1..])
  }

  // ---- the objects ----

  /** The handle shared by the observer and the report. */
  class Sink {
    var usage: Option<TokenUsage>

    constructor ()
      ensures usage == None
    {
      usage := None;
    }
  }

  class RequestLog {
    var usage: Option<TokenUsage>
    var lines: seq<LogLine>

    constructor ()
      ensures usage == None && lines == []
    {
      usage := None;
      lines := [];
    }

    method Finish(responseBytes: nat, aborted: bool)
      modifies this`lines
      ensures lines == old(lines) + [LogLine(responseBytes, aborted, usage)]
    {
      lines := lines + [LogLine(responseBytes, aborted, usage)];
    }
  }

  /** The callback that runs once, when the body is dropped. */
  class Report {
    const sink: Sink?
    const log: RequestLog

    constructor (sink: Sink?, log: RequestLog)
      ensures this.sink == sink && this.log == log
    {
      this.sink := sink;
      this.log := log;
    }

    method Call(bytes: nat, aborted: bool)
      modifies log
      ensures log.usage == if sink != null && sink.usage.Some? then sink.usage else old(log.usage)
      ensures log.lines == old(log.lines) + [LogLine(bytes, aborted, log.usage)]
    {
      if sink != null && sink.usage.Some? {
        log.usage := sink.usage;
      }
      log.Finish(bytes, aborted);
    }
  }

  class UsageObserver {
    const scanner: UsageScanner
    const sink: Sink
    var usage: Option<TokenUsage>

    constructor ()
      ensures Scan() == EMPTY && sink.usage == None
      ensures fresh(scanner) && fresh(sink)
    {
      var scanner := new UsageScanner();
      var sink := new Sink();
      this.scanner := scanner;
      this.sink := sink;
      usage := None;
    }

    function Scan(): State
      reads this, scanner
    {
      State(scanner.pending, usage)
    }

    /** Feed the scanner, then publish what it holds. */
    method Observe(frame: seq<byte>)
      modifies this, scanner, sink
      ensures Scan() == Push(old(Scan()), frame)
      ensures sink.usage == Scan().usage
    {
      usage := scanner.PushFrame(frame, usage);
      sink.usage := usage;
    }
  }

  class MeteredBody {
    const announced: Option<nat>
    const observer: UsageObserver?
    const callback: Report
    var report: Report?
    var bytes: nat
    var finished: bool

    /** The wiring of `handle`: the report reads the observer's own sink, and its log has nothing in it yet. */
    constructor (announced: Option<nat>, observer: UsageObserver?, callback: Report)
      requires callback.sink == if observer == null then null else observer.sink
      requires callback.log.usage == None && callback.log.lines == []
      requires observer != null ==> observer.Scan() == EMPTY && observer.sink.usage == None
      ensures Valid() && Abstract() == FRESH
      ensures this.announced == announced && this.observer == observer && this.callback == callback
    {
      this.announced := announced;
      this.observer := observer;
      this.callback := callback;
      report := callback;
      bytes := 0;
      finished := false;
    }

    ghost function Parts(): set<object>
      reads this
    {
      {this, callback.log}
      + (if observer == null then {} else {observer, observer.scanner, observer.sink})
    }

    ghost predicate Valid()
      reads this, Parts()
    {
      && callback.sink == (if observer == null then null else observer.sink)
      && (report == callback || report == null)
      && (report == callback ==> callback.log.usage == None)
    }

    ghost function Abstract(): Meter
      reads this, Parts()
    {
      Meter(bytes, finished,
            if observer == null then EMPTY else observer.Scan(),
            if observer == null then None else observer.sink.usage,
            report != null,
            callback.log.lines)
    }

    /** Hand one poll on to the client, untouched, after counting and scanning its data. */
    method PollFrame(poll: Poll) returns (result: Poll)
      requires Valid()
      modifies Parts()
      ensures Valid() && Parts() == old(Parts())
      ensures result == poll
      ensures Abstract() == Polled(old(Abstract()), observer != null, poll)
    {
      match poll {
        case Data(data) =>
          bytes := bytes + |data|;
          if observer != null { observer.Observe(data); }
        case End =>
          finished := true;
        case _ =>
      }
      result := poll;
    }

    /** The destructor takes the report, so it cannot run a second time. */
    method Drop()
      requires Valid()
      modifies Parts()
      ensures Valid() && Parts() == old(Parts())
      ensures Abstract() == Dropped(old(Abstract()), announced)
    {
      if report != null {
        var taken := report;
        report := null;
        taken.Call(bytes, !(finished || announced == Some(bytes)));
      }
    }
  }

  // ---- whole runs ----

  /** The data frames of a run, in order. */
  function DataFrames(polls: seq<Poll>): seq<seq<byte>> {
    if polls == [] then []
    else (if polls[0].Data? then [polls[0].data] else []) + DataFrames(polls[1..])
  }

  lemma {:induction false} RunIs(m: Meter, observed: bool, polls: seq<Poll>)
    ensures
      var r := Run(m, observed, polls);
      && r.bytes == m.bytes + |Flatten(DataFrames(polls))|
      && r.finished == (m.finished || End in polls)
      && r.scan == (if observed then PushAll(m.scan, DataFrames(polls)) else m.scan)
      && r.armed == m.armed && r.lines == m.lines
      && (observed && m.sink == m.scan.usage ==> r.sink == r.scan.usage)
      && (!observed ==> r.sink == m.sink)
    decreases |polls|
  {
    hide Push;
    if polls != [] {
      var next := Polled(m, observed, polls[0]);
      var rest := polls[1..];
      RunIs(next, observed, rest);
      assert polls == [polls[0]] + rest;
      if polls[0].Data? {
        assert DataFrames(polls)[1..] == DataFrames(rest);
      } else {
        assert [] + DataFrames(rest) == DataFrames(rest);
      }
    }
  }

  /** The usage the scanner draws from the frames of a run, or nothing when the body is not observed. */
  function ScannedUsage(observed: bool, frames: seq<seq<byte>>): Option<TokenUsage> {
    if observed then PushAll(EMPTY, frames).usage else None
  }

  /**
   For every run of polls, dropped at any point: nothing is logged before the drop, the drop logs exactly one line,
   and dropping again logs no more. The line counts the bytes of the data frames handed out and holds the scanner's
   usage of exactly those frames; it says `aborted` unless the end was polled or every announced byte went out.
   */
  lemma DropReportsOnce(observed: bool, announced: Option<nat>, polls: seq<Poll>)
    ensures Run(FRESH, observed, polls).lines == []
    ensures
      var frames := DataFrames(polls);
      var total := |Flatten(frames)|;
      var aborted := !(End in polls || announced == Some(total));
      Dropped(Run(FRESH, observed, polls), announced).lines
      == [LogLine(total, aborted, ScannedUsage(observed, frames))]
    ensures
      var dropped := Dropped(Run(FRESH, observed, polls), announced);
      Dropped(dropped, announced) == dropped
  {
    hide Push, PushAll;
    RunIs(FRESH, observed, polls);
  }

  /**
   End to end for a streamed response that may break off: however its events were cut into frames, the one line
   logged carries the merged usage of the usable payloads that arrived in full.
   */
  lemma StreamedResponseIsLogged(blocks: seq<Block>, unsent: seq<byte>, announced: Option<nat>, polls: seq<Poll>)
    requires AllWellFormed(blocks)
    requires Flatten(DataFrames(polls)) + unsent == Stream(blocks)
    requires CutsAllowed(blocks, 0, DataFrames(polls))
    ensures
      var sent := |Stream(blocks)| - |unsent|;
      var lines := Dropped(Run(FRESH, true, polls), announced).lines;
      && |lines| == 1 && lines[0].responseBytes == sent
      && lines[0].usage == MergeAll(None, UsagesIn(blocks[..Delivered(blocks, sent)]))
  {
    hide PushAll, CutsAllowed, Stream, UsagesIn, MergeAll, Run, Delivered, Arrived, WellFormed;
    DropReportsOnce(true, announced, polls);
    SsePrefix(blocks, DataFrames(polls), unsent);
  }

  /** End to end for a buffered response. */
  lemma BufferedResponseIsLogged(lead: seq<byte>, text: seq<byte>, tail: seq<byte>, announced: Option<nat>,
                                 polls: seq<Poll>)
    requires IsBody(lead, text, tail)
    requires Flatten(DataFrames(polls)) == lead + text + tail
    requires PlainCuts(|lead|, text, 0, DataFrames(polls))
    ensures
      var lines := Dropped(Run(FRESH, true, polls), announced).lines;
      |lines| == 1 && lines[0].responseBytes == |lead + text + tail| && lines[0].usage == UsageOf(text)
  {
    hide PushAll, Push, Run, UsageOf, PlainCuts, IsBody;
    DropReportsOnce(true, announced, polls);
    PlainChunkIndependence(lead, text, tail, DataFrames(polls));
  }

  /** However two frame sequences cut the same stream, the same usage is logged. */
  lemma SameStreamSameUsage(blocks: seq<Block>, announced: Option<nat>, first: seq<Poll>, second: seq<Poll>)
    requires AllWellFormed(blocks)
    requires Flatten(DataFrames(first)) == Flatten(DataFrames(second)) == Stream(blocks)
    requires CutsAllowed(blocks, 0, DataFrames(first)) && CutsAllowed(blocks, 0, DataFrames(second))
    ensures
      var a := Dropped(Run(FRESH, true, first), announced).lines;
      var b := Dropped(Run(FRESH, true, second), announced).lines;
      |a| == |b| == 1 && a[0].usage == b[0].usage && a[0].responseBytes == b[0].responseBytes
  {
    hide PushAll, CutsAllowed, Stream, Run, WellFormed;
    DropReportsOnce(true, announced, first);
    DropReportsOnce(true, announced, second);
    SseChunkIndependence(blocks, DataFrames(first));
    SseChunkIndependence(blocks, DataFrames(second));
  }
}
