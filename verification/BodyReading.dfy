/** Reading a request body up to a limit. */
module BodyReading {
  import opened Bytes

  datatype Frame = Chunk(data: seq<byte>) | Trailers | Broken

  datatype Result = Read(body: seq<byte>) | TooLarge | BadRequest

  /** Every data chunk of the frames, joined. */
  function Content(frames: seq<Frame>): seq<byte> {
    if frames == [] then []
    else Content(frames[..|frames| - 1]) + if frames[|frames| - 1].Chunk? then frames[|frames| - 1].data else []
  }

  /** Trailers and errors bring nothing, a chunk brings its data, and what comes later stands behind. */
  lemma {:induction false} ContentJoins(a: seq<Frame>, b: seq<Frame>)
    ensures Content(a + b) == Content(a) + Content(b)
    ensures forall data :: Content([Chunk(data)]) == data
    ensures Content([Trailers]) == Content([Broken]) == Content([]) == []
  {
    assert forall f: Frame :: [f][..0] == [];
    if b == [] {
      assert a + b == a;
    } else {
      var n := |b| - 1;
      assert (a + b)[..|a + b| - 1] == a + b[..n] && (a + b)[|a + b| - 1] == b[n];
      ContentJoins(a, b[..n]);
    }
  }

  ghost predicate Sound(frames: seq<Frame>) {
    forall i | 0 <= i < |frames| :: !frames[i].Broken?
  }

  /** The first `n` frames are sound and their content fits: the loop gets past them. */
  ghost predicate Passes(frames: seq<Frame>, n: nat, limit: nat) {
    n <= |frames| && Sound(frames[..n]) && |Content(frames[..n])| <= limit
  }

  /** The result of the loop, by the frame that stops it. */
  ghost predicate IsLoopResult(frames: seq<Frame>, limit: nat, r: Result) {
    match r
    case Read(body) => Passes(frames, |frames|, limit) && body == Content(frames)
    case BadRequest => exists n: nat :: n < |frames| && Passes(frames, n, limit) && frames[n].Broken?
    case TooLarge =>
      exists n: nat :: n < |frames| && Passes(frames, n, limit) && frames[n].Chunk?
                       && |Content(frames[..n + 1])| > limit
  }

  predicate DeclaredTooLarge(declared: Option<nat>, limit: nat) {
    declared.Some? && declared.value > limit
  }

  /** The buffer holds what has been read so far, and never more than the limit. */
  method ReadBody(frames: seq<Frame>, declared: Option<nat>, limit: nat) returns (r: Result)
    ensures DeclaredTooLarge(declared, limit) ==> r == TooLarge
    ensures !DeclaredTooLarge(declared, limit) ==> IsLoopResult(frames, limit, r)
  {
    if declared.Some? && declared.value > limit { return TooLarge; }
    var buffer: seq<byte> := [];
    for n := 0 to |frames|
      invariant buffer == Content(frames[..n]) && |buffer| <= limit
      invariant Passes(frames, n, limit)
    {
      assert frames[..n + 1][..n] == frames[..n];
      match frames[n] {
        case Broken =>
          return BadRequest;
        case Trailers =>
        case Chunk(data) =>
          if |buffer| + |data| > limit { return TooLarge; }
          buffer := buffer + data;
      }
    }
    assert frames[..|frames|] == frames;
    return Read(buffer);
  }

  lemma {:induction false} ContentGrows(frames: seq<Frame>, n: nat)
    requires n <= |frames|
    ensures |Content(frames[..n])| <= |Content(frames)|
  {
    if n < |frames| {
      var front := frames[..|frames| - 1];
      assert front[..n] == frames[..n];
      ContentGrows(front, n);
    } else {
      assert frames[..n] == frames;
    }
  }

  lemma PassesBefore(frames: seq<Frame>, m: nat, n: nat, limit: nat)
    requires m <= n && Passes(frames, n, limit)
    ensures Passes(frames, m, limit)
    ensures m < n ==> !frames[m].Broken? && |Content(frames[..m + 1])| <= limit
  {
    assert frames[..n][..m] == frames[..m];
    assert forall i | 0 <= i < n :: frames[..n][i] == frames[i];
    ContentGrows(frames[..n], m);
    if m < n {
      assert frames[..n][..m + 1] == frames[..m + 1];
      ContentGrows(frames[..n], m + 1);
    }
  }

  /** The stopping frame is unique, so the frames and the limit decide the result. */
  lemma LoopResultIsUnique(frames: seq<Frame>, limit: nat, a: Result, b: Result)
    requires IsLoopResult(frames, limit, a) && IsLoopResult(frames, limit, b)
    ensures a == b
  {
    var m := StopOf(frames, limit, a);
    var n := StopOf(frames, limit, b);
    if m < n { PassesBefore(frames, m, n, limit); }
    if n < m { PassesBefore(frames, n, m, limit); }
  }

  lemma StopOf(frames: seq<Frame>, limit: nat, r: Result) returns (n: nat)
    requires IsLoopResult(frames, limit, r)
    ensures Passes(frames, n, limit) && n <= |frames|
    ensures r.Read? ==> n == |frames|
    ensures r.BadRequest? ==> n < |frames| && frames[n].Broken?
    ensures r.TooLarge? ==> n < |frames| && frames[n].Chunk? && |Content(frames[..n + 1])| > limit
  {
    match r
    case Read(_) =>
      n := |frames|;
    case BadRequest =>
      var k: nat :| k < |frames| && Passes(frames, k, limit) && frames[k].Broken?;
      n := k;
    case TooLarge =>
      var k: nat :| k < |frames| && Passes(frames, k, limit) && frames[k].Chunk?
                    && |Content(frames[..k + 1])| > limit;
      n := k;
  }

  /** Without errors in the stream, the exact content comes back if and only if it fits the limit. */
  lemma ReadExactlyWhatFits(frames: seq<Frame>, limit: nat, r: Result)
    requires Sound(frames) && IsLoopResult(frames, limit, r)
    ensures r == if |Content(frames)| <= limit then Read(Content(frames)) else TooLarge
  {
    assert frames[..|frames|] == frames;
    if |Content(frames)| <= limit {
      assert IsLoopResult(frames, limit, Read(Content(frames)));
      LoopResultIsUnique(frames, limit, r, Read(Content(frames)));
    }
  }

  /** A declared length that is the real one rejects early exactly when the loop would have rejected. */
  lemma EarlyRejectionAgrees(frames: seq<Frame>, limit: nat, r: Result)
    requires Sound(frames) && IsLoopResult(frames, limit, r)
    ensures DeclaredTooLarge(Some(|Content(frames)|), limit) <==> r == TooLarge
  {
    ReadExactlyWhatFits(frames, limit, r);
  }
}
