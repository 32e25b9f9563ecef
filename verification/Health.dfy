/** Upstream health: the recorded state, the log lines of its changes, and the readiness verdict. */
module Health {
  /** The outcome of one probe; latency, time and message play no part here. */
  type Healthy = bool

  /** A finished probe task, or one that panicked. */
  datatype Completion = Finished(name: string, healthy: Healthy) | Lost

  /** A line at info (healthy) or warn (unhealthy) level. */
  datatype Line = Line(name: string, healthy: Healthy)

  datatype Trace = Trace(known: map<string, Healthy>, lines: seq<Line>)

  const UNPROBED := Trace(map[], [])

  /** Log a change, or a first result, then record. */
  function Completed(t: Trace, c: Completion): Trace {
    match c
    case Lost => t
    case Finished(name, healthy) =>
      var changed := name !in t.known || t.known[name] != healthy;
      Trace(t.known[name := healthy], t.lines + if changed then [Line(name, healthy)] else [])
  }

  function AllCompleted(t: Trace, cs: seq<Completion>): Trace {
    if cs == [] then t else Completed(AllCompleted(t, cs[..|cs| - 1]), cs[|cs| - 1])
  }

  function Ready(names: seq<string>, known: map<string, Healthy>): bool {
    forall i | 0 <= i < |names| && names[i] in known :: known[names[i]]
  }

  datatype Status = Up | Down | Unchecked

  class HealthState {
    const names: seq<string>
    var upstreams: map<string, Healthy>

    constructor (names: seq<string>)
      ensures this.names == names && upstreams == map[]
    {
      this.names := names;
      upstreams := map[];
    }

    method Record(name: string, healthy: Healthy)
      modifies this
      ensures upstreams == old(upstreams)[name := healthy]
    {
      upstreams := upstreams[name := healthy];
    }

    /** The completions of one pass, in whatever order they come; the lines are those the pass adds. */
    method ProbePass(completions: seq<Completion>) returns (lines: seq<Line>)
      modifies this
      ensures forall before :: Trace(upstreams, before + lines)
                               == AllCompleted(Trace(old(upstreams), before), completions)
    {
      lines := [];
      for n := 0 to |completions|
        invariant forall before :: Trace(upstreams, before + lines)
                                   == AllCompleted(Trace(old(upstreams), before), completions[..n])
      {
        ghost var (was, seen) := (upstreams, lines);
        assert completions[..n + 1][..n] == completions[..n];
        match completions[n] {
          case Lost =>
          case Finished(name, healthy) =>
            if name !in upstreams || upstreams[name] != healthy {
              lines := lines + [Line(name, healthy)];
            }
            Record(name, healthy);
        }
        forall before
          ensures Trace(upstreams, before + lines) == Completed(Trace(was, before + seen), completions[n])
        {
          assert before + (seen + lines[|seen|..]) == before + seen + lines[|seen|..];
        }
      }
      assert completions[..|completions|] == completions;
    }

    /** 200 or 503, and the status of every configured name. */
    method Readyz() returns (ready: bool, statuses: map<string, Status>)
      ensures ready <==> Ready(names, upstreams)
      ensures statuses.Keys == set i | 0 <= i < |names| :: names[i]
      ensures forall i | 0 <= i < |names| ::
                statuses[names[i]] == if names[i] !in upstreams then Unchecked
                                      else if upstreams[names[i]] then Up else Down
    {
      ready, statuses := true, map[];
      for n := 0 to |names|
        invariant ready <==> Ready(names[..n], upstreams)
        invariant statuses.Keys == set i | 0 <= i < n :: names[i]
        invariant forall i | 0 <= i < n ::
                    statuses[names[i]] == if names[i] !in upstreams then Unchecked
                                          else if upstreams[names[i]] then Up else Down
      {
        var name := names[n];
        assert forall i | 0 <= i < n :: names[..n + 1][i] == names[..n][i];
        assert names[..n + 1][n] == name;
        if name in upstreams {
          if upstreams[name] {
            statuses := statuses[name := Up];
          } else {
            ready := false;
            statuses := statuses[name := Down];
          }
        } else {
          statuses := statuses[name := Unchecked];
        }
      }
      assert names[..|names|] == names;
    }
  }

  // ---- what the log says about one upstream ----

  function LinesOf(lines: seq<Line>, name: string): seq<Healthy> {
    if lines == [] then []
    else LinesOf(lines[..|lines| - 1], name)
         + if lines[|lines| - 1].name == name then [lines[|lines| - 1].healthy] else []
  }

  function OutcomesOf(cs: seq<Completion>, name: string): seq<Healthy> {
    if cs == [] then []
    else
      var last := cs[|cs| - 1];
      OutcomesOf(cs[..|cs| - 1], name) + if last.Finished? && last.name == name then [last.healthy] else []
  }

  /** Runs of equal outcomes collapsed to one. */
  function Changes(outcomes: seq<Healthy>): (r: seq<Healthy>)
    ensures r == [] <==> outcomes == []
    ensures r != [] ==> r[|r| - 1] == outcomes[|outcomes| - 1]
  {
    if outcomes == [] then []
    else
      var front, last := Changes(outcomes[..|outcomes| - 1]), outcomes[|outcomes| - 1];
      if front != [] && front[|front| - 1] == last then front else front + [last]
  }

  ghost predicate Alternates(lines: seq<Healthy>) {
    forall i | 0 < i < |lines| :: lines[i - 1] != lines[i]
  }

  lemma {:induction false} ChangesAlternate(outcomes: seq<Healthy>)
    ensures Alternates(Changes(outcomes))
  {
    if outcomes != [] { ChangesAlternate(outcomes[..|outcomes| - 1]); }
  }

  lemma ChangesAppend(outcomes: seq<Healthy>, last: Healthy)
    ensures
      var same := outcomes != [] && outcomes[|outcomes| - 1] == last;
      Changes(outcomes + [last]) == Changes(outcomes) + if same then [] else [last]
  {
    assert (outcomes + [last])[..|outcomes|] == outcomes;
    assert Changes(outcomes) + [] == Changes(outcomes);
  }

  lemma LinesOfAppend(lines: seq<Line>, last: Line, name: string)
    ensures LinesOf(lines + [last], name)
            == LinesOf(lines, name) + if last.name == name then [last.healthy] else []
  {
    assert (lines + [last])[..|lines|] == lines;
  }

  lemma LinesStep(t: Trace, c: Completion, name: string)
    ensures
      var changed := c.Finished? && c.name == name && (name !in t.known || t.known[name] != c.healthy);
      LinesOf(Completed(t, c).lines, name) == LinesOf(t.lines, name) + if changed then [c.healthy] else []
  {
    if c.Finished? {
      LinesOfAppend(t.lines, Line(c.name, c.healthy), name);
      assert t.lines + [] == t.lines;
    }
  }

  lemma LinesOfNothing(name: string)
    ensures LinesOf([], name) == [] && Changes([]) == []
  {
  }

  /**
   Over any number of passes, with completions in any order and tasks lost anywhere: the lines about an upstream are
   its outcomes with repetitions collapsed, and its recorded state is its last outcome.
   */
  lemma {:induction false} LinesAreChanges(cs: seq<Completion>, name: string)
    ensures
      var t := AllCompleted(UNPROBED, cs);
      var outcomes := OutcomesOf(cs, name);
      && LinesOf(t.lines, name) == Changes(outcomes)
      && (name in t.known <==> outcomes != [])
      && (name in t.known ==> t.known[name] == outcomes[|outcomes| - 1])
  {
    hide LinesOf, Changes;
    LinesOfNothing(name);
    if cs != [] {
      var n := |cs| - 1;
      LinesAreChanges(cs[..n], name);
      var before, outcomes := AllCompleted(UNPROBED, cs[..n]), OutcomesOf(cs[..n], name);
      LinesStep(before, cs[n], name);
      if cs[n].Finished? && cs[n].name == name {
        ChangesAppend(outcomes, cs[n].healthy);
      } else {
        assert outcomes + [] == outcomes && Changes(outcomes) + [] == Changes(outcomes);
      }
    }
  }

  /** An upstream's lines alternate between healthy and unhealthy, and the last one is its recorded state. */
  lemma LogMatchesState(cs: seq<Completion>, name: string)
    ensures
      var t := AllCompleted(UNPROBED, cs);
      var lines := LinesOf(t.lines, name);
      && Alternates(lines)
      && (name in t.known <==> lines != [])
      && (name in t.known ==> lines[|lines| - 1] == t.known[name])
  {
    LinesAreChanges(cs, name);
    ChangesAlternate(OutcomesOf(cs, name));
  }

  lemma {:induction false} PassesCompose(t: Trace, a: seq<Completion>, b: seq<Completion>)
    ensures AllCompleted(t, a + b) == AllCompleted(AllCompleted(t, a), b)
  {
    if b == [] {
      assert a + b == a;
    } else {
      assert (a + b)[..|a + b| - 1] == a + b[..|b| - 1];
      PassesCompose(t, a, b[..|b| - 1]);
    }
  }

  /** The verdict is 200 exactly when no configured upstream's latest outcome was unhealthy. */
  lemma ReadyMeansLatestHealthy(names: seq<string>, cs: seq<Completion>)
    ensures Ready(names, AllCompleted(UNPROBED, cs).known)
            <==> forall i | 0 <= i < |names| ::
                   var outcomes := OutcomesOf(cs, names[i]);
                   outcomes == [] || outcomes[|outcomes| - 1]
  {
    forall i | 0 <= i < |names|
      ensures
        var t := AllCompleted(UNPROBED, cs);
        var outcomes := OutcomesOf(cs, names[i]);
        && (names[i] in t.known <==> outcomes != [])
        && (outcomes != [] ==> t.known[names[i]] == outcomes[|outcomes| - 1])
    {
      LinesAreChanges(cs, names[i]);
    }
  }

  /** Reordering the completions of different upstreams changes neither their records nor their lines. */
  lemma OrderBetweenUpstreams(a: seq<Completion>, b: seq<Completion>, name: string)
    requires OutcomesOf(a, name) == OutcomesOf(b, name)
    ensures
      var (s, t) := (AllCompleted(UNPROBED, a), AllCompleted(UNPROBED, b));
      && LinesOf(s.lines, name) == LinesOf(t.lines, name)
      && (name in s.known <==> name in t.known)
      && (name in s.known ==> s.known[name] == t.known[name])
  {
    LinesAreChanges(a, name);
    LinesAreChanges(b, name);
  }
}
