/** The token counters of a response and the rule that keeps the most complete ones. */
module TokenUsages {
  import opened Bytes

  const TWO_TO_THE_64 := 0x1_0000_0000_0000_0000
  type u64 = x: int | 0 <= x < TWO_TO_THE_64

  datatype TokenUsage = TokenUsage(
    prompt: Option<u64>,
    completion: Option<u64>,
    total: Option<u64>,
    reasoning: Option<u64>,
    cached: Option<u64>)

  datatype TokenDetails = TokenDetails(cached: Option<u64>, reasoning: Option<u64>)

  datatype UsageBody = UsageBody(
    prompt: Option<u64>,
    completion: Option<u64>,
    total: Option<u64>,
    promptDetails: TokenDetails,
    completionDetails: TokenDetails)

  const NO_DETAILS := TokenDetails(None, None)
  const NO_USAGE := UsageBody(None, None, None, NO_DETAILS, NO_DETAILS)

  /** A missing total is the sum of the two halves, in 64-bit arithmetic that wraps. */
  function Total(body: UsageBody): Option<u64> {
    if body.total.Some? then body.total
    else if body.prompt.Some? && body.completion.Some? then
      Some((body.prompt.value + body.completion.value) % TWO_TO_THE_64)
    else None
  }

  function FromBody(body: UsageBody): TokenUsage {
    TokenUsage(body.prompt, body.completion, Total(body),
               body.completionDetails.reasoning, body.promptDetails.cached)
  }

  /** The derived total is the real sum exactly when the sum fits in 64 bits. */
  lemma DerivedTotal(body: UsageBody)
    requires body.total.None? && body.prompt.Some? && body.completion.Some?
    ensures FromBody(body).total.Some?
    ensures FromBody(body).total.value == body.prompt.value + body.completion.value
            <==> body.prompt.value + body.completion.value < TWO_TO_THE_64
  {
  }

  // ---- completeness ----

  datatype Field = PromptTokens | CompletionTokens | TotalTokens | ReasoningTokens | CachedTokens

  const FIELDS: set<Field> := {PromptTokens, CompletionTokens, TotalTokens, ReasoningTokens, CachedTokens}

  function FieldOf(u: TokenUsage, f: Field): Option<u64> {
    match f
    case PromptTokens => u.prompt
    case CompletionTokens => u.completion
    case TotalTokens => u.total
    case ReasoningTokens => u.reasoning
    case CachedTokens => u.cached
  }

  /** The counters that a usage has. */
  ghost function Given(u: TokenUsage): set<Field> {
    set f | f in FIELDS && FieldOf(u, f).Some?
  }

  function Present(field: Option<u64>): nat {
    if field.Some? then 1 else 0
  }

  function Completeness(u: TokenUsage): (n: nat)
    ensures n <= 5
  {
    Present(u.prompt) + Present(u.completion) + Present(u.total) + Present(u.reasoning) + Present(u.cached)
  }

  lemma GivenIs(u: TokenUsage, f: Field)
    ensures f in Given(u) <==> FieldOf(u, f).Some?
  {
  }

  /** The set of one field, if the usage has it. */
  ghost function Only(u: TokenUsage, f: Field): (only: set<Field>)
    ensures only <= {f}
    ensures |only| == Present(FieldOf(u, f))
  {
    if FieldOf(u, f).Some? then {f} else {}
  }

  lemma DisjointUnion(a: set<Field>, b: set<Field>)
    requires a !! b
    ensures |a + b| == |a| + |b|
  {
  }

  lemma GivenIsUnion(u: TokenUsage)
    ensures Given(u) == Only(u, PromptTokens) + (Only(u, CompletionTokens) + (Only(u, TotalTokens)
                        + (Only(u, ReasoningTokens) + Only(u, CachedTokens))))
  {
    hide Present;
  }

  /** The completeness of a usage is the number of counters it has. */
  lemma CompletenessCounts(u: TokenUsage)
    ensures Completeness(u) == |Given(u)|
  {
    hide Given, Only, Present;
    GivenIsUnion(u);
    var last := Only(u, ReasoningTokens) + Only(u, CachedTokens);
    DisjointUnion(Only(u, ReasoningTokens), Only(u, CachedTokens));
    DisjointUnion(Only(u, TotalTokens), last);
    DisjointUnion(Only(u, CompletionTokens), Only(u, TotalTokens) + last);
    DisjointUnion(Only(u, PromptTokens), Only(u, CompletionTokens) + (Only(u, TotalTokens) + last));
  }

  function Merge(current: Option<TokenUsage>, seen: Option<TokenUsage>): Option<TokenUsage> {
    match (current, seen)
    case (_, None) => current
    case (Some(held), Some(new_)) => if Completeness(held) > Completeness(new_) then current else seen
    case (None, _) => seen
  }

  /** A held usage stays exactly when it has strictly more counters than the new one. */
  lemma MergeKeepsMoreCounters(held: TokenUsage, new_: TokenUsage)
    ensures Merge(Some(held), Some(new_)) == Some(if |Given(held)| > |Given(new_)| then held else new_)
  {
    hide Completeness, Given;
    CompletenessCounts(held);
    CompletenessCounts(new_);
  }

  function MergeAll(current: Option<TokenUsage>, seen: seq<Option<TokenUsage>>): Option<TokenUsage>
    decreases |seen|
  {
    if seen == [] then current else MergeAll(Merge(current, seen[0]), seen[1..])
  }

  /** Absent usage is the identity and merging is associative. */
  lemma MergeIsAMonoid(a: Option<TokenUsage>, b: Option<TokenUsage>, c: Option<TokenUsage>)
    ensures Merge(a, None) == a && Merge(None, a) == a
    ensures Merge(Merge(a, b), c) == Merge(a, Merge(b, c))
  {
  }

  lemma MergeAbsent(u: Option<TokenUsage>)
    ensures Merge(u, None) == u && Merge(None, u) == u
  {
  }

  lemma {:induction false} MergeAllAppend(current: Option<TokenUsage>, a: seq<Option<TokenUsage>>,
                                          b: seq<Option<TokenUsage>>)
    ensures MergeAll(current, a + b) == MergeAll(MergeAll(current, a), b)
    decreases |a|
  {
    if a == [] {
      assert a + b == b;
    } else {
      assert (a + b)[1..] == a[1..] + b;
      MergeAllAppend(Merge(current, a[0]), a[1..], b);
    }
  }

  /** Entry `i` holds a usage, none later is at least as complete, and none earlier is more complete. */
  ghost predicate LastMostComplete(seen: seq<Option<TokenUsage>>, i: nat) {
    && i < |seen| && seen[i].Some?
    && (forall k | 0 <= k < |seen| && seen[k].Some? ::
          |Given(seen[k].value)| <= |Given(seen[i].value)|)
    && (forall k | i < k < |seen| && seen[k].Some? ::
          |Given(seen[k].value)| < |Given(seen[i].value)|)
  }

  lemma LastMostCompleteAppend(front: seq<Option<TokenUsage>>, last: Option<TokenUsage>, j: nat)
    requires LastMostComplete(front, j)
    ensures
      var keep := last.None? || |Given(last.value)| < |Given(front[j].value)|;
      LastMostComplete(front + [last], if keep then j else |front|)
  {
    hide Given;
    var seen := front + [last];
    assert forall k | 0 <= k < |front| :: seen[k] == front[k];
    assert seen[|front|] == last;
  }

  lemma LastMostCompleteIsUnique(seen: seq<Option<TokenUsage>>, i: nat, j: nat)
    requires LastMostComplete(seen, i) && LastMostComplete(seen, j)
    ensures i == j
  {
    hide Given;
    assert |Given(seen[i].value)| <= |Given(seen[j].value)|;
  }

  /** The held value is the last among the most complete ones seen, and absent only if all were. */
  ghost predicate IsHeld(held: Option<TokenUsage>, seen: seq<Option<TokenUsage>>) {
    match held
    case None => forall k | 0 <= k < |seen| :: seen[k].None?
    case Some(_) => exists i: nat :: LastMostComplete(seen, i) && seen[i] == held
  }

  lemma IsHeldAppend(current: Option<TokenUsage>, seen: seq<Option<TokenUsage>>, next: Option<TokenUsage>)
    requires IsHeld(current, seen)
    ensures IsHeld(Merge(current, next), seen + [next])
  {
    hide Given, Merge;
    MergeAbsent(current);
    MergeAbsent(next);
    if current.Some? && next.Some? { MergeKeepsMoreCounters(current.value, next.value); }
    var all := seen + [next];
    assert forall k | 0 <= k < |seen| :: all[k] == seen[k];
    assert all[|seen|] == next;
    if current.Some? {
      var i: nat :| LastMostComplete(seen, i) && seen[i] == current;
      LastMostCompleteAppend(seen, next, i);
      assert all[i] == current;
    } else if next.Some? {
      assert LastMostComplete(all, |seen|);
    }
  }

  /** Over any run the held value is the last among the most complete ones, and absent only if all were. */
  lemma {:induction false} MergeKeepsLastMostComplete(seen: seq<Option<TokenUsage>>)
    ensures IsHeld(MergeAll(None, seen), seen)
  {
    hide Given, Merge;
    var n := |seen|;
    if n > 0 {
      var front, last := seen[..n - 1], seen[n - 1];
      assert seen == front + [last];
      MergeKeepsLastMostComplete(front);
      IsHeldAppend(MergeAll(None, front), front, last);
      MergeAllAppend(None, front, [last]);
      MergeAllOne(MergeAll(None, front), last);
    }
  }

  /**
   `merge_usage`: the held value is written through only when it is replaced. Whatever has been seen before, if the
   value held was the last among the most complete ones, the new one is that again, with the new entry taken in.
   */
  method MergeUsage(current: Option<TokenUsage>, seen: Option<TokenUsage>) returns (held: Option<TokenUsage>)
    ensures held == Merge(current, seen)
    ensures current.Some? && seen.Some? ==>
              held == if |Given(current.value)| > |Given(seen.value)| then current else seen
    ensures forall before :: IsHeld(current, before) ==> IsHeld(held, before + [seen])
  {
    hide Given;
    if current.Some? && seen.Some? { MergeKeepsMoreCounters(current.value, seen.value); }
    held := current;
    if seen.Some? && (current.None? || Completeness(current.value) <= Completeness(seen.value)) {
      held := seen;
    }
    forall before | IsHeld(current, before) ensures IsHeld(held, before + [seen]) {
      IsHeldAppend(current, before, seen);
    }
  }

  lemma MergeAllOne(current: Option<TokenUsage>, last: Option<TokenUsage>)
    ensures MergeAll(current, [last]) == Merge(current, last)
  {
    assert [last][1..] == [];
  }

  /** Along any run a present value stays present and never has fewer counters. */
  lemma {:induction false} MergeNeverLoses(current: Option<TokenUsage>, seen: seq<Option<TokenUsage>>)
    requires current.Some?
    ensures MergeAll(current, seen).Some?
    ensures |Given(MergeAll(current, seen).value)| >= |Given(current.value)|
    decreases |seen|
  {
    hide Given, Merge;
    if seen != [] {
      MergeAbsent(current);
      if seen[0].Some? { MergeKeepsMoreCounters(current.value, seen[0].value); }
      MergeNeverLoses(Merge(current, seen[0]), seen[1..]);
    }
  }
}
