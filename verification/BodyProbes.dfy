/** The single-pass probes over a request body's members: thinking effort, token budget and model. */
module BodyProbes {
  import opened Bytes
  import opened TokenUsages
  import opened Json

  // ---- text ----

  /** Characters with the Unicode property White_Space, which text trimming removes. */
  predicate IsWhite(c: char) {
    var n := c as int;
    9 <= n <= 13 || n == 32 || n == 0x85 || n == 0xA0 || n == 0x1680 || 0x2000 <= n <= 0x200A
    || n == 0x2028 || n == 0x2029 || n == 0x202F || n == 0x205F || n == 0x3000
  }

  /** Those characters, one by one. */
  const WHITE := "\t\n\U{0B}\U{0C}\r \U{85}\U{A0}\U{1680}\U{2000}\U{2001}\U{2002}\U{2003}\U{2004}\U{2005}"
                 + "\U{2006}\U{2007}\U{2008}\U{2009}\U{200A}\U{2028}\U{2029}\U{202F}\U{205F}\U{3000}"

  lemma WhiteIs(c: char)
    ensures IsWhite(c) <==> c in WHITE
  {
  }

  predicate AllWhite(text: string) {
    forall k | 0 <= k < |text| :: IsWhite(text[k])
  }

  function TrimLeft(text: string): (r: string)
    ensures |r| <= |text| && r == text[|text| - |r|..] && AllWhite(text[..|text| - |r|])
    ensures r != [] ==> !IsWhite(r[0])
  {
    if text != [] && IsWhite(text[0]) then
      var r := TrimLeft(text[1..]);
      assert text[..|text| - |r|] == [text[0]] + text[1..][..|text[1..]| - |r|];
      r
    else text
  }

  function TrimRight(text: string): (r: string)
    ensures |r| <= |text| && r == text[..|r|] && AllWhite(text[|r|..])
    ensures r != [] ==> !IsWhite(r[|r| - 1])
  {
    if text != [] && IsWhite(text[|text| - 1]) then
      var r := TrimRight(text[..|text| - 1]);
      assert text[|r|..] == text[..|text| - 1][|r|..] + [text[|text| - 1]];
      r
    else text
  }

  /** `core` is the text between surrounding whitespace. */
  ghost predicate IsCore(core: string, text: string, a: nat, b: nat) {
    && a < b <= |text| && core == text[a..b] && AllWhite(text[..a]) && AllWhite(text[b..])
    && !IsWhite(text[a]) && !IsWhite(text[b - 1])
  }

  /** The text without surrounding whitespace, if anything is left of it. */
  function NonEmpty(text: string): (r: Option<string>)
    ensures r.None? <==> AllWhite(text)
    ensures r.Some? ==> exists a: nat, b: nat :: IsCore(r.value, text, a, b)
  {
    var left := TrimLeft(text);
    var trimmed := TrimRight(left);
    TrimmedIsCore(text);
    if trimmed == [] then None else Some(trimmed)
  }

  lemma CoreOfSlices(text: string, a: nat, left: string, core: string)
    requires a <= |text| && left == text[a..] && AllWhite(text[..a]) && (left != [] ==> !IsWhite(left[0]))
    requires |core| <= |left| && core == left[..|core|] && AllWhite(left[|core|..])
    requires core != [] ==> !IsWhite(core[|core| - 1])
    ensures core == [] <==> AllWhite(text)
    ensures core != [] ==> IsCore(core, text, a, a + |core|)
  {
    hide IsWhite;
    var b := a + |core|;
    assert left[|core|..] == text[b..] && left[..|core|] == text[a..b];
    if core == [] {
      assert left[0..] == left;
      assert text == text[..a] + left;
    } else {
      assert text[a] == left[0] && text[b - 1] == core[|core| - 1];
    }
  }

  lemma CoreIsUnique(text: string, x: string, a: nat, b: nat, y: string, c: nat, d: nat)
    requires IsCore(x, text, a, b) && IsCore(y, text, c, d)
    ensures x == y
  {
    hide IsWhite;
    WhiteOutside(x, text, a, b);
    WhiteOutside(y, text, c, d);
  }

  lemma WhiteOutside(core: string, text: string, a: nat, b: nat)
    requires IsCore(core, text, a, b)
    ensures forall k | 0 <= k < a || b <= k < |text| :: IsWhite(text[k])
  {
    hide IsWhite;
    assert forall k | 0 <= k < a :: text[..a][k] == text[k];
    assert forall k | b <= k < |text| :: text[b..][k - b] == text[k];
  }

  lemma TrimmedIsCore(text: string)
    ensures TrimRight(TrimLeft(text)) == [] <==> AllWhite(text)
    ensures
      var core := TrimRight(TrimLeft(text));
      core != [] ==> exists a: nat, b: nat :: IsCore(core, text, a, b)
  {
    hide TrimLeft, TrimRight, AllWhite, IsWhite, IsCore;
    var left := TrimLeft(text);
    var core := TrimRight(left);
    CoreOfSlices(text, |text| - |left|, left, core);
  }

  // ---- effort ----

  const NO_RANK: nat := TWO_TO_THE_64 - 1

  /** The keys that carry an effort, in the order they take precedence. */
  const EFFORT_KEYS: seq<string> := ["reasoning_effort", "thinking", "reasoning", "thinking_effort"]

  function Position(keys: seq<string>, key: string): (r: Option<nat>)
    ensures r.None? <==> key !in keys
    ensures r.Some? ==> r.value < |keys| && keys[r.value] == key && key !in keys[..r.value]
  {
    if keys == [] then None
    else if keys[0] == key then Some(0)
    else
      var r := Position(keys[1..], key);
      if r.None? then None else
        assert keys[..r.value + 1] == [keys[0]] + keys[1..][..r.value];
        Some(r.value + 1)
  }

  /** Position of a key in the order of precedence. */
  function Rank(key: string): Option<nat> {
    Position(EFFORT_KEYS, key)
  }

  /** A string, or an object whose `type` (or else `effort`) is a string; blank text does not count. */
  function EffortCandidate(value: Value): Option<string> {
    match value
    case Str(text) => NonEmpty(text)
    case Object(fields) =>
      var inner := if "type" in fields then Some(fields["type"])
                   else if "effort" in fields then Some(fields["effort"]) else None;
      if inner.Some? && inner.value.Str? then NonEmpty(inner.value.text) else None
    case _ => None
  }

  predicate UsableEffort(m: Member) {
    Rank(m.key).Some? && EffortCandidate(m.value).Some?
  }

  /** Member `i` is usable, no usable member outranks it, and it is the first of its rank. */
  ghost predicate IsBestEffort(members: seq<Member>, i: nat) {
    && i < |members| && UsableEffort(members[i])
    && forall j | 0 <= j < |members| && UsableEffort(members[j]) ::
         var (ri, rj) := (Rank(members[i].key).value, Rank(members[j].key).value);
         ri < rj || (ri == rj && i <= j)
  }

  /** What the probe says about a body's members. */
  ghost predicate IsEffortOf(effort: Option<string>, members: seq<Member>) {
    match effort
    case None => forall i | 0 <= i < |members| :: !UsableEffort(members[i])
    case Some(text) => exists i: nat :: IsBestEffort(members, i) && EffortCandidate(members[i].value) == effort
  }

  // ---- the effort in plain terms ----

  /** The text a value states: its own, that of its `type`, or that of its `effort` if it has no `type`. */
  ghost predicate States(value: Value, text: string) {
    || value == Str(text)
    || (value.Object? && "type" in value.fields && value.fields["type"] == Str(text))
    || (value.Object? && "type" !in value.fields && "effort" in value.fields && value.fields["effort"] == Str(text))
  }

  /** The value states a text whose part between surrounding whitespace is the effort. */
  ghost predicate Offers(value: Value, effort: string) {
    exists text: string, a: nat, b: nat :: States(value, text) && IsCore(effort, text, a, b)
  }

  lemma CandidateIsOffered(value: Value, effort: string)
    ensures EffortCandidate(value) == Some(effort) <==> Offers(value, effort)
  {
    hide NonEmpty, IsCore;
    if EffortCandidate(value).Some? {
      var text := StatedText(value);
      var a: nat, b: nat :| IsCore(EffortCandidate(value).value, text, a, b);
      if c: string, d: nat, e: nat :| States(value, c) && IsCore(effort, c, d, e) {
        CoreIsUnique(text, EffortCandidate(value).value, a, b, effort, d, e);
      }
    } else if text: string, a: nat, b: nat :| States(value, text) && IsCore(effort, text, a, b) {
      CoreIsNotWhite(effort, text, a, b);
      assert false;
    }
  }

  lemma StatedText(value: Value) returns (text: string)
    requires EffortCandidate(value).Some?
    ensures States(value, text) && (forall other :: States(value, other) ==> other == text)
    ensures exists a: nat, b: nat :: IsCore(EffortCandidate(value).value, text, a, b)
  {
    hide NonEmpty, IsCore;
    match value
    case Str(own) => text := own;
    case Object(fields) => text := if "type" in fields then fields["type"].text else fields["effort"].text;
  }

  lemma CoreIsNotWhite(core: string, text: string, a: nat, b: nat)
    requires IsCore(core, text, a, b)
    ensures !AllWhite(text)
  {
    hide IsWhite;
  }

  /** An effort under `level` is not read, whatever else the object holds, unless it has a `type` or an `effort`. */
  lemma LevelIsNotRead(key: string, fields: map<string, Value>, effort: Option<string>)
    requires "level" in fields && "type" !in fields && "effort" !in fields
    requires IsEffortOf(effort, [Member(key, Object(fields))])
    ensures effort == None
  {
    hide Position;
    assert !UsableEffort(Member(key, Object(fields)));
  }

  /** The order of precedence; 4 stands for every other key. */
  ghost function Precedence(key: string): nat {
    if key == "reasoning_effort" then 0
    else if key == "thinking" then 1
    else if key == "reasoning" then 2
    else if key == "thinking_effort" then 3
    else 4
  }

  lemma RankIsPrecedence(key: string)
    ensures Rank(key) == if Precedence(key) < 4 then Some(Precedence(key)) else None
  {
    hide Position;
    assert EFFORT_KEYS[0] == "reasoning_effort" && EFFORT_KEYS[1] == "thinking";
    assert EFFORT_KEYS[2] == "reasoning" && EFFORT_KEYS[3] == "thinking_effort";
    assert forall k | 0 <= k < |EFFORT_KEYS| :: Precedence(EFFORT_KEYS[k]) == k;
    var r := Position(EFFORT_KEYS, key);
    if Precedence(key) < 4 { assert EFFORT_KEYS[Precedence(key)] == key; }
  }

  /** Some member with an effort key offers the effort, and no other one that offers any has precedence over it. */
  ghost predicate IsStatedEffort(effort: Option<string>, members: seq<Member>) {
    match effort
    case None =>
      forall i, e | 0 <= i < |members| && Precedence(members[i].key) < 4 :: !Offers(members[i].value, e)
    case Some(e) => exists i: nat :: IsFirstOffer(members, i, e)
  }

  ghost predicate IsFirstOffer(members: seq<Member>, i: nat, effort: string) {
    && i < |members| && Precedence(members[i].key) < 4 && Offers(members[i].value, effort)
    && forall j, other | 0 <= j < |members| && Offers(members[j].value, other) ::
         Precedence(members[i].key) < Precedence(members[j].key)
         || (Precedence(members[i].key) == Precedence(members[j].key) && i <= j)
  }

  lemma UsableIsOffered(m: Member)
    ensures UsableEffort(m) <==> Precedence(m.key) < 4 && exists e :: Offers(m.value, e)
  {
    hide EffortCandidate, Precedence, Offers, Rank;
    RankIsPrecedence(m.key);
    if EffortCandidate(m.value).Some? { CandidateIsOffered(m.value, EffortCandidate(m.value).value); }
    if e :| Offers(m.value, e) { CandidateIsOffered(m.value, e); }
  }

  lemma EffortIsStated(effort: Option<string>, members: seq<Member>)
    requires IsEffortOf(effort, members)
    ensures IsStatedEffort(effort, members)
  {
    hide EffortCandidate, Precedence, Offers, Rank, UsableEffort;
    forall i | 0 <= i < |members|
      ensures UsableEffort(members[i]) <==> Precedence(members[i].key) < 4 && exists e :: Offers(members[i].value, e)
    {
      UsableIsOffered(members[i]);
    }
    if effort.Some? {
      var i: nat :| IsBestEffort(members, i) && EffortCandidate(members[i].value) == effort;
      CandidateIsOffered(members[i].value, effort.value);
      BestIsFirst(members, i, effort.value);
    }
  }

  lemma BestIsFirst(members: seq<Member>, i: nat, effort: string)
    requires IsBestEffort(members, i) && Offers(members[i].value, effort)
    ensures IsFirstOffer(members, i, effort)
  {
    hide EffortCandidate, Precedence, Offers, Rank, UsableEffort;
    UsableIsOffered(members[i]);
    RankIsPrecedence(members[i].key);
    forall j, other | 0 <= j < |members| && Offers(members[j].value, other)
      ensures Precedence(members[i].key) < Precedence(members[j].key)
              || (Precedence(members[i].key) == Precedence(members[j].key) && i <= j)
    {
      UsableIsOffered(members[j]);
      RankIsPrecedence(members[j].key);
    }
  }

  /** The loop over the members, which holds the best value so far and the rank of its key. */
  method VisitEffort(members: seq<Member>) returns (effort: Option<string>)
    ensures IsEffortOf(effort, members)
    ensures IsStatedEffort(effort, members)
  {
    hide Position, EffortCandidate;
    effort := None;
    var rank := NO_RANK;
    ghost var best: nat := 0;
    for n := 0 to |members|
      invariant effort.None? ==> rank == NO_RANK
      invariant effort.None? ==> forall i | 0 <= i < n :: !UsableEffort(members[i])
      invariant effort.Some? ==>
                  && IsBestEffort(members[..n], best) && EffortCandidate(members[best].value) == effort
                  && Some(rank) == Rank(members[best].key)
    {
      var index := Rank(members[n].key);
      ghost var seen := members[..n + 1];
      assert forall i | 0 <= i < n :: seen[i] == members[..n][i] == members[i];
      if index.Some? {
        var value := EffortCandidate(members[n].value);
        if value.Some? && index.value < rank {
          effort, rank, best := value, index.value, n;
        }
      }
      assert effort.Some? ==> IsBestEffort(seen, best);
    }
    assert members[..|members|] == members;
    EffortIsStated(effort, members);
  }

  /** The members alone decide the effort: two answers for one body agree. */
  lemma EffortIsDetermined(a: Option<string>, b: Option<string>, members: seq<Member>)
    requires IsEffortOf(a, members) && IsEffortOf(b, members)
    ensures a == b
  {
    if a.Some? && b.Some? {
      var i: nat :| IsBestEffort(members, i) && EffortCandidate(members[i].value) == a;
      var j: nat :| IsBestEffort(members, j) && EffortCandidate(members[j].value) == b;
      assert i == j;
    }
  }

  lemma RankIsInjective(a: string, b: string)
    requires Rank(a).Some? && Rank(a) == Rank(b)
    ensures a == b
  {
  }

  /** Reordering members with distinct keys does not change the effort. */
  lemma EffortIgnoresOrder(a: seq<Member>, b: seq<Member>, effort: Option<string>)
    requires UniqueKeys(a) && UniqueKeys(b) && multiset(a) == multiset(b)
    requires IsEffortOf(effort, a)
    ensures IsEffortOf(effort, b)
  {
    SameMembers(a, b);
    if effort.Some? {
      var i: nat :| IsBestEffort(a, i) && EffortCandidate(a[i].value) == effort;
      assert a[i] in b;
      var k :| 0 <= k < |b| && b[k] == a[i];
      BestStays(a, i, b, k);
    } else {
      forall j | 0 <= j < |b| ensures !UsableEffort(b[j]) {
        assert b[j] in a;
      }
    }
  }

  lemma BestStays(a: seq<Member>, i: nat, b: seq<Member>, k: nat)
    requires IsBestEffort(a, i) && k < |b| && b[k] == a[i] && UniqueKeys(b)
    requires forall m :: m in a <==> m in b
    ensures IsBestEffort(b, k)
  {
    hide Rank, EffortCandidate;
    forall j | 0 <= j < |b| && UsableEffort(b[j])
      ensures Rank(b[k].key).value < Rank(b[j].key).value || k == j
    {
      assert b[j] in a;
      var n :| 0 <= n < |a| && a[n] == b[j];
      if Rank(b[k].key) == Rank(b[j].key) { RankIsInjective(b[k].key, b[j].key); }
    }
  }

  lemma SameMembers(a: seq<Member>, b: seq<Member>)
    requires multiset(a) == multiset(b)
    ensures forall m :: m in a <==> m in b
  {
    forall m ensures m in a <==> m in b {
      assert m in a <==> m in multiset(a);
      assert m in b <==> m in multiset(b);
    }
  }

  // ---- the first key present ----

  /** Member `i` carries an effort key, and no member carries one that takes precedence. */
  ghost predicate IsFirstPresent(members: seq<Member>, i: nat) {
    && i < |members| && Rank(members[i].key).Some?
    && forall j | 0 <= j < |members| && Rank(members[j].key).Some? ::
         Rank(members[i].key).value <= Rank(members[j].key).value
  }

  /**
   The effort is that of the first key present, in the order of precedence, exactly when that key's value is usable or
   no effort key has a usable value.
   */
  lemma FirstPresentWins(members: seq<Member>, i: nat, effort: Option<string>)
    requires UniqueKeys(members) && IsEffortOf(effort, members) && IsFirstPresent(members, i)
    ensures effort == EffortCandidate(members[i].value)
            <==> UsableEffort(members[i]) || (forall j | 0 <= j < |members| :: !UsableEffort(members[j]))
  {
    hide Position, EffortCandidate;
    if UsableEffort(members[i]) {
      var k: nat :| IsBestEffort(members, k) && EffortCandidate(members[k].value) == effort;
      RankIsInjective(members[k].key, members[i].key);
      assert k == i;
    }
  }

  /** A first key without a usable value does not win: the next one does. */
  lemma UnusableFirstIsPassed(text: string, effort: Option<string>)
    requires NonEmpty(text).Some?
    requires IsEffortOf(effort, [Member("reasoning_effort", Null), Member("thinking", Str(text))])
    ensures IsFirstPresent([Member("reasoning_effort", Null), Member("thinking", Str(text))], 0)
    ensures effort == NonEmpty(text) != EffortCandidate(Null)
  {
    hide Position, NonEmpty;
    var members := [Member("reasoning_effort", Null), Member("thinking", Str(text))];
    EffortRanks();
    assert UsableEffort(members[1]) && !UsableEffort(members[0]);
  }

  lemma EffortRanks()
    ensures Rank("reasoning_effort") == Some(0) && Rank("thinking") == Some(1)
  {
    assert EFFORT_KEYS[0] == "reasoning_effort" && EFFORT_KEYS[1] == "thinking";
    assert EFFORT_KEYS[1..][0] == "thinking";
  }

  // ---- token budget ----

  predicate IsBudgetKey(key: string) {
    key == "max_tokens" || key == "max_completion_tokens" || key == "max_output_tokens"
  }

  function AsU64(value: Value): Option<u64> {
    if value.Number? then value.unsigned else None
  }

  predicate UsableBudget(m: Member) {
    IsBudgetKey(m.key) && AsU64(m.value).Some?
  }

  /** The first budget that is a number. */
  function MaxTokens(members: seq<Member>): (r: Option<u64>)
    ensures r.None? <==> forall i | 0 <= i < |members| :: !UsableBudget(members[i])
    ensures r.Some? ==> exists i | 0 <= i < |members| :: UsableBudget(members[i]) && AsU64(members[i].value) == r
  {
    if members == [] then None
    else if UsableBudget(members[0]) then AsU64(members[0].value)
    else MaxTokens(members[1..])
  }

  /** The last `n`, whatever it is. */
  function Choices(members: seq<Member>): Option<u64> {
    if members == [] then None
    else
      var last := members[|members| - 1];
      if last.key == "n" then AsU64(last.value) else Choices(members[..|members| - 1])
  }

  lemma {:induction false} MaxTokensAppend(members: seq<Member>, last: Member)
    ensures MaxTokens(members + [last])
            == if MaxTokens(members).Some? then MaxTokens(members)
               else if UsableBudget(last) then AsU64(last.value) else None
  {
    var all := members + [last];
    if members == [] {
      assert all[1..] == [];
    } else {
      assert all[1..] == members[1..] + [last];
      MaxTokensAppend(members[1..], last);
    }
  }

  lemma ChoicesAppend(members: seq<Member>, last: Member)
    ensures Choices(members + [last]) == if last.key == "n" then AsU64(last.value) else Choices(members)
  {
    assert (members + [last])[..|members|] == members;
  }

  // ---- the budget in plain terms ----

  /** The member sets a token budget to a number. */
  ghost predicate Budgets(m: Member, budget: u64) {
    m.key in {"max_tokens", "max_completion_tokens", "max_output_tokens"} && m.value == Number(Some(budget))
  }

  /** The budget is that of the first member that sets one to a number. */
  ghost predicate IsFirstBudget(maxTokens: Option<u64>, members: seq<Member>) {
    match maxTokens
    case None => forall i, budget | 0 <= i < |members| :: !Budgets(members[i], budget)
    case Some(first) =>
      exists i | 0 <= i < |members| ::
        Budgets(members[i], first) && forall j, budget | 0 <= j < i :: !Budgets(members[j], budget)
  }

  /** The choice count is that of the last `n`, or absent if that is no number or not there. */
  ghost predicate IsLastCount(choices: Option<u64>, members: seq<Member>) {
    if i: nat :| IsLast(members, i) && members[i].key == "n"
    then choices == (match members[i].value case Number(unsigned) => unsigned case _ => None)
    else choices == None
  }

  lemma UsableBudgetIs(m: Member)
    ensures UsableBudget(m) <==> exists budget :: Budgets(m, budget)
    ensures UsableBudget(m) ==> AsU64(m.value).Some? && Budgets(m, AsU64(m.value).value)
  {
    if UsableBudget(m) { assert Budgets(m, AsU64(m.value).value); }
  }

  lemma {:induction false} MaxTokensIsFirst(members: seq<Member>)
    ensures IsFirstBudget(MaxTokens(members), members)
  {
    hide UsableBudget, AsU64, Budgets;
    if members != [] {
      var rest := members[1..];
      UsableBudgetIs(members[0]);
      if !UsableBudget(members[0]) {
        MaxTokensIsFirst(rest);
        assert forall i | 0 < i < |members| :: members[i] == rest[i - 1];
        if MaxTokens(rest).Some? {
          var i :| 0 <= i < |rest| && Budgets(rest[i], MaxTokens(rest).value)
                   && forall j, budget | 0 <= j < i :: !Budgets(rest[j], budget);
          assert members[i + 1] == rest[i];
        }
      }
    }
  }

  lemma {:induction false} ChoicesIsLast(members: seq<Member>)
    ensures IsLastCount(Choices(members), members)
  {
    if i: nat :| IsLast(members, i) && members[i].key == "n" {
      LastChoice(members, i);
      assert forall j: nat | IsLast(members, j) && members[j].key == "n" :: j == i;
    } else {
      NoChoice(members);
    }
  }

  lemma {:induction false} LastChoice(members: seq<Member>, i: nat)
    requires IsLast(members, i) && members[i].key == "n"
    ensures Choices(members) == AsU64(members[i].value)
  {
    var n := |members| - 1;
    if i < n { LastChoice(members[..n], i); }
  }

  lemma {:induction false} NoChoice(members: seq<Member>)
    requires forall i: nat | IsLast(members, i) :: members[i].key != "n"
    ensures Choices(members) == None
  {
    hide IsLast;
    if Mentions(members, "n") {
      var i := LastOf(members, "n");
    }
    ChoicesUnmentioned(members);
  }

  lemma {:induction false} ChoicesUnmentioned(members: seq<Member>)
    requires !Mentions(members, "n")
    ensures Choices(members) == None
  {
    if members != [] {
      assert members[|members| - 1].key != "n";
      ChoicesUnmentioned(members[..|members| - 1]);
    }
  }

  method VisitRequestUsage(members: seq<Member>) returns (maxTokens: Option<u64>, choices: Option<u64>)
    ensures maxTokens == MaxTokens(members) && IsFirstBudget(maxTokens, members)
    ensures choices == Choices(members) && IsLastCount(choices, members)
  {
    hide MaxTokens, Choices, IsFirstBudget, IsLastCount;
    MaxTokensIsFirst(members);
    ChoicesIsLast(members);
    RequestUsageStart();
    maxTokens, choices := None, None;
    for n := 0 to |members|
      invariant maxTokens == MaxTokens(members[..n]) && choices == Choices(members[..n])
    {
      var m := members[n];
      RequestUsageStep(members, n);
      if m.key == "n" {
        choices := AsU64(m.value);
      } else if IsBudgetKey(m.key) && maxTokens.None? {
        maxTokens := AsU64(m.value);
      }
    }
    assert members[..|members|] == members;
  }

  lemma RequestUsageStart()
    ensures MaxTokens([]) == None && Choices([]) == None
  {
  }

  lemma RequestUsageStep(members: seq<Member>, n: nat)
    requires n < |members|
    ensures
      var (front, next, m) := (members[..n], members[..n + 1], members[n]);
      && MaxTokens(next) == (if MaxTokens(front).None? && IsBudgetKey(m.key) then AsU64(m.value) else MaxTokens(front))
      && Choices(next) == (if m.key == "n" then AsU64(m.value) else Choices(front))
  {
    hide MaxTokens, Choices;
    assert members[..n + 1] == members[..n] + [members[n]];
    MaxTokensAppend(members[..n], members[n]);
    ChoicesAppend(members[..n], members[n]);
  }

  ghost predicate BudgetsAgree(members: seq<Member>) {
    forall i, j | 0 <= i < |members| && 0 <= j < |members|
                  && UsableBudget(members[i]) && UsableBudget(members[j]) ::
      AsU64(members[i].value) == AsU64(members[j].value)
  }

  /** Unlike the effort, the budget is read the same in every member order exactly when all usable budgets agree. */
  lemma BudgetOrder(a: seq<Member>)
    ensures BudgetsAgree(a)
            <==> forall b: seq<Member> | multiset(b) == multiset(a) :: MaxTokens(b) == MaxTokens(a)
  {
    if BudgetsAgree(a) {
      forall b: seq<Member> | multiset(b) == multiset(a) ensures MaxTokens(b) == MaxTokens(a) {
        BudgetsSame(a, b);
      }
    } else {
      var i, j :| 0 <= i < |a| && 0 <= j < |a| && UsableBudget(a[i]) && UsableBudget(a[j])
                  && AsU64(a[i].value) != AsU64(a[j].value);
      BudgetInFront(a, i);
      BudgetInFront(a, j);
      assert MaxTokens(InFront(a, i)) != MaxTokens(InFront(a, j));
    }
  }

  lemma BudgetsSame(a: seq<Member>, b: seq<Member>)
    requires BudgetsAgree(a) && multiset(b) == multiset(a)
    ensures MaxTokens(b) == MaxTokens(a)
  {
    SameMembers(a, b);
    if MaxTokens(a).Some? {
      var i :| 0 <= i < |a| && UsableBudget(a[i]) && AsU64(a[i].value) == MaxTokens(a);
      assert a[i] in b;
    }
    if MaxTokens(b).Some? {
      var k :| 0 <= k < |b| && UsableBudget(b[k]) && AsU64(b[k].value) == MaxTokens(b);
      assert b[k] in a;
    }
  }

  function InFront(members: seq<Member>, i: nat): seq<Member>
    requires i < |members|
  {
    [members[i]] + members[..i] + members[i + 1..]
  }

  lemma BudgetInFront(members: seq<Member>, i: nat)
    requires i < |members| && UsableBudget(members[i])
    ensures multiset(InFront(members, i)) == multiset(members)
    ensures MaxTokens(InFront(members, i)) == AsU64(members[i].value)
  {
    assert members == members[..i] + [members[i]] + members[i + 1..];
  }

  // ---- model ----

  predicate UsableModel(m: Member) {
    m.key == "model" && m.value.Str? && m.value.text != []
  }

  /** The last non-empty string among the `model` members. */
  function ExtractModel(members: seq<Member>): (r: Option<string>)
    ensures r.Some? ==> r.value != []
    ensures r.None? <==> forall i | 0 <= i < |members| :: !UsableModel(members[i])
  {
    if members == [] then None
    else
      var last := members[|members| - 1];
      if UsableModel(last) then Some(last.value.text) else ExtractModel(members[..|members| - 1])
  }

  /** The text is that of a `model` member, not empty, and no later `model` is a string that is not empty. */
  ghost predicate IsLastModel(model: Option<string>, members: seq<Member>) {
    match model
    case None => forall i, text | 0 <= i < |members| && members[i] == Member("model", Str(text)) :: text == ""
    case Some(last) =>
      last != "" && exists i | 0 <= i < |members| ::
        members[i] == Member("model", Str(last))
        && forall j, text | i < j < |members| && members[j] == Member("model", Str(text)) :: text == ""
  }

  lemma {:induction false} ExtractedFrom(members: seq<Member>) returns (i: nat)
    requires ExtractModel(members).Some?
    ensures i < |members| && UsableModel(members[i]) && ExtractModel(members) == Some(members[i].value.text)
    ensures forall j | i < j < |members| :: !UsableModel(members[j])
  {
    i := |members| - 1;
    if !UsableModel(members[i]) { i := ExtractedFrom(members[..i]); }
  }

  lemma UsableModelIs(m: Member)
    ensures UsableModel(m) <==> exists text :: text != "" && m == Member("model", Str(text))
    ensures UsableModel(m) ==> m == Member("model", Str(m.value.text)) && m.value.text != ""
  {
    if UsableModel(m) { assert m == Member("model", Str(m.value.text)); }
  }

  lemma ExtractIsLastModel(members: seq<Member>)
    ensures IsLastModel(ExtractModel(members), members)
  {
    hide ExtractModel, UsableModel;
    forall i | 0 <= i < |members|
      ensures UsableModel(members[i]) <==> exists text :: text != "" && members[i] == Member("model", Str(text))
    {
      UsableModelIs(members[i]);
    }
    if ExtractModel(members).Some? {
      var i := ExtractedFrom(members);
      UsableModelIs(members[i]);
    }
  }

  method VisitModel(members: seq<Member>) returns (model: Option<string>)
    ensures model == ExtractModel(members) && IsLastModel(model, members)
  {
    hide IsLastModel;
    ExtractIsLastModel(members);
    model := None;
    for n := 0 to |members|
      invariant model == ExtractModel(members[..n])
    {
      assert members[..n + 1][..n] == members[..n];
      if members[n].key == "model" {
        if members[n].value.Str? && members[n].value.text != [] {
          model := Some(members[n].value.text);
        }
      }
    }
    assert members[..|members|] == members;
  }

  /** The extracted model is the value of a usable member after which no other usable one comes. */
  lemma {:induction false} ExtractIsLastUsable(members: seq<Member>, i: nat)
    requires i < |members| && UsableModel(members[i])
    requires forall j | i < j < |members| :: !UsableModel(members[j])
    ensures ExtractModel(members) == Some(members[i].value.text)
  {
    var n := |members| - 1;
    if i < n { ExtractIsLastUsable(members[..n], i); }
  }

  /** The members the streaming probe looks at. */
  function ModelMembers(models: seq<Value>): seq<Member> {
    seq(|models|, i requires 0 <= i < |models| => Member("model", models[i]))
  }

  function ModelOf(body: Body): Option<string> {
    match body
    case Members(members) => ExtractModel(members)
    case Skimmed(models) => ExtractModel(ModelMembers(models))
    case _ => None
  }

  // ---- rewrite ----

  /** The parsed object with its model replaced, or nothing when the body can stay as it is. */
  function Rewritten(body: Body, target: string): Option<map<string, Value>> {
    if !body.Members? then None
    else
      var fields := ToMap(body.members);
      if "model" !in fields || fields["model"] == Str(target) then None
      else Some(fields["model" := Str(target)])
  }

  /** With unique keys, one usable model member decides what is extracted. */
  lemma ExtractFromUnique(members: seq<Member>, i: nat)
    requires UniqueKeys(members) && i < |members| && UsableModel(members[i])
    ensures ExtractModel(members) == Some(members[i].value.text)
  {
    forall j | i < j < |members| ensures !UsableModel(members[j]) {
      assert members[i].key != members[j].key;
    }
    ExtractIsLastUsable(members, i);
  }

  /**
   A rewritten body, once written out, names the target, keeps the last value of every other key, and needs no
   further rewrite.
   */
  lemma RewriteThenExtract(members: seq<Member>, target: string)
    requires target != []
    requires Rewritten(Members(members), target).Some?
    ensures
      var out := Written(Rewritten(Members(members), target).value);
      && ExtractModel(out) == Some(target)
      && ToMap(out) == ToMap(members)["model" := Str(target)]
      && Rewritten(Members(out), target).None?
      && UniqueKeys(out)
  {
    var fields := Rewritten(Members(members), target).value;
    var out := Written(fields);
    WrittenReadsBack(fields);
    ToMapKeys(out, "model");
    var i :| 0 <= i < |out| && out[i].key == "model";
    forall j | i < j < |out| ensures out[j].key != out[i].key {
    }
    ToMapHasLast(out, i);
    ExtractFromUnique(out, i);
  }

  /**
   The result replaces the model in the parsed body: nothing if the body is no object, or its last `model` is the target
   or is not there; else every key with its last value, but the target under `model`.
   */
  ghost predicate IsRewriteOf(rewritten: Option<map<string, Value>>, body: Body, target: string) {
    match rewritten
    case None =>
      body.Members? ==>
        forall i: nat | IsLast(body.members, i) && body.members[i].key == "model" ::
          body.members[i].value == Str(target)
    case Some(fields) =>
      && body.Members? && "model" in fields
      && (forall key :: key in fields <==> Mentions(body.members, key))
      && (forall i: nat | IsLast(body.members, i) ::
            body.members[i].key in fields
            && fields[body.members[i].key]
               == if body.members[i].key == "model" then Str(target) else body.members[i].value)
      && (exists i: nat :: IsLast(body.members, i) && body.members[i].key == "model"
                           && body.members[i].value != Str(target))
  }

  lemma RewrittenIsRewrite(body: Body, target: string)
    ensures IsRewriteOf(Rewritten(body, target), body, target)
  {
    hide ToMap;
    if body.Members? {
      var members := body.members;
      forall i: nat | IsLast(members, i)
        ensures members[i].key in ToMap(members) && ToMap(members)[members[i].key] == members[i].value
      {
        ToMapHasLast(members, i);
      }
      forall key ensures key in ToMap(members) <==> Mentions(members, key) {
        ToMapKeys(members, key);
      }
      if Mentions(members, "model") {
        var i := LastOf(members, "model");
      }
    }
  }

  lemma {:induction false} LastOf(members: seq<Member>, key: string) returns (i: nat)
    requires Mentions(members, key)
    ensures IsLast(members, i) && members[i].key == key
  {
    var n := |members| - 1;
    if members[n].key == key {
      i := n;
    } else {
      var j :| 0 <= j < |members| && members[j].key == key;
      assert members[..n][j].key == key;
      i := LastOf(members[..n], key);
    }
  }

  /** The parsed body with its model replaced; written out, it names the target, unless that is empty. */
  method TryRewriteModel(body: Body, target: string) returns (rewritten: Option<map<string, Value>>)
    ensures IsRewriteOf(rewritten, body, target)
    ensures rewritten.Some? && target != [] ==> ExtractModel(Written(rewritten.value)) == Some(target)
    ensures rewritten.Some? && target != [] ==> Rewritten(Members(Written(rewritten.value)), target).None?
  {
    RewrittenIsRewrite(body, target);
    if Rewritten(body, target).Some? && target != [] { RewriteThenExtract(body.members, target); }
    if !body.Members? { return None; }
    var fields := ToMap(body.members);
    if "model" !in fields { return None; }
    if fields["model"] == Str(target) { return None; }
    fields := fields["model" := Str(target)];
    return Some(fields);
  }
}
