/**
 What the probe means, read off the document tree: which response objects are usable, and which usage they carry.
 The byte-level probe agrees with it on every text: it accepts exactly the usable objects, with their usage.
 */
module ProbeMeaning {
  import opened Bytes
  import opened Decimals
  import opened Recognizer
  import opened TokenUsages
  import opened UsageProbe
  import opened JsonGrammar

  datatype Kind = Response | Usage | Details

  // ---- meaning ----

  /** A counter is `null` or an integer of 64 bits; `None` says that the value is neither. */
  function CounterOf(d: Doc): Option<Option<u64>> {
    match d
    case Null => Some(None)
    case Number(false, Some(whole)) => if whole < TWO_TO_THE_64 then Some(Some(whole)) else None
    case _ => None
  }

  predicate IsCounter(kind: Kind, key: seq<Code>) {
    match kind
    case Response => false
    case Usage => key == PROMPT_TOKENS || key == COMPLETION_TOKENS || key == TOTAL_TOKENS
    case Details => key == CACHED_TOKENS || key == REASONING_TOKENS
  }

  predicate IsDetails(kind: Kind, key: seq<Code>) {
    kind.Usage? && (key == PROMPT_DETAILS || key == COMPLETION_DETAILS)
  }

  predicate IsKnown(kind: Kind, key: seq<Code>) {
    IsCounter(kind, key) || IsDetails(kind, key)
  }

  /** The value of a known member has the right type. */
  ghost predicate Typed(kind: Kind, e: Entry)
    decreases e
  {
    && (IsCounter(kind, e.key) ==> CounterOf(e.value).Some?)
    && (IsDetails(kind, e.key) ==> e.value.Object? && Usable(Details, e.value.members))
    && (kind.Response? && e.key == USAGE ==>
          e.value.Null? || (e.value.Object? && Usable(Usage, e.value.members)))
  }

  /** All members are typed, and in the inner objects no known key is repeated. */
  ghost predicate Usable(kind: Kind, members: seq<Entry>)
    decreases members
  {
    && (forall i | 0 <= i < |members| :: Typed(kind, members[i]))
    && (forall i, j | 0 <= i < j < |members| && IsKnown(kind, members[i].key) ::
          members[i].key != members[j].key)
  }

  function Lookup(members: seq<Entry>, key: seq<Code>): Option<Doc> {
    if members == [] then None
    else if members[0].key == key then Some(members[0].value)
    else Lookup(members[1..], key)
  }

  function CounterIn(members: seq<Entry>, key: seq<Code>): Option<u64> {
    match Lookup(members, key)
    case None => None
    case Some(d) => if CounterOf(d).Some? then CounterOf(d).value else None
  }

  function DetailsOf(members: seq<Entry>): TokenDetails {
    TokenDetails(CounterIn(members, CACHED_TOKENS), CounterIn(members, REASONING_TOKENS))
  }

  function DetailsIn(members: seq<Entry>, key: seq<Code>): TokenDetails {
    match Lookup(members, key)
    case Some(Object(inner)) => DetailsOf(inner)
    case _ => NO_DETAILS
  }

  function BodyOf(members: seq<Entry>): UsageBody {
    UsageBody(CounterIn(members, PROMPT_TOKENS), CounterIn(members, COMPLETION_TOKENS),
              CounterIn(members, TOTAL_TOKENS),
              DetailsIn(members, PROMPT_DETAILS), DetailsIn(members, COMPLETION_DETAILS))
  }

  /** The last `usage` member counts; `null` takes an earlier one back. */
  function ResponseUsage(members: seq<Entry>): Option<TokenUsage> {
    if members == [] then None
    else
      var last := members[|members| - 1];
      if last.key == USAGE then
        if last.value.Object? then Some(FromBody(BodyOf(last.value.members))) else None
      else ResponseUsage(members[..|members| - 1])
  }

  // ---- the reader's fields are the meaning of the members read so far ----

  ghost function KnownKeys(kind: Kind, members: seq<Entry>): set<seq<Code>> {
    set i | 0 <= i < |members| && IsKnown(kind, members[i].key) :: members[i].key
  }

  ghost function Read(kind: Kind, members: seq<Entry>): Fields {
    match kind
    case Response => ResponseFields(ResponseUsage(members))
    case Usage => UsageFields(BodyOf(members), KnownKeys(kind, members))
    case Details => DetailFields(DetailsOf(members), KnownKeys(kind, members))
  }

  lemma {:induction false} LookupAppend(members: seq<Entry>, e: Entry, key: seq<Code>)
    ensures Lookup(members + [e], key)
            == if Lookup(members, key).Some? then Lookup(members, key)
               else if e.key == key then Some(e.value) else None
  {
    var all := members + [e];
    if members == [] {
      assert all[1..] == [];
    } else {
      assert all[1..] == members[1..] + [e];
      LookupAppend(members[1..], e, key);
    }
  }

  lemma {:induction false} LookupNothing(members: seq<Entry>, key: seq<Code>)
    requires forall i | 0 <= i < |members| :: members[i].key != key
    ensures Lookup(members, key) == None
  {
    if members != [] { LookupNothing(members[1..], key); }
  }

  lemma {:induction false} LookupAt(members: seq<Entry>, i: nat)
    requires i < |members| && forall j | 0 <= j < i :: members[j].key != members[i].key
    ensures Lookup(members, members[i].key) == Some(members[i].value)
  {
    if i > 0 { LookupAt(members[1..], i - 1); }
  }

  lemma KnownKeysAppend(kind: Kind, members: seq<Entry>, e: Entry)
    ensures KnownKeys(kind, members + [e])
            == KnownKeys(kind, members) + if IsKnown(kind, e.key) then {e.key} else {}
  {
    var all := members + [e];
    assert all[|members|] == e;
    assert forall i | 0 <= i < |members| :: all[i] == members[i];
  }

  /** Appending a member whose key is not there yet. */
  lemma CounterAppend(members: seq<Entry>, e: Entry, key: seq<Code>)
    requires e.key == key ==> Lookup(members, key) == None
    ensures CounterIn(members + [e], key)
            == if e.key == key then if CounterOf(e.value).Some? then CounterOf(e.value).value else None
               else CounterIn(members, key)
  {
    LookupAppend(members, e, key);
  }

  lemma DetailsAppend(members: seq<Entry>, e: Entry, key: seq<Code>)
    requires e.key == key ==> Lookup(members, key) == None
    ensures DetailsIn(members + [e], key)
            == if e.key == key then if e.value.Object? then DetailsOf(e.value.members) else NO_DETAILS
               else DetailsIn(members, key)
  {
    LookupAppend(members, e, key);
  }

  lemma UsableAppend(kind: Kind, members: seq<Entry>, e: Entry)
    requires Usable(kind, members)
    ensures Usable(kind, members + [e]) <==> Typed(kind, e) && !Repeated(Read(kind, members), e.key)
  {
    var all := members + [e];
    assert all[|members|] == e;
    assert forall i | 0 <= i < |members| :: all[i] == members[i];
    if !kind.Response? && e.key in KnownKeys(kind, members) {
      var i :| 0 <= i < |members| && IsKnown(kind, members[i].key) && members[i].key == e.key;
      assert all[i].key == all[|members|].key;
    }
  }

  lemma UsablePrefix(kind: Kind, members: seq<Entry>, rest: seq<Entry>)
    requires Usable(kind, members + rest)
    ensures Usable(kind, members)
  {
    var all := members + rest;
    assert forall i | 0 <= i < |members| :: all[i] == members[i];
  }

  // ---- reading one value ----

  lemma NumberIs(s: seq<byte>, i: nat)
    requires i < |s| && (s[i] == MINUS || IsDigit(s[i])) && Num(s, i).Ok?
    ensures Num(s, i).value.negative == (s[i] == MINUS)
  {
    hide Magnitude, Digits;
  }

  /** A counter is read as its value says, refused if it is no counter, and not read at all if it is no value. */
  lemma CounterReads(s: seq<byte>, i: nat)
    requires i <= |s|
    ensures
      match ValueAt(s, i)
      case Ok(d, next) => Counter(s, i) == (if CounterOf(d).Some? then Ok(CounterOf(d).value, next) else Bad)
      case _ => !Counter(s, i).Ok?
  {
    hide Word, Str, Num, ArrayAt, ObjectAt;
    var j := Space(s, i);
    if j < |s| {
      ScalarIsScalar(s, j);
      if (s[j] == MINUS || IsDigit(s[j])) && Num(s, j).Ok? { NumberIs(s, j); }
    }
  }

  lemma {:induction false} NestedReads(s: seq<byte>, i: nat, kind: Kind)
    requires i <= |s| && !kind.Response?
    ensures
      match ValueAt(s, i)
      case Ok(d, next) =>
        Nested(s, i, Read(kind, []))
        == if d.Object? && Usable(kind, d.members) then Ok(Read(kind, d.members), next) else Bad
      case _ => !Nested(s, i, Read(kind, [])).Ok?
    decreases |s| - i, 1
  {
    hide Members, Usable, Read, ObjectAt, ArrayAt, Scalar;
    var j := Space(s, i);
    if j < |s| {
      ScalarIsScalar(s, j);
      BracketIsNoScalar(s, j);
      if s[j] == OPEN_BRACE {
        UsableNone(kind);
        MembersRead(s, j + 1, true, kind, []);
        if ObjectAt(s, j + 1).Ok? { assert [] + ObjectAt(s, j + 1).value == ObjectAt(s, j + 1).value; }
      }
    }
  }

  lemma BracketIsNoScalar(s: seq<byte>, i: nat)
    requires i < |s|
    ensures s[i] == OPEN_BRACKET || s[i] == OPEN_BRACE ==> Scalar(s, i) == Bad
    ensures ScalarAt(s, i).Ok? ==> !ScalarAt(s, i).value.Object? && !ScalarAt(s, i).value.Array?
    ensures ScalarAt(s, i).Ok? ==> (ScalarAt(s, i).value.Null? <==> s[i] == LOWER_N)
  {
    hide Word, Str, Num;
  }

  lemma ReadNothing(kind: Kind)
    ensures Read(kind, [])
            == match kind
               case Response => ResponseFields(None)
               case Usage => UsageFields(NO_USAGE, {})
               case Details => DetailFields(NO_DETAILS, {})
  {
  }

  /** The member with this key and the value at `i` is read into the fields as the meaning says, or refused. */
  ghost predicate MemberIsRead(s: seq<byte>, i: nat, key: seq<Code>, kind: Kind, done: seq<Entry>)
    requires i <= |s|
  {
    match ValueAt(s, i)
    case Ok(d, next) =>
      Member(s, i, key, Read(kind, done))
      == if Typed(kind, Entry(key, d)) then Ok(Read(kind, done + [Entry(key, d)]), next) else Bad
    case _ => !Member(s, i, key, Read(kind, done)).Ok?
  }

  lemma {:induction false} MemberReads(s: seq<byte>, i: nat, key: seq<Code>, kind: Kind, done: seq<Entry>)
    requires i <= |s| && !Repeated(Read(kind, done), key)
    ensures MemberIsRead(s, i, key, kind, done)
    decreases |s| - i, 3
  {
    match kind
    case Response => ResponseMemberReads(s, i, key, done);
    case Usage => UsageMemberReads(s, i, key, done);
    case Details => DetailMemberReads(s, i, key, done);
  }

  lemma IgnoredReads(s: seq<byte>, i: nat, acc: Fields)
    requires i <= |s|
    ensures
      match ValueAt(s, i)
      case Ok(_, next) => Ignored(s, i, acc) == Ok(acc, next)
      case _ => !Ignored(s, i, acc).Ok?
  {
    hide Skip, ValueAt;
    SkipIsGrammar(s, i);
  }

  lemma {:induction false} ResponseMemberReads(s: seq<byte>, i: nat, key: seq<Code>, done: seq<Entry>)
    requires i <= |s|
    ensures MemberIsRead(s, i, key, Response, done)
    decreases |s| - i, 2
  {
    hide Ignored, Nested, Word, BodyOf, FromBody, ObjectAt, ArrayAt, ScalarAt, Usable;
    var acc := Read(Response, done);
    var value := ValueAt(s, i);
    if value.Ok? {
      var e := Entry(key, value.value);
      assert (done + [e])[..|done|] == done;
    }
    if key != USAGE {
      IgnoredReads(s, i, acc);
    } else {
      NestedReads(s, i, Usage);
      ReadNothing(Usage);
      var j := Space(s, i);
      if j < |s| {
        BracketIsNoScalar(s, j);
        if s[j] == LOWER_N { NullReads(s, j); }
      }
    }
  }

  lemma NullReads(s: seq<byte>, i: nat)
    requires i < |s| && s[i] == LOWER_N
    ensures Erased(ScalarAt(s, i)) == Word(s, i + 1, NULL_TAIL)
  {
    hide Word;
    var r := Word(s, i + 1, NULL_TAIL);
    assert r.Ok? ==> r.value == ();
  }

  lemma NotThere(kind: Kind, done: seq<Entry>, e: Entry)
    requires !kind.Response? && IsKnown(kind, e.key) && !Repeated(Read(kind, done), e.key)
    ensures Lookup(done, e.key) == None
  {
    forall i | 0 <= i < |done| ensures done[i].key != e.key {
      assert done[i].key == e.key ==> done[i].key in KnownKeys(kind, done);
    }
    LookupNothing(done, e.key);
  }

  /** The names differ, so a value lands in its own field. */
  lemma NamesDiffer()
    ensures |PROMPT_TOKENS| == 13 && |COMPLETION_TOKENS| == 17 && |TOTAL_TOKENS| == 12
    ensures |PROMPT_DETAILS| == 21 && |COMPLETION_DETAILS| == 25
    ensures |CACHED_TOKENS| == 13 && |REASONING_TOKENS| == 16
  {
  }

  lemma BodyAppend(done: seq<Entry>, e: Entry)
    requires IsKnown(Usage, e.key) ==> Lookup(done, e.key) == None
    requires Typed(Usage, e)
    ensures
      var body := BodyOf(done);
      BodyOf(done + [e])
      == if IsCounter(Usage, e.key) then SetCounter(body, e.key, CounterOf(e.value).value)
         else if e.key == PROMPT_DETAILS then body.(promptDetails := DetailsOf(e.value.members))
         else if e.key == COMPLETION_DETAILS then body.(completionDetails := DetailsOf(e.value.members))
         else body
  {
    hide CounterIn, DetailsIn, Lookup, Usable, CounterOf, DetailsOf;
    NamesDiffer();
    CounterAppend(done, e, PROMPT_TOKENS);
    CounterAppend(done, e, COMPLETION_TOKENS);
    CounterAppend(done, e, TOTAL_TOKENS);
    DetailsAppend(done, e, PROMPT_DETAILS);
    DetailsAppend(done, e, COMPLETION_DETAILS);
  }

  lemma {:induction false} UsageMemberReads(s: seq<byte>, i: nat, key: seq<Code>, done: seq<Entry>)
    requires i <= |s| && !Repeated(Read(Usage, done), key)
    ensures MemberIsRead(s, i, key, Usage, done)
    decreases |s| - i, 2
  {
    hide Ignored, Nested, Counter, BodyOf, KnownKeys, CounterOf, SetCounter, Lookup, Usable, ValueAt;
    var acc := Read(Usage, done);
    NamesDiffer();
    if ValueAt(s, i).Ok? {
      var e := Entry(key, ValueAt(s, i).value);
      KnownKeysAppend(Usage, done, e);
      if IsKnown(Usage, key) { NotThere(Usage, done, e); }
      if Typed(Usage, e) { BodyAppend(done, e); }
    }
    if IsCounter(Usage, key) {
      CounterReads(s, i);
    } else if IsDetails(Usage, key) {
      ReadNothing(Details);
      NestedReads(s, i, Details);
    } else {
      IgnoredReads(s, i, acc);
      assert acc.seen + {} == acc.seen;
    }
  }

  lemma DetailMemberReads(s: seq<byte>, i: nat, key: seq<Code>, done: seq<Entry>)
    requires i <= |s| && !Repeated(Read(Details, done), key)
    ensures MemberIsRead(s, i, key, Details, done)
  {
    hide Ignored, Nested, Counter, CounterIn, KnownKeys, CounterOf, Lookup, ValueAt;
    var acc := Read(Details, done);
    NamesDiffer();
    if ValueAt(s, i).Ok? {
      var e := Entry(key, ValueAt(s, i).value);
      KnownKeysAppend(Details, done, e);
      if IsKnown(Details, key) { NotThere(Details, done, e); }
      CounterAppend(done, e, CACHED_TOKENS);
      CounterAppend(done, e, REASONING_TOKENS);
    }
    if IsCounter(Details, key) {
      CounterReads(s, i);
    } else {
      IgnoredReads(s, i, acc);
      assert acc.seen + {} == acc.seen;
    }
  }

  // ---- reading the members of an object ----

  lemma UsableStep(kind: Kind, done: seq<Entry>, e: Entry, more: seq<Entry>)
    requires Usable(kind, done)
    ensures Usable(kind, done + [e]) <==> Typed(kind, e) && !Repeated(Read(kind, done), e.key)
    ensures done + ([e] + more) == done + [e] + more
    ensures Usable(kind, done + [e] + more) ==> Usable(kind, done + [e])
  {
    hide Usable, Typed, Read;
    UsableAppend(kind, done, e);
    assert done + ([e] + more) == done + [e] + more;
    if Usable(kind, done + [e] + more) { UsablePrefix(kind, done + [e], more); }
  }

  lemma UsableNone(kind: Kind)
    ensures Usable(kind, [])
  {
  }

  /** What the grammar finds after the `done` members is read as the meaning of all of them, or refused. */
  ghost predicate AreRead(found: Scan<seq<Entry>>, kind: Kind, done: seq<Entry>, fields: Scan<Fields>) {
    match found
    case Ok(rest, next) =>
      fields == if Usable(kind, done + rest) then Ok(Read(kind, done + rest), next) else Bad
    case _ => !fields.Ok?
  }

  lemma {:induction false} MembersRead(s: seq<byte>, i: nat, first: bool, kind: Kind, done: seq<Entry>)
    requires i <= |s| && Usable(kind, done)
    ensures AreRead(if first then ObjectAt(s, i) else EntriesEndAt(s, i), kind, done,
                    Members(s, i, first, Read(kind, done)))
    decreases |s| - i, 0
  {
    hide Usable, Read, MembersFrom, EntriesFrom, Key, Repeated;
    var j := Space(s, i);
    if j < |s| {
      assert done + [] == done;
      var at := if first then j else j + 1;
      if s[j] != CLOSE_BRACE && (first || s[j] == COMMA) && Key(s, at).Ok? {
        MembersFromRead(s, Key(s, at).next, Key(s, at).value, kind, done);
      }
    }
  }

  lemma {:induction false} MembersFromRead(s: seq<byte>, i: nat, key: seq<Code>, kind: Kind, done: seq<Entry>)
    requires i <= |s| && Usable(kind, done)
    ensures AreRead(EntriesFrom(s, i, key), kind, done,
                    if Repeated(Read(kind, done), key) then Bad else MembersFrom(s, i, key, Read(kind, done)))
    decreases |s| - i, 3
  {
    hide Usable, Read, Typed, Members, Member, Colon, ValueAt, EntriesEndAt, Repeated;
    if Colon(s, i).Ok? {
      var j := Colon(s, i).next;
      if !Repeated(Read(kind, done), key) { MemberReads(s, j, key, kind, done); }
      var value := ValueAt(s, j);
      if value.Ok? {
        var e := Entry(key, value.value);
        var rest := EntriesEndAt(s, value.next);
        UsableStep(kind, done, e, if rest.Ok? then rest.value else []);
        if Usable(kind, done + [e]) { MembersRead(s, value.next, false, kind, done + [e]); }
      }
    }
  }

  // ---- the verdict ----

  /** The members of the one object that the text holds, with nothing but whitespace around it. */
  function DocumentOf(s: seq<byte>): Option<seq<Entry>> {
    match ValueAt(s, 0)
    case Ok(Object(members), next) => if Space(s, next) == |s| then Some(members) else None
    case _ => None
  }

  /**
   The verdict on any text: it is accepted exactly when it is one JSON object and everything the probe looks at in it
   is usable, and then with the usage of its last `usage` member. An object with something unusable is rejected.
   */
  lemma VerdictIsMeaning(s: seq<byte>)
    ensures
      match DocumentOf(s)
      case Some(members) =>
        Classify(s) == if Usable(Response, members) then Done(ResponseUsage(members)) else Rejected
      case None => !Classify(s).Done?
  {
    hide Members, Usable, ResponseUsage, ObjectAt, ArrayAt, Scalar, ScalarAt;
    var j := Space(s, 0);
    if j < |s| {
      BracketIsNoScalar(s, j);
      if s[j] == OPEN_BRACE {
        ReadNothing(Response);
        UsableNone(Response);
        MembersRead(s, j + 1, true, Response, []);
        if ObjectAt(s, j + 1).Ok? { assert [] + ObjectAt(s, j + 1).value == ObjectAt(s, j + 1).value; }
      }
    }
  }

  /** A usage whose detail object is `null` is not read as one without details: the whole object is rejected. */
  lemma NullDetailsRejectResponse(s: seq<byte>, members: seq<Entry>, i: nat, j: nat)
    requires DocumentOf(s) == Some(members)
    requires i < |members| && members[i].key == USAGE && members[i].value.Object?
    requires j < |members[i].value.members|
    requires
      var e := members[i].value.members[j];
      (e.key == PROMPT_DETAILS || e.key == COMPLETION_DETAILS) && e.value.Null?
    ensures Classify(s) == Rejected
  {
    hide Classify, DocumentOf;
    var inner := members[i].value.members;
    NamesDiffer();
    assert !Typed(Usage, inner[j]);
    assert !Usable(Usage, inner);
    assert !Typed(Response, members[i]);
    VerdictIsMeaning(s);
  }

  /** The counter `inner` of the detail object `outer`, if both are there. */
  function NestedCounter(members: seq<Entry>, outer: seq<Code>, inner: seq<Code>): Option<u64> {
    match Lookup(members, outer)
    case Some(Object(fields)) => CounterIn(fields, inner)
    case _ => None
  }

  lemma DetailsAreNested(members: seq<Entry>, outer: seq<Code>)
    ensures DetailsIn(members, outer).cached == NestedCounter(members, outer, CACHED_TOKENS)
    ensures DetailsIn(members, outer).reasoning == NestedCounter(members, outer, REASONING_TOKENS)
  {
    hide CounterIn;
  }

  /**
   Where each counter of a usable response comes from: the last `usage` object, by name; the total is the one given
   or else the sum of the two halves, where both are given and the sum fits in 64 bits.
   */
  lemma CountersComeFromUsage(members: seq<Entry>, i: nat)
    requires Usable(Response, members)
    requires i < |members| && members[i].key == USAGE && members[i].value.Object?
    requires forall j | i < j < |members| :: members[j].key != USAGE
    ensures
      var usage := members[i].value.members;
      var (prompt, completion) := (CounterIn(usage, PROMPT_TOKENS), CounterIn(usage, COMPLETION_TOKENS));
      var total := CounterIn(usage, TOTAL_TOKENS);
      match ResponseUsage(members)
      case None => false
      case Some(u) =>
        && u.prompt == prompt && u.completion == completion
        && u.reasoning == NestedCounter(usage, COMPLETION_DETAILS, REASONING_TOKENS)
        && u.cached == NestedCounter(usage, PROMPT_DETAILS, CACHED_TOKENS)
        && (total.Some? ==> u.total == total)
        && (total.None? ==> (u.total.Some? <==> prompt.Some? && completion.Some?))
        && (total.None? && u.total.Some? && prompt.value + completion.value < TWO_TO_THE_64 ==>
              u.total.value == prompt.value + completion.value)
  {
    hide CounterIn, Usable, ResponseUsage, DetailsIn, NestedCounter, Lookup;
    LastUsageCounts(members, i);
    DetailsAreNested(members[i].value.members, PROMPT_DETAILS);
    DetailsAreNested(members[i].value.members, COMPLETION_DETAILS);
  }

  /** A response has a usage exactly when its last `usage` member is an object: `null` takes an earlier one back. */
  lemma {:induction false} UsageIsOfLastMember(members: seq<Entry>)
    ensures ResponseUsage(members).Some?
            <==> exists i | 0 <= i < |members| ::
                   members[i].key == USAGE && members[i].value.Object?
                   && forall j | i < j < |members| :: members[j].key != USAGE
  {
    hide BodyOf, FromBody;
    if members != [] {
      var n := |members| - 1;
      if members[n].key != USAGE {
        UsageIsOfLastMember(members[..n]);
        assert forall i | 0 <= i < n :: members[..n][i] == members[i];
      }
    }
  }

  /** A counter as the document of a response holds it. */
  function CounterDoc(n: u64): Doc {
    Number(false, Some(n))
  }

  function DetailDoc(name: string, n: u64): Doc
    requires forall k | 0 <= k < |name| :: name[k] <= '~'
  {
    Object([Entry(Codes(name), CounterDoc(n))])
  }

  lemma DetailDocIs(name: string, n: u64)
    requires name == "cached_tokens" || name == "reasoning_tokens"
    ensures Usable(Details, DetailDoc(name, n).members)
    ensures DetailsOf(DetailDoc(name, n).members)
            == if name == "cached_tokens" then TokenDetails(Some(n), None) else TokenDetails(None, Some(n))
  {
    hide Codes;
    NamesDiffer();
    var inner := DetailDoc(name, n).members;
    assert Typed(Details, inner[0]);
    LookupAt(inner, 0);
    LookupNothing(inner, if name == "cached_tokens" then REASONING_TOKENS else CACHED_TOKENS);
  }

  /** The members of a usage that has every counter. */
  function FullUsage(prompt: u64, completion: u64, total: u64, cached: u64, reasoning: u64): seq<Entry> {
    [Entry(Codes("prompt_tokens"), CounterDoc(prompt)),
     Entry(Codes("completion_tokens"), CounterDoc(completion)),
     Entry(Codes("total_tokens"), CounterDoc(total)),
     Entry(Codes("prompt_tokens_details"), DetailDoc("cached_tokens", cached)),
     Entry(Codes("completion_tokens_details"), DetailDoc("reasoning_tokens", reasoning))]
  }

  lemma FullUsageLookups(prompt: u64, completion: u64, total: u64, cached: u64, reasoning: u64)
    ensures
      var usage := FullUsage(prompt, completion, total, cached, reasoning);
      && Lookup(usage, PROMPT_TOKENS) == Some(CounterDoc(prompt))
      && Lookup(usage, COMPLETION_TOKENS) == Some(CounterDoc(completion))
      && Lookup(usage, TOTAL_TOKENS) == Some(CounterDoc(total))
      && Lookup(usage, PROMPT_DETAILS) == Some(DetailDoc("cached_tokens", cached))
      && Lookup(usage, COMPLETION_DETAILS) == Some(DetailDoc("reasoning_tokens", reasoning))
  {
    hide Codes, CounterDoc, DetailDoc, Lookup;
    NamesDiffer();
    var usage := FullUsage(prompt, completion, total, cached, reasoning);
    assert usage[0].key == PROMPT_TOKENS && usage[1].key == COMPLETION_TOKENS && usage[2].key == TOTAL_TOKENS;
    assert usage[3].key == PROMPT_DETAILS && usage[4].key == COMPLETION_DETAILS;
    LookupAt(usage, 0);
    LookupAt(usage, 1);
    LookupAt(usage, 2);
    LookupAt(usage, 3);
    LookupAt(usage, 4);
  }

  lemma FullUsageIsUsable(prompt: u64, completion: u64, total: u64, cached: u64, reasoning: u64)
    ensures Usable(Usage, FullUsage(prompt, completion, total, cached, reasoning))
  {
    hide Codes, DetailDoc;
    NamesDiffer();
    DetailDocIs("cached_tokens", cached);
    DetailDocIs("reasoning_tokens", reasoning);
    DetailIsObject("cached_tokens", cached);
    DetailIsObject("reasoning_tokens", reasoning);
    var usage := FullUsage(prompt, completion, total, cached, reasoning);
    forall i | 0 <= i < |usage| ensures Typed(Usage, usage[i]) {
    }
  }

  lemma DetailIsObject(name: string, n: u64)
    requires forall k | 0 <= k < |name| :: name[k] <= '~'
    ensures DetailDoc(name, n).Object?
  {
  }

  /** Every counter of a response has its name and its place. */
  lemma FullUsageIsRead(prompt: u64, completion: u64, total: u64, cached: u64, reasoning: u64)
    ensures
      var members := [Entry(Codes("usage"), Object(FullUsage(prompt, completion, total, cached, reasoning)))];
      && Usable(Response, members)
      && ResponseUsage(members)
         == Some(TokenUsage(Some(prompt), Some(completion), Some(total), Some(reasoning), Some(cached)))
  {
    hide Codes, DetailDoc, FullUsage, Lookup, DetailsOf;
    FullUsageLookups(prompt, completion, total, cached, reasoning);
    FullUsageIsUsable(prompt, completion, total, cached, reasoning);
    DetailDocIs("cached_tokens", cached);
    DetailDocIs("reasoning_tokens", reasoning);
    DetailIsObject("cached_tokens", cached);
    DetailIsObject("reasoning_tokens", reasoning);
    var members := [Entry(Codes("usage"), Object(FullUsage(prompt, completion, total, cached, reasoning)))];
    assert Typed(Response, members[0]);
    assert members[0].key == USAGE;
  }

  lemma {:induction false} LastUsageCounts(members: seq<Entry>, i: nat)
    requires i < |members| && members[i].key == USAGE && members[i].value.Object?
    requires forall j | i < j < |members| :: members[j].key != USAGE
    ensures ResponseUsage(members) == Some(FromBody(BodyOf(members[i].value.members)))
  {
    hide BodyOf, FromBody;
    var n := |members| - 1;
    if i < n { LastUsageCounts(members[..n], i); }
  }
}
