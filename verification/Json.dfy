/** Request bodies as the probes see them: the members of one JSON object in text order, and the parsed map. */
module Json {
  import opened Bytes
  import opened TokenUsages

  /** A parsed value. Object keys are unique here; numbers keep what `as_u64` can tell. */
  datatype Value =
    | Null
    | Bool(flag: bool)
    | Number(unsigned: Option<u64>)
    | Str(text: string)
    | Array(items: seq<Value>)
    | Object(fields: map<string, Value>)

  datatype Member = Member(key: string, value: Value)

  /**
   A body is no JSON at all, some other JSON value, or an object with members in text order. `Skimmed` is an object the
   streaming probe gets through and the full parse refuses, because a skipped value cannot be parsed: a string with a
   lone surrogate, a number out of range, nesting that is too deep. The probe sees no more of it than its `model`s.
   */
  datatype Body = Unreadable | Other(value: Value) | Members(members: seq<Member>) | Skimmed(models: seq<Value>)

  /** The full parse of an object: later members win. */
  function ToMap(members: seq<Member>): map<string, Value> {
    if members == [] then map[]
    else
      var last := members[|members| - 1];
      ToMap(members[..|members| - 1])[last.key := last.value]
  }

  predicate Mentions(members: seq<Member>, key: string) {
    exists i | 0 <= i < |members| :: members[i].key == key
  }

  ghost predicate UniqueKeys(members: seq<Member>) {
    forall i, j | 0 <= i < j < |members| :: members[i].key != members[j].key
  }

  /** Index `i` is the last member with its key. */
  ghost predicate IsLast(members: seq<Member>, i: nat) {
    i < |members| && forall j | i < j < |members| :: members[j].key != members[i].key
  }

  lemma {:induction false} ToMapHasLast(members: seq<Member>, i: nat)
    requires IsLast(members, i)
    ensures members[i].key in ToMap(members) && ToMap(members)[members[i].key] == members[i].value
  {
    var n := |members| - 1;
    if i < n {
      assert members[n].key != members[i].key;
      ToMapHasLast(members[..n], i);
    }
  }

  lemma {:induction false} ToMapKeys(members: seq<Member>, key: string)
    ensures key in ToMap(members) <==> Mentions(members, key)
  {
    if members != [] {
      var n := |members| - 1;
      var front := members[..n];
      ToMapKeys(front, key);
      if Mentions(front, key) {
        var i :| 0 <= i < n && front[i].key == key;
        assert members[i].key == key;
      }
      if Mentions(members, key) && members[n].key != key {
        var i :| 0 <= i <= n && members[i].key == key;
        assert front[i].key == key;
      }
      if members[n].key == key { assert Mentions(members, key); }
    }
  }

  // ---- key order ----

  /** Lexicographic order on keys, as the parsed map keeps them. */
  predicate KeyLeq(a: string, b: string) {
    a == [] || (b != [] && (a[0] < b[0] || (a[0] == b[0] && KeyLeq(a[1..], b[1..]))))
  }

  lemma {:induction false} KeyLeqTotal(a: string, b: string)
    ensures KeyLeq(a, b) || KeyLeq(b, a)
    ensures KeyLeq(a, b) && KeyLeq(b, a) ==> a == b
  {
    if a != [] && b != [] && a[0] == b[0] {
      KeyLeqTotal(a[1..], b[1..]);
      assert a == [a[0]] + a[1..] && b == [b[0]] + b[1..];
    }
  }

  lemma {:induction false} KeyLeqTransitive(a: string, b: string, c: string)
    requires KeyLeq(a, b) && KeyLeq(b, c)
    ensures KeyLeq(a, c)
  {
    if a != [] && a[0] == b[0] == c[0] { KeyLeqTransitive(a[1..], b[1..], c[1..]); }
  }

  /** A key is not behind another one if it is a prefix of it, or smaller where the two first differ. */
  ghost predicate DiffersAt(a: string, b: string, k: nat) {
    && k <= |a| && k <= |b| && (forall m | 0 <= m < k :: a[m] == b[m])
    && (k == |a| || (k < |b| && a[k] < b[k]))
  }

  lemma {:induction false} KeyLeqIsLexicographic(a: string, b: string)
    ensures KeyLeq(a, b) <==> exists k: nat :: DiffersAt(a, b, k)
  {
    if a != [] && b != [] && a[0] == b[0] {
      KeyLeqIsLexicographic(a[1..], b[1..]);
      if KeyLeq(a, b) {
        var k: nat :| DiffersAt(a[1..], b[1..], k);
        assert forall m | 0 < m < k + 1 :: a[m] == a[1..][m - 1] && b[m] == b[1..][m - 1];
        assert DiffersAt(a, b, k + 1);
      } else if k: nat :| DiffersAt(a, b, k) {
        assert forall m | 0 <= m < k - 1 :: a[1..][m] == a[m + 1] && b[1..][m] == b[m + 1];
        assert DiffersAt(a[1..], b[1..], k - 1);
      }
    } else {
      assert DiffersAt(a, b, 0) <==> KeyLeq(a, b);
    }
  }

  ghost predicate IsLeastKey(key: string, keys: set<string>) {
    key in keys && forall k | k in keys :: KeyLeq(key, k)
  }

  lemma {:induction false} LeastKeyExists(keys: set<string>) returns (least: string)
    requires keys != {}
    ensures IsLeastKey(least, keys)
  {
    var some :| some in keys;
    var rest := keys - {some};
    KeyLeqTotal(some, some);
    if rest == {} {
      assert keys == {some};
      least := some;
    } else {
      var other := LeastKeyExists(rest);
      KeyLeqTotal(some, other);
      least := if KeyLeq(some, other) then some else other;
      forall k | k in keys ensures KeyLeq(least, k) {
        if k != some && least == some { KeyLeqTransitive(some, other, k); }
      }
    }
  }

  /** The members of a map, in key order: what writing it out gives. */
  ghost function Written(fields: map<string, Value>): (members: seq<Member>)
    decreases |fields.Keys|
  {
    if fields.Keys == {} then []
    else
      var least := (LeastKeyWitness(fields.Keys); var k :| IsLeastKey(k, fields.Keys); k);
      var rest := fields - {least};
      assert rest.Keys == fields.Keys - {least};
      [Member(least, fields[least])] + Written(rest)
  }

  lemma LeastKeyWitness(keys: set<string>)
    requires keys != {}
    ensures exists k :: IsLeastKey(k, keys)
  {
    var _ := LeastKeyExists(keys);
  }

  lemma {:induction false} ToMapCons(first: Member, rest: seq<Member>)
    ensures ToMap([first] + rest)
            == if first.key in ToMap(rest) then ToMap(rest) else ToMap(rest)[first.key := first.value]
    decreases |rest|
  {
    var all := [first] + rest;
    if rest == [] {
      assert all[..0] == [];
    } else {
      var front, last := rest[..|rest| - 1], rest[|rest| - 1];
      assert all[..|all| - 1] == [first] + front && all[|all| - 1] == last;
      ToMapCons(first, front);
    }
  }

  /** The first written member has the least key; the rest of the map follows. */
  lemma WrittenStep(fields: map<string, Value>) returns (least: string)
    requires fields.Keys != {}
    ensures IsLeastKey(least, fields.Keys) && (fields - {least}).Keys == fields.Keys - {least}
    ensures Written(fields) == [Member(least, fields[least])] + Written(fields - {least})
  {
    LeastKeyWitness(fields.Keys);
    least := Written(fields)[0].key;
  }

  /** Writing a map and reading it back gives the map; the written keys are unique and in order. */
  lemma {:induction false} WrittenReadsBack(fields: map<string, Value>)
    ensures ToMap(Written(fields)) == fields
    ensures forall i | 0 <= i < |Written(fields)| :: Written(fields)[i].key in fields.Keys
    ensures forall i, j | 0 <= i < j < |Written(fields)| ::
              KeyLeq(Written(fields)[i].key, Written(fields)[j].key)
    ensures UniqueKeys(Written(fields))
    decreases |fields.Keys|
  {
    hide KeyLeq;
    if fields.Keys != {} {
      hide Written, ToMap;
      var least := WrittenStep(fields);
      var rest := fields - {least};
      var tail := Written(rest);
      WrittenReadsBack(rest);
      ToMapCons(Member(least, fields[least]), tail);
      forall i | 0 < i < |Written(fields)|
        ensures Written(fields)[i] == tail[i - 1] && Written(fields)[i].key in rest.Keys
      {
      }
    }
  }
}
