/** Bytes, the byte classes the gateway distinguishes, and its two slice helpers: `find` and `trim`. */
module Bytes {

  datatype Option<+T> = None | Some(value: T)

  type byte = x: int | 0 <= x < 256

  /** One unit of decoded text: a byte as it came, or what an escape stands for. */
  type Code = x: int | 0 <= x < 0x10000

  const TAB: byte := 9
  const NEWLINE: byte := 10
  const FORM_FEED: byte := 12
  const RETURN: byte := 13
  const SPACE: byte := 32
  const QUOTE: byte := 34
  const PLUS: byte := 43
  const COMMA: byte := 44
  const MINUS: byte := 45
  const DOT: byte := 46
  const SLASH: byte := 47
  const ZERO: byte := 48
  const COLON: byte := 58
  const UPPER_E: byte := 69
  const OPEN_BRACKET: byte := 91
  const BACKSLASH: byte := 92
  const CLOSE_BRACKET: byte := 93
  const LOWER_B: byte := 98
  const LOWER_E: byte := 101
  const LOWER_F: byte := 102
  const LOWER_N: byte := 110
  const LOWER_R: byte := 114
  const LOWER_T: byte := 116
  const LOWER_U: byte := 117
  const OPEN_BRACE: byte := 123
  const CLOSE_BRACE: byte := 125

  /** Whitespace between JSON tokens (section 2 of RFC 8259). */
  predicate IsJsonSpace(b: byte) {
    b == SPACE || b == TAB || b == NEWLINE || b == RETURN
  }

  /** Whitespace as `trim` sees it: the JSON set and the form feed. */
  predicate IsAsciiSpace(b: byte) {
    IsJsonSpace(b) || b == FORM_FEED
  }

  predicate IsDigit(b: byte) {
    ZERO <= b <= ZERO + 9
  }

  predicate Blank(data: seq<byte>) {
    forall k | 0 <= k < |data| :: IsAsciiSpace(data[k])
  }

  predicate JsonBlank(data: seq<byte>) {
    forall k | 0 <= k < |data| :: IsJsonSpace(data[k])
  }

  /** `s` continues `p`: the bytes of `p` come first. */
  ghost predicate Extends(p: seq<byte>, s: seq<byte>) {
    |p| <= |s| && forall k | 0 <= k < |p| :: p[k] == s[k]
  }

  function Flatten(parts: seq<seq<byte>>): seq<byte> {
    if parts == [] then [] else parts[0] + Flatten(parts[1..])
  }

  lemma {:induction false} FlattenAppend(parts: seq<seq<byte>>, more: seq<seq<byte>>)
    ensures Flatten(parts + more) == Flatten(parts) + Flatten(more)
  {
    if parts == [] {
      assert parts + more == more;
    } else {
      assert (parts + more)[1..] == parts[1..] + more;
      FlattenAppend(parts[1..], more);
    }
  }

  // ---- slices of slices ----

  lemma DropDrop<T>(s: seq<T>, a: nat, b: nat)
    requires a + b <= |s|
    ensures s[a..][b..] == s[a + b..]
  {
  }

  lemma DropTake<T>(s: seq<T>, a: nat, n: nat)
    requires a + n <= |s|
    ensures s[a..][..n] == s[a..a + n]
  {
  }

  lemma SliceSlice<T>(s: seq<T>, lo: nat, hi: nat, a: nat, b: nat)
    requires lo <= hi <= |s| && a <= b <= hi - lo
    ensures s[lo..hi][a..b] == s[lo + a..lo + b]
  {
    assert forall k | 0 <= k < b - a :: s[lo..hi][a..b][k] == s[lo..hi][a + k] == s[lo + a + k];
  }

  // ---- find ----

  predicate OccursAt(haystack: seq<byte>, needle: seq<byte>, index: nat) {
    index + |needle| <= |haystack| && haystack[index..index + |needle|] == needle
  }

  /** The leftmost position of `needle` at or after `from`. */
  function FindFrom(haystack: seq<byte>, needle: seq<byte>, from: nat): (r: Option<nat>)
    requires needle != []
    requires from <= |haystack|
    ensures r.Some? ==> from <= r.value && OccursAt(haystack, needle, r.value)
    ensures r.Some? ==> forall k | from <= k < r.value :: !OccursAt(haystack, needle, k)
    ensures r.None? ==> forall k | from <= k :: !OccursAt(haystack, needle, k)
    decreases |haystack| - from
  {
    if from + |needle| > |haystack| then None
    else if haystack[from..from + |needle|] == needle then Some(from)
    else FindFrom(haystack, needle, from + 1)
  }

  function Find(haystack: seq<byte>, needle: seq<byte>): (r: Option<nat>)
    ensures needle == [] ==> r.None?
    ensures r.Some? ==> OccursAt(haystack, needle, r.value)
    ensures r.Some? ==> forall k | 0 <= k < r.value :: !OccursAt(haystack, needle, k)
    ensures needle != [] && r.None? ==> forall k: nat :: !OccursAt(haystack, needle, k)
  {
    if needle == [] || |needle| > |haystack| then None else FindFrom(haystack, needle, 0)
  }

  /** `Find` is determined by where the needle occurs. */
  lemma FindIs(haystack: seq<byte>, needle: seq<byte>, index: nat)
    requires needle != []
    requires OccursAt(haystack, needle, index)
    requires forall k | 0 <= k < index :: !OccursAt(haystack, needle, k)
    ensures Find(haystack, needle) == Some(index)
  {
    var r := Find(haystack, needle);
    assert r.Some?;
    assert !(r.value < index) && !(index < r.value);
  }

  lemma FindNothing(haystack: seq<byte>, needle: seq<byte>)
    requires forall k: nat :: !OccursAt(haystack, needle, k)
    ensures Find(haystack, needle) == None
  {
    var r := Find(haystack, needle);
    match r
    case None =>
    case Some(k) => assert false;
  }

  lemma OccursJoin(x: seq<byte>, y: seq<byte>, needle: seq<byte>, k: nat)
    ensures k + |needle| <= |x| ==> (OccursAt(x + y, needle, k) <==> OccursAt(x, needle, k))
    ensures k >= |x| ==> (OccursAt(x + y, needle, k) <==> OccursAt(y, needle, k - |x|))
  {
    if k + |needle| <= |x| {
      assert (x + y)[k..k + |needle|] == x[k..k + |needle|];
    } else if k >= |x| && k + |needle| <= |x + y| {
      assert (x + y)[k..k + |needle|] == y[k - |x|..k - |x| + |needle|];
    }
  }

  function Shift(r: Option<nat>, offset: nat): Option<nat> {
    if r.Some? then Some(r.value + offset) else None
  }

  /** Searching a joined text, when no occurrence lies across the joint. */
  lemma FindJoin(x: seq<byte>, y: seq<byte>, needle: seq<byte>)
    requires needle != []
    requires forall k: nat | k < |x| < k + |needle| :: !OccursAt(x + y, needle, k)
    ensures Find(x + y, needle)
            == if Find(x, needle).Some? then Find(x, needle) else Shift(Find(y, needle), |x|)
  {
    var fx, fy := Find(x, needle), Find(y, needle);
    forall k: nat
      ensures OccursAt(x + y, needle, k)
              <==> if k < |x| then OccursAt(x, needle, k) else OccursAt(y, needle, k - |x|)
    {
      OccursJoin(x, y, needle, k);
    }
    if fx.Some? {
      FindIs(x + y, needle, fx.value);
    } else if fy.Some? {
      FindIs(x + y, needle, |x| + fy.value);
    } else {
      FindNothing(x + y, needle);
    }
  }

  // ---- trim ----

  function TrimStart(data: seq<byte>): (r: seq<byte>)
    ensures |r| <= |data| && r == data[|data| - |r|..]
    ensures Blank(data[..|data| - |r|])
    ensures r != [] ==> !IsAsciiSpace(r[0])
  {
    if data != [] && IsAsciiSpace(data[0]) then
      var r := TrimStart(data[1..]);
      assert data[..|data| - |r|] == [data[0]] + data[1..][..|data[1..]| - |r|];
      r
    else data
  }

  function TrimEnd(data: seq<byte>): (r: seq<byte>)
    ensures |r| <= |data| && r == data[..|r|]
    ensures Blank(data[|r|..])
    ensures r != [] ==> !IsAsciiSpace(r[|r| - 1])
  {
    if data != [] && IsAsciiSpace(data[|data| - 1]) then
      var r := TrimEnd(data[..|data| - 1]);
      assert data[|r|..] == data[..|data| - 1][|r|..] + [data[|data| - 1]];
      r
    else data
  }

  function Trim(data: seq<byte>): seq<byte> {
    TrimEnd(TrimStart(data))
  }

  lemma {:induction false} TrimStartSkips(before: seq<byte>, rest: seq<byte>)
    requires Blank(before)
    requires rest != [] ==> !IsAsciiSpace(rest[0])
    ensures TrimStart(before + rest) == rest
  {
    if before == [] {
      assert before + rest == rest;
    } else {
      assert (before + rest)[1..] == before[1..] + rest;
      TrimStartSkips(before[1..], rest);
    }
  }

  lemma {:induction false} TrimEndDrops(core: seq<byte>, after: seq<byte>)
    requires Blank(after)
    requires core != [] ==> !IsAsciiSpace(core[|core| - 1])
    ensures TrimEnd(core + after) == core
  {
    var n := |after|;
    if n == 0 {
      assert core + after == core;
    } else {
      assert (core + after)[..|core| + n - 1] == core + after[..n - 1];
      TrimEndDrops(core, after[..n - 1]);
    }
  }

  lemma {:induction false} TrimStartBlank(data: seq<byte>)
    requires Blank(data)
    ensures TrimStart(data) == []
  {
    if data != [] { TrimStartBlank(data[1..]); }
  }

  lemma TrimBlank(data: seq<byte>)
    requires Blank(data)
    ensures Trim(data) == []
  {
    TrimStartBlank(data);
  }

  lemma TrimCore(core: seq<byte>)
    requires core != [] ==> !IsAsciiSpace(core[0]) && !IsAsciiSpace(core[|core| - 1])
    ensures Trim(core) == core
  {
    TrimStartSkips([], core);
    assert [] + core == core;
    TrimEndDrops(core, []);
    assert core + [] == core;
  }

  lemma {:induction false} TrimSkipsBlank(before: seq<byte>, rest: seq<byte>)
    requires Blank(before)
    ensures Trim(before + rest) == Trim(rest)
  {
    if before == [] {
      assert before + rest == rest;
    } else {
      assert (before + rest)[1..] == before[1..] + rest;
      TrimSkipsBlank(before[1..], rest);
    }
  }

  /** Tab, newline, form feed, return and space. */
  predicate IsTrimmed(b: byte) {
    b in {9, 10, 12, 13, 32}
  }

  /** Trimming takes away such bytes at both ends, and all of them. */
  lemma TrimIsSlice(data: seq<byte>) returns (a: nat, b: nat)
    ensures a <= b <= |data| && Trim(data) == data[a..b]
    ensures forall k | 0 <= k < a || b <= k < |data| :: IsTrimmed(data[k])
    ensures a < b ==> !IsTrimmed(data[a]) && !IsTrimmed(data[b - 1])
  {
    hide TrimStart, TrimEnd, Blank, IsAsciiSpace, IsTrimmed;
    var started := TrimStart(data);
    var core := TrimEnd(started);
    a := |data| - |started|;
    b := a + |core|;
    DropTake(data, a, b - a);
    BlankAt(data, 0, a);
    assert started[|core|..] == data[b..|data|];
    BlankAt(data, b, |data|);
    if a < b {
      assert started[0] == data[a] && core[|core| - 1] == data[b - 1];
      TrimmedIs(data[a]);
      TrimmedIs(data[b - 1]);
    }
  }

  lemma TrimmedIs(b: byte)
    ensures IsAsciiSpace(b) <==> IsTrimmed(b)
  {
  }

  lemma BlankAt(data: seq<byte>, a: nat, b: nat)
    requires a <= b <= |data| && Blank(data[a..b])
    ensures forall k | a <= k < b :: IsTrimmed(data[k])
  {
    forall k | a <= k < b ensures IsTrimmed(data[k]) {
      assert data[a..b][k - a] == data[k];
    }
  }

  method TrimSlice(data: seq<byte>) returns (r: seq<byte>)
    ensures r == Trim(data)
  {
    r := data;
    while r != [] && IsAsciiSpace(r[0])
      invariant TrimStart(r) == TrimStart(data)
    {
      r := r[1..];
    }
    while r != [] && IsAsciiSpace(r[|r| - 1])
      invariant TrimEnd(r) == Trim(data)
    {
      r := r[..|r| - 1];
    }
  }
}
