/**
 What the probe does not look at in a document: the text of its strings, and which of the names it does not know a
 member has. Documents of one shape mean the same to it.
 */
module Shapes {
  import opened Bytes
  import opened TokenUsages
  import opened UsageProbe
  import opened JsonGrammar
  import opened ProbeMeaning

  /** One of the eight names the probe looks for, in whichever object. */
  predicate IsName(key: seq<Code>) {
    key == USAGE || IsKnown(Usage, key) || IsKnown(Details, key)
  }

  function ShapeKey(key: seq<Code>): seq<Code> {
    if IsName(key) then key else []
  }

  /** The document with its strings emptied, and all names emptied that the probe does not look for. */
  function Shape(d: Doc): Doc
    decreases d
  {
    match d
    case String(_) => String([])
    case Array(items) => Array(ItemShapes(items))
    case Object(members) => Object(MemberShapes(members))
    case _ => d
  }

  function ItemShapes(items: seq<Doc>): seq<Doc>
    decreases items
  {
    if items == [] then [] else [Shape(items[0])] + ItemShapes(items[1..])
  }

  function MemberShapes(members: seq<Entry>): (shapes: seq<Entry>)
    ensures |shapes| == |members|
    decreases members
  {
    if members == [] then [] else [EntryShape(members[0])] + MemberShapes(members[1..])
  }

  function EntryShape(e: Entry): Entry
    decreases e
  {
    Entry(ShapeKey(e.key), Shape(e.value))
  }

  lemma {:induction false} MemberShapeAt(members: seq<Entry>, i: nat)
    requires i < |members|
    ensures MemberShapes(members)[i] == EntryShape(members[i])
    decreases |members|
  {
    hide EntryShape;
    if i > 0 { MemberShapeAt(members[1..], i - 1); }
  }

  lemma {:induction false} MemberShapesFront(members: seq<Entry>, n: nat)
    requires n <= |members|
    ensures MemberShapes(members[..n]) == MemberShapes(members)[..n]
    decreases |members|
  {
    hide EntryShape;
    if 0 < n {
      assert members[..n][1..] == members[1..][..n - 1];
      MemberShapesFront(members[1..], n - 1);
    }
  }

  /** Emptying a name that is none of the eight makes it none of the eight. */
  lemma EmptyIsNoName()
    ensures !IsName([])
  {
    NamesDiffer();
    assert |USAGE| == 5;
  }

  lemma ShapeKeepsNames(key: seq<Code>, name: seq<Code>)
    requires IsName(name)
    ensures ShapeKey(key) == name <==> key == name
  {
    EmptyIsNoName();
  }

  lemma KnownAreNames(kind: Kind, key: seq<Code>)
    ensures IsKnown(kind, key) ==> IsName(key)
    ensures IsKnown(kind, ShapeKey(key)) <==> IsKnown(kind, key)
    ensures IsCounter(kind, ShapeKey(key)) <==> IsCounter(kind, key)
    ensures IsDetails(kind, ShapeKey(key)) <==> IsDetails(kind, key)
    ensures ShapeKey(key) == USAGE <==> key == USAGE
  {
    EmptyIsNoName();
  }

  lemma ShapeKinds(d: Doc)
    ensures CounterOf(Shape(d)) == CounterOf(d)
    ensures (Shape(d).Object? <==> d.Object?) && (Shape(d).Null? <==> d.Null?)
    ensures d.Object? ==> Shape(d).members == MemberShapes(d.members)
  {
  }

  lemma {:induction false} TypedShape(kind: Kind, e: Entry)
    ensures Typed(kind, EntryShape(e)) <==> Typed(kind, e)
    decreases e, 0
  {
    hide IsKnown, IsCounter, IsDetails, CounterOf, Usable, ShapeKey, Shape;
    KnownAreNames(kind, e.key);
    ShapeKinds(e.value);
    if e.value.Object? {
      UsableShape(Details, e.value.members);
      UsableShape(Usage, e.value.members);
    }
  }

  lemma {:induction false} UsableShape(kind: Kind, members: seq<Entry>)
    ensures Usable(kind, MemberShapes(members)) <==> Usable(kind, members)
    decreases members, 1
  {
    hide Typed, MemberShapes, IsKnown;
    var shapes := MemberShapes(members);
    forall i | 0 <= i < |members|
      ensures shapes[i].key == ShapeKey(members[i].key)
      ensures IsKnown(kind, shapes[i].key) <==> IsKnown(kind, members[i].key)
      ensures Typed(kind, shapes[i]) <==> Typed(kind, members[i])
    {
      MemberShapeAt(members, i);
      TypedShape(kind, members[i]);
      KnownAreNames(kind, members[i].key);
    }
    forall i, j | 0 <= i < |members| && 0 <= j < |members| && IsKnown(kind, members[i].key)
      ensures shapes[i].key == shapes[j].key <==> members[i].key == members[j].key
    {
      KnownAreNames(kind, members[i].key);
      ShapeKeepsNames(members[j].key, members[i].key);
      ShapeKeepsNames(members[i].key, members[i].key);
    }
  }

  lemma {:induction false} LookupShape(members: seq<Entry>, name: seq<Code>)
    requires IsName(name)
    ensures Lookup(MemberShapes(members), name)
            == if Lookup(members, name).Some? then Some(Shape(Lookup(members, name).value)) else None
    decreases |members|
  {
    hide IsName, Shape, ShapeKey;
    if members != [] {
      ShapeKeepsNames(members[0].key, name);
      assert MemberShapes(members)[1..] == MemberShapes(members[1..]);
      LookupShape(members[1..], name);
    }
  }

  lemma CounterShape(members: seq<Entry>, name: seq<Code>)
    requires IsName(name)
    ensures CounterIn(MemberShapes(members), name) == CounterIn(members, name)
  {
    hide Lookup, MemberShapes, IsName;
    LookupShape(members, name);
    if Lookup(members, name).Some? { ShapeKinds(Lookup(members, name).value); }
  }

  lemma DetailsShape(members: seq<Entry>, name: seq<Code>)
    requires IsName(name)
    ensures DetailsIn(MemberShapes(members), name) == DetailsIn(members, name)
  {
    hide Lookup, MemberShapes, CounterIn;
    LookupShape(members, name);
    match Lookup(members, name)
    case Some(Object(inner)) =>
      ShapeKinds(Object(inner));
      CounterShape(inner, CACHED_TOKENS);
      CounterShape(inner, REASONING_TOKENS);
    case Some(d) => ShapeKinds(d);
    case None =>
  }

  lemma BodyShape(members: seq<Entry>)
    ensures BodyOf(MemberShapes(members)) == BodyOf(members)
  {
    hide MemberShapes, CounterIn, DetailsIn;
    CounterShape(members, PROMPT_TOKENS);
    CounterShape(members, COMPLETION_TOKENS);
    CounterShape(members, TOTAL_TOKENS);
    DetailsShape(members, PROMPT_DETAILS);
    DetailsShape(members, COMPLETION_DETAILS);
  }

  lemma {:induction false} UsageShape(members: seq<Entry>)
    ensures ResponseUsage(MemberShapes(members)) == ResponseUsage(members)
    decreases |members|
  {
    hide MemberShapes, BodyOf, FromBody, ShapeKey, Shape;
    if members != [] {
      var n := |members| - 1;
      var last := members[n];
      MemberShapeAt(members, n);
      MemberShapesFront(members, n);
      UsageShape(members[..n]);
      KnownAreNames(Response, last.key);
      ShapeKinds(last.value);
      if last.value.Object? { BodyShape(last.value.members); }
    }
  }

  /** Texts that hold documents of one shape get the same verdict. */
  lemma SameShapeSameVerdict(s: seq<byte>, t: seq<byte>)
    requires DocumentOf(s).Some? && DocumentOf(t).Some?
    requires MemberShapes(DocumentOf(s).value) == MemberShapes(DocumentOf(t).value)
    ensures Classify(s) == Classify(t)
  {
    hide *;
    var x, y := DocumentOf(s).value, DocumentOf(t).value;
    VerdictIsMeaning(s);
    VerdictIsMeaning(t);
    UsableShape(Response, x);
    UsableShape(Response, y);
    UsageShape(x);
    UsageShape(y);
  }
}
