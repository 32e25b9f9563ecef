/** From the documents an upstream sends to the usage in the log line, through events, frames, scanner and meter. */
module EndToEnd {
  import opened Bytes
  import opened Recognizer
  import opened TokenUsages
  import opened UsageProbe
  import opened JsonGrammar
  import opened ProbeMeaning
  import opened BlankRuns
  import opened CandidateSplit
  import opened UsageScanning
  import opened Feeding
  import opened Events
  import opened Chunking
  import opened PlainBodies
  import JsonText
  import Metering

  /** What the members of a text say about its usage, if it is a usable document. */
  ghost function Says(text: seq<byte>): Option<TokenUsage> {
    match DocumentOf(text)
    case Some(members) => if Usable(Response, members) then ResponseUsage(members) else None
    case None => None
  }

  /** The verdict's usage is what the members say. */
  lemma UsageIsWhatItSays(text: seq<byte>)
    ensures UsageOf(text) == Says(text)
  {
    hide Classify, DocumentOf, Usable, ResponseUsage;
    VerdictIsMeaning(text);
  }

  /** What an event looks like on the wire. */
  lemma EventIsDataLine(text: seq<byte>)
    ensures BlockText(Event(text)) == Codes("data: ") + text + Codes("\n\n")
  {
    assert Codes("data: ") == MARKER + [SPACE] && Codes("\n\n") == [NEWLINE, NEWLINE];
  }

  // ---- streams of documents ----

  /**
   A block an upstream may send: lines without a marker; any JSON object on one line, whether or not the probe can use
   it, that fits the buffer; or a payload of bytes that start no object.
   */
  ghost predicate IsSent(b: Block) {
    match b
    case Ignored(_) => WellFormed(b)
    case Data(lead, text, end) =>
      && JsonBlank(lead) && OneLine(lead) && OneLine(text)
      && JsonBlank(end) && end != [] && end[|end| - 1] == NEWLINE
      && (IsInert(text) || (DocumentOf(text).Some? && IsTight(text) && |text| + |end| <= MAX_PENDING))
  }

  predicate IsTight(text: seq<byte>) {
    text != [] && !IsAsciiSpace(text[0]) && !IsAsciiSpace(text[|text| - 1])
  }

  ghost predicate AllSent(blocks: seq<Block>) {
    forall i | 0 <= i < |blocks| :: IsSent(blocks[i])
  }

  ghost function SaysBlock(b: Block): Option<TokenUsage> {
    if b.Data? then Says(b.text) else None
  }

  ghost function AllSay(blocks: seq<Block>): seq<Option<TokenUsage>> {
    if blocks == [] then [] else [SaysBlock(blocks[0])] + AllSay(blocks[1..])
  }

  lemma InertHasNoBrace(text: seq<byte>, k: nat)
    requires IsInert(text) && k < |text|
    ensures text[k] != OPEN_BRACE
  {
  }

  lemma InertSaysNothing(text: seq<byte>)
    requires IsInert(text)
    ensures DocumentOf(text) == None && !IsObject(text)
  {
    hide *;
    DocumentIs(text);
    var j := Space(text, 0);
    if j < |text| { InertHasNoBrace(text, j); }
    if IsObject(text) {
      ObjectIsBraced(text);
      InertHasNoBrace(text, 0);
    }
  }

  /** What an upstream may send is well formed, and adds exactly the usage its members say. */
  lemma SentIsWellFormed(b: Block)
    requires IsSent(b)
    ensures WellFormed(b) && UsageIn(b) == SaysBlock(b)
  {
    hide Classify, DocumentOf, Usable, ResponseUsage, OneLine, Trim, UsageOf, StartsNoObject;
    if b.Data? {
      UsageIsWhatItSays(b.text);
      VerdictIsMeaning(b.text);
      if IsInert(b.text) {
        InertSaysNothing(b.text);
        InertIsUseless(b.text);
      } else {
        TrimCore(b.text);
      }
    }
  }

  lemma {:induction false} AllSentAreWellFormed(blocks: seq<Block>)
    requires AllSent(blocks)
    ensures AllWellFormed(blocks)
    ensures forall k | 0 <= k <= |blocks| :: UsagesIn(blocks[..k]) == AllSay(blocks[..k])
    decreases |blocks|
  {
    hide IsSent, WellFormed, UsageIn, SaysBlock;
    if blocks != [] {
      SentIsWellFormed(blocks[0]);
      AllSentAreWellFormed(blocks[1..]);
      assert forall i | 0 < i < |blocks| :: blocks[i] == blocks[1..][i - 1];
      forall k | 0 < k <= |blocks| ensures UsagesIn(blocks[..k]) == AllSay(blocks[..k]) {
        assert blocks[..k][1..] == blocks[1..][..k - 1];
      }
    }
  }

  /**
   An upstream streams documents as events; the connection may break off; the frames are cut anywhere allowed. The one
   log line of the response then carries the merged usages that the members of the usable documents say that arrived
   in full. Unusable documents, `[DONE]`, comments and `event:` lines contribute nothing.
   */
  lemma DocumentsAreLogged(blocks: seq<Block>, unsent: seq<byte>, announced: Option<nat>, polls: seq<Metering.Poll>)
    requires AllSent(blocks)
    requires Flatten(Metering.DataFrames(polls)) + unsent == Stream(blocks)
    requires CutsAllowed(blocks, 0, Metering.DataFrames(polls))
    ensures
      var sent := |Stream(blocks)| - |unsent|;
      var lines := Metering.Dropped(Metering.Run(Metering.FRESH, true, polls), announced).lines;
      && |lines| == 1 && lines[0].responseBytes == sent
      && lines[0].usage == MergeAll(None, AllSay(blocks[..Delivered(blocks, sent)]))
  {
    hide IsSent, WellFormed, CutsAllowed, Stream, UsagesIn, AllSay, MergeAll, Metering.Run, Metering.Dropped, Delivered;
    AllSentAreWellFormed(blocks);
    Metering.StreamedResponseIsLogged(blocks, unsent, announced, polls);
  }

  /** A buffered document with blanks around it, in any number of frames. */
  lemma BufferedDocumentIsLogged(lead: seq<byte>, text: seq<byte>, tail: seq<byte>, announced: Option<nat>,
                                 polls: seq<Metering.Poll>)
    requires IsTight(text) && DocumentOf(text).Some? && Usable(Response, DocumentOf(text).value)
    requires JsonBlank(lead) && JsonBlank(tail) && |text| + |tail| <= MAX_PENDING && !HasMarker(lead + text + tail)
    requires Flatten(Metering.DataFrames(polls)) == lead + text + tail
    requires PlainCuts(|lead|, text, 0, Metering.DataFrames(polls))
    ensures
      var lines := Metering.Dropped(Metering.Run(Metering.FRESH, true, polls), announced).lines;
      |lines| == 1 && lines[0].usage == ResponseUsage(DocumentOf(text).value)
  {
    hide Usable, PlainCuts, Metering.Run, Metering.Dropped, Classify, ResponseUsage, DocumentOf, HasMarker;
    VerdictIsMeaning(text);
    Metering.BufferedResponseIsLogged(lead, text, tail, announced, polls);
  }

  /** Every object has a text that is read back to it, so no document is out of reach of these theorems. */
  lemma EveryDocumentHasText(members: seq<Entry>)
    ensures DocumentOf(JsonText.Render(Object(members))) == Some(members)
  {
    hide JsonText.ObjectBody, ObjectAt;
    var s := JsonText.Render(Object(members));
    JsonText.AtSplit(s, 0, [OPEN_BRACE], JsonText.ObjectBody(members));
    assert s[0] == OPEN_BRACE && Space(s, 0) == 0;
    JsonText.ObjectReadsBack(s, 1, members);
  }
}
