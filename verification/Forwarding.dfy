/** From a request's model sources to the body that is sent upstream. */
module Forwarding {
  import opened Bytes
  import opened Json
  import opened BodyProbes

  /** The body sent upstream: untouched without a target, or when the extracted model already is the target. */
  ghost function ForwardedBody(body: Body, upstreamModel: Option<string>, bodyModel: Option<string>): Body {
    match upstreamModel
    case None => body
    case Some(target) => if bodyModel == Some(target) then body else RewriteOrKeep(body, target)
  }

  ghost function RewriteOrKeep(body: Body, target: string): Body {
    match Rewritten(body, target)
    case Some(fields) => Members(Written(fields))
    case None => body
  }

  /** The last `model` member, the one the parsed map keeps, is a non-empty string. */
  ghost predicate LastModelIsUsable(members: seq<Member>) {
    exists i: nat :: IsLast(members, i) && UsableModel(members[i])
  }

  lemma LastUsableIsExtracted(members: seq<Member>, i: nat)
    requires IsLast(members, i) && UsableModel(members[i])
    ensures ExtractModel(members) == Some(members[i].value.text)
    ensures "model" in ToMap(members) && ToMap(members)["model"] == Str(members[i].value.text)
  {
    ToMapHasLast(members, i);
    ExtractIsLastUsable(members, i);
  }

  /**
   Skipping the rewrite because the extracted model already is the target changes nothing exactly when the last
   `model` member is a usable string.
   */
  lemma ShortcutIsSound(members: seq<Member>, target: string)
    requires ExtractModel(members) == Some(target)
    ensures RewriteOrKeep(Members(members), target) == Members(members) <==> LastModelIsUsable(members)
    ensures UniqueKeys(members) ==> LastModelIsUsable(members)
  {
    var u :| 0 <= u < |members| && UsableModel(members[u]);
    assert Mentions(members, "model");
    var i := LastOf(members, "model");
    ToMapHasLast(members, i);
    if LastModelIsUsable(members) {
      var k: nat :| IsLast(members, k) && UsableModel(members[k]);
      LastUsableIsExtracted(members, k);
    } else {
      assert ToMap(members)["model"] != Str(target);
      RewriteThenExtract(members, target);
    }
    if UniqueKeys(members) {
      assert u == i;
      assert IsLast(members, u);
    }
  }

  /** A second `model` member that is no string keeps the extracted model and breaks the shortcut. */
  lemma ShortcutNeedsUniqueKeys()
    ensures
      var members := [Member("model", Str("m")), Member("model", Null)];
      ExtractModel(members) == Some("m") && RewriteOrKeep(Members(members), "m") != Members(members)
  {
    var members := [Member("model", Str("m")), Member("model", Null)];
    ExtractIsLastUsable(members, 0);
    assert IsLast(members, 1);
    ToMapHasLast(members, 1);
    RewriteThenExtract(members, "m");
  }

  // ---- dispatch ----

  datatype Outcome = NoModel | UnknownModel(model: string) | Routed(model: string, body: Body, probed: bool)

  /** The routing header decides alone; otherwise the body is probed, and the default comes last. */
  ghost function Dispatch(header: Option<string>, body: Body, fallback: Option<string>,
                          upstreams: map<string, Option<string>>): Outcome
  {
    var bodyModel := if header.Some? then None else ModelOf(body);
    var model := if header.Some? then header else if bodyModel.Some? then bodyModel else fallback;
    match model
    case None => NoModel
    case Some(name) =>
      if name !in upstreams then UnknownModel(name)
      else Routed(name, ForwardedBody(body, upstreams[name], bodyModel), bodyModel.Some?)
  }

  /** The name comes from the header; without one from the body; without either it is the default. */
  predicate IsChosen(name: string, header: Option<string>, body: Body, fallback: Option<string>) {
    || header == Some(name)
    || (header == None && ModelOf(body) == Some(name))
    || (header == None && ModelOf(body) == None && fallback == Some(name))
  }

  /**
   A request is routed to the name that is chosen, and to no other, exactly when that name is configured. It is refused
   as unknown exactly when it is not, and for want of a model exactly when no source has one. The body is probed for the
   log exactly when it decided the routing.
   */
  lemma DispatchIsByPrecedence(header: Option<string>, body: Body, fallback: Option<string>,
                               upstreams: map<string, Option<string>>)
    ensures
      var out := Dispatch(header, body, fallback, upstreams);
      && (out == NoModel <==> header == None && ModelOf(body) == None && fallback == None)
      && (forall name :: out == UnknownModel(name)
                         <==> IsChosen(name, header, body, fallback) && name !in upstreams)
      && (forall name :: out.Routed? && out.model == name
                         <==> IsChosen(name, header, body, fallback) && name in upstreams)
      && (out.Routed? ==> (out.probed <==> header == None && ModelOf(body) != None))
  {
    hide ModelOf, ForwardedBody;
  }

  /** The values of all keys but `model`. */
  ghost function OtherFields(body: Body): map<string, Value>
    requires body.Members?
  {
    ToMap(body.members) - {"model"}
  }

  /** The body names the target, once parsed: under `model` its map holds it. */
  ghost predicate Names(body: Body, target: string) {
    body.Members? && "model" in ToMap(body.members) && ToMap(body.members)["model"] == Str(target)
  }

  /**
   What the upstream receives, however the request was routed: an upstream without a model name gets the body as it
   came. One with a name gets the body as it came if that cannot be parsed, is no object or mentions no model, and
   otherwise an object with every other field kept, from which the name is extracted; its parsed `model` is that name
   too, unless the rewrite was skipped on a body whose last `model` member is not a usable string.
   */
  lemma UpstreamSeesItsModel(header: Option<string>, body: Body, fallback: Option<string>,
                             upstreams: map<string, Option<string>>)
    requires Dispatch(header, body, fallback, upstreams).Routed?
    ensures
      var out := Dispatch(header, body, fallback, upstreams);
      out.model in upstreams && (header.Some? ==> out.model == header.value && !out.probed)
    ensures
      var out := Dispatch(header, body, fallback, upstreams);
      match upstreams[out.model]
      case None => out.body == body
      case Some(target) =>
        if body.Members? && Mentions(body.members, "model") then
          && out.body.Members? && "model" in ToMap(out.body.members) && OtherFields(out.body) == OtherFields(body)
          && (target != [] ==> ModelOf(out.body) == Some(target))
          && (Names(out.body, target)
              <==> (header.None? && ModelOf(body) == Some(target) ==> LastModelIsUsable(body.members)))
        else out.body == body
  {
    hide ToMap, ExtractModel;
    var out := Dispatch(header, body, fallback, upstreams);
    var bodyModel := if header.Some? then None else ModelOf(body);
    if upstreams[out.model].Some? && body.Members? {
      var target := upstreams[out.model].value;
      ToMapKeys(body.members, "model");
      if bodyModel.Some? { ExtractedIsMentioned(body.members); }
      if Mentions(body.members, "model") { ModelIsTarget(body.members, target, bodyModel); }
    }
  }

  /**
   The upstream reads its own name exactly when the client wrote it, or wrote some model in an object that can be
   parsed. So an object that is only skimmed keeps the model it came with, whatever the upstream is called.
   */
  lemma UpstreamReadsItsName(header: Option<string>, body: Body, fallback: Option<string>,
                             upstreams: map<string, Option<string>>, target: string)
    requires Dispatch(header, body, fallback, upstreams).Routed? && target != []
    requires upstreams[Dispatch(header, body, fallback, upstreams).model] == Some(target)
    ensures
      var out := Dispatch(header, body, fallback, upstreams);
      && (ModelOf(out.body) == Some(target)
          <==> ModelOf(body) == Some(target) || (body.Members? && Mentions(body.members, "model")))
      && (body.Skimmed? ==> out.body == body && ModelOf(out.body) == ModelOf(body))
  {
    hide ToMap, ExtractModel;
    UpstreamSeesItsModel(header, body, fallback, upstreams);
    if body.Members? && ModelOf(body).Some? { ExtractedIsMentioned(body.members); }
  }

  /** A skimmed body is routed by the model it names and sent on under it, though its upstream has another name. */
  lemma SkimmedKeepsClientModel()
    ensures
      var body := Skimmed([Str("alias")]);
      Dispatch(None, body, None, map["alias" := Some("name")]) == Routed("alias", body, true)
  {
    var members := ModelMembers([Str("alias")]);
    assert members == [Member("model", Str("alias"))];
    ExtractIsLastUsable(members, 0);
  }

  lemma ExtractedIsMentioned(members: seq<Member>)
    requires ExtractModel(members).Some?
    ensures Mentions(members, "model")
  {
    var u :| 0 <= u < |members| && UsableModel(members[u]);
  }

  lemma ModelIsTarget(members: seq<Member>, target: string, bodyModel: Option<string>)
    requires Mentions(members, "model")
    requires bodyModel == None || bodyModel == ExtractModel(members)
    ensures
      var out := ForwardedBody(Members(members), Some(target), bodyModel);
      && out.Members? && "model" in ToMap(out.members)
      && (target != [] ==> ExtractModel(out.members) == Some(target))
      && (Names(out, target) <==> (bodyModel == Some(target) ==> LastModelIsUsable(members)))
      && OtherFields(out) == OtherFields(Members(members))
  {
    hide Written, ToMap, ExtractModel;
    ToMapKeys(members, "model");
    var i := LastOf(members, "model");
    ToMapHasLast(members, i);
    if bodyModel == Some(target) {
      SkippedNames(members, target);
    } else {
      var r := Rewritten(Members(members), target);
      if r.Some? {
        WrittenReadsBack(r.value);
        if target != [] { RewriteThenExtract(members, target); }
      } else if target != [] {
        LastUsableIsExtracted(members, i);
      }
    }
  }

  /** When the rewrite is skipped, the parsed model is the target exactly when the last `model` member is usable. */
  lemma SkippedNames(members: seq<Member>, target: string)
    requires ExtractModel(members) == Some(target) && Mentions(members, "model")
    ensures Names(Members(members), target) <==> LastModelIsUsable(members)
  {
    hide ToMap, ExtractModel;
    var i := LastOf(members, "model");
    ToMapHasLast(members, i);
    if LastModelIsUsable(members) {
      var k: nat :| IsLast(members, k) && UsableModel(members[k]);
      LastUsableIsExtracted(members, k);
    }
  }

  /** With unique keys the parsed model is always the target, and so is the extracted one, if it is not empty. */
  lemma UniqueKeysSuffice(header: Option<string>, body: Body, fallback: Option<string>,
                          upstreams: map<string, Option<string>>)
    requires Dispatch(header, body, fallback, upstreams).Routed?
    requires body.Members? && UniqueKeys(body.members) && Mentions(body.members, "model")
    ensures
      var out := Dispatch(header, body, fallback, upstreams);
      upstreams[out.model].Some? ==> Names(out.body, upstreams[out.model].value)
  {
    hide ToMap, ExtractModel;
    UpstreamSeesItsModel(header, body, fallback, upstreams);
    var out := Dispatch(header, body, fallback, upstreams);
    if upstreams[out.model].Some? && ModelOf(body) == Some(upstreams[out.model].value) {
      ShortcutIsSound(body.members, upstreams[out.model].value);
    }
  }
}
