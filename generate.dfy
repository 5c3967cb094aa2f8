/** The part of `generate_content_with_ai` after the model has answered
    (Ai_ppt.py:495-518): the reply text goes through `repair_truncated_json`
    and then through the normaliser. The HTTP exchange is not modelled; its
    outcome is the `reply` parameter, None when the status was not 200 or
    the call raised. */
module Generate {
  import opened Wrappers
  import opened Json
  import opened Slides
  import opened Fences
  import opened Repair
  import opened Normalize

  /** What `generate_content_with_ai` returns once the reply is known. */
  function Generated(reply: Option<string>, topic: string, parse: string -> Option<JsonValue>): Option<JsonValue> {
    match reply
    case None => None
    case Some(content) => Normalized(Repaired(content, parse), topic)
  }

  /** The steps of Ai_ppt.py:495-518 after the request. */
  method GenerateFromReply(reply: Option<string>, topic: string, parse: string -> Option<JsonValue>)
    returns (r: Option<JsonValue>)
    ensures r == Generated(reply, topic, parse)
    ensures r.Some? ==> reply.Some?
  {
    if reply.None? {
      return None;
    }
    var slidesData := RepairTruncatedJson(reply.value, parse);
    r := NormalizeSlides(slidesData, topic);
  }

  /** A reply that does not parse whole but from which slides could be
      salvaged yields those slides unchanged: each already carries every
      default field, so the normaliser adds nothing. */
  lemma SalvagedPassesThrough(content: string, topic: string, parse: string -> Option<JsonValue>)
    ensures var text := StripFences(content);
      parse(text).None? && SalvagedSlides(text, parse) != [] ==>
      Generated(Some(content), topic, parse) == Some(JArray(SalvagedSlides(text, parse)))
  {
    var text := StripFences(content);
    var xs := SalvagedSlides(text, parse);
    if parse(text).None? && xs != [] {
      var m := map["slides" := JArray(xs)];
      assert Repaired(content, parse) == Some(JObject(m));
      CompleteListUnchanged(m, xs, topic);
    }
  }

  /** A reply that parses whole to a dict whose `slides` is a non-empty list
      of dicts yields those dicts with the defaults added. */
  lemma WholeReplyFilled(content: string, topic: string, parse: string -> Option<JsonValue>,
                         m: map<string, JsonValue>, xs: seq<JsonValue>)
    requires parse(StripFences(content)) == Some(JObject(m))
    requires "slides" in m && m["slides"] == JArray(xs) && xs != []
    requires forall i :: 0 <= i < |xs| ==> xs[i].JObject?
    ensures var r := Generated(Some(content), topic, parse);
      && r.Some? && r.value.JArray? && |r.value.items| == |xs|
      && forall i :: 0 <= i < |xs| ==>
           r.value.items[i].JObject? && DefaultsAdded(xs[i].fields, r.value.items[i].fields, JString(topic))
  {
    ListOfObjectsAccepted(m, xs, topic);
  }

  /** A reply in which salvage finds nothing and which does not parse whole
      yields None. */
  lemma UnparsableReplyRejected(content: string, topic: string, parse: string -> Option<JsonValue>)
    requires parse(StripFences(content)).None?
    requires SalvagedSlides(StripFences(content), parse) == []
    ensures Generated(Some(content), topic, parse).None?
  {
  }
}
