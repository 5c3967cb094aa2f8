/** The normaliser at the end of `generate_content_with_ai`
    (Ai_ppt.py:501-514): it accepts what `repair_truncated_json` returned
    only if it is a truthy value with a non-empty `slides` entry, then gives
    every slide its default fields, with the topic as the fallback image
    prompt. Any exception on the way is caught and turned into None. */
module Normalize {
  import opened Wrappers
  import opened Text
  import opened Json
  import opened Slides

  /** The defaults applied to every element of `xs`, in order; None as soon
      as one element makes the filling raise. */
  function FillEach(xs: seq<JsonValue>, fallback: JsonValue): (r: Option<seq<JsonValue>>)
    ensures r.Some? <==> forall i :: 0 <= i < |xs| ==> FillDefaults(xs[i], fallback).Some?
    ensures r.Some? ==> |r.value| == |xs|
    ensures r.Some? ==> forall i :: 0 <= i < |xs| ==> FillDefaults(xs[i], fallback) == Some(r.value[i])
  {
    if xs == [] then Some([])
    else
      match FillDefaults(xs[0], fallback)
      case None => None
      case Some(first) =>
        match FillEach(xs[1..], fallback)
        case None => None
        case Some(rest) => Some([first] + rest)
  }

  /** What `for slide in s` visits when `s` is a str: its characters, each a
      str of length one. */
  function Chars(s: string): seq<JsonValue> {
    seq(|s|, i requires 0 <= i < |s| => JString([s[i]]))
  }

  /** What the normaliser returns for the value `slidesData` that
      `repair_truncated_json` produced (None there standing for Python's
      None). The `slides` entry is the value the loop walks over: a list
      visits its elements and gets them filled, a dict visits its keys and a
      str its characters, which are only looked into with `in` and never changed;
      numbers and booleans are not iterable. */
  function Normalized(slidesData: Option<JsonValue>, topic: string): (r: Option<JsonValue>)
    ensures r.Some? ==>
      && slidesData.Some? && slidesData.value.JObject?
      && "slides" in slidesData.value.fields
      && Truthy(slidesData.value.fields["slides"])
    ensures r.Some? ==> r.value.JArray? || r.value == slidesData.value.fields["slides"]
    ensures r.Some? && r.value.JArray? ==>
      && slidesData.value.fields["slides"].JArray?
      && var xs := slidesData.value.fields["slides"].items;
      && |r.value.items| == |xs| > 0
      && forall i :: 0 <= i < |xs| ==> FillDefaults(xs[i], JString(topic)) == Some(r.value.items[i])
  {
    match slidesData
    case None => None
    case Some(d) =>
      if !Truthy(d) || PyIn("slides", d) != Some(true) || !d.JObject? then None
      else
        var slides := d.fields["slides"];
        if !Truthy(slides) then None
        else
          match slides
          case JArray(xs) =>
            (match FillEach(xs, JString(topic))
             case None => None
             case Some(ys) => Some(JArray(ys)))
          case JObject(m) =>
            if forall k :: k in m ==> FillDefaults(JString(k), JString(topic)).Some?
            then Some(slides) else None
          case JString(s) =>
            if FillEach(Chars(s), JString(topic)).Some? then Some(slides) else None
          case _ => None
  }

  /** Every slide of an accepted list has a title-or-topic image prompt and
      the other defaults: a dict slide keeps its fields and gains the missing
      ones. */
  lemma NormalizedSlidesComplete(slidesData: Option<JsonValue>, topic: string)
    requires Normalized(slidesData, topic).Some?
    requires Normalized(slidesData, topic).value.JArray?
    ensures var ys := Normalized(slidesData, topic).value.items;
      var xs := slidesData.value.fields["slides"].items;
      && (forall i :: 0 <= i < |ys| ==> HasSlideFields(ys[i]))
      && (forall i :: 0 <= i < |ys| && xs[i].JObject? ==>
            ys[i].JObject? && DefaultsAdded(xs[i].fields, ys[i].fields, JString(topic)))
  {
    var ys := Normalized(slidesData, topic).value.items;
    var xs := slidesData.value.fields["slides"].items;
    forall i | 0 <= i < |ys|
      ensures HasSlideFields(ys[i])
    {
      assert FillDefaults(xs[i], JString(topic)) == Some(ys[i]);
    }
  }

  /** A list of dicts is always accepted when it is not empty, and each dict
      comes back filled. */
  lemma ListOfObjectsAccepted(m: map<string, JsonValue>, xs: seq<JsonValue>, topic: string)
    requires "slides" in m && m["slides"] == JArray(xs) && xs != []
    requires forall i :: 0 <= i < |xs| ==> xs[i].JObject?
    ensures var r := Normalized(Some(JObject(m)), topic);
      && r.Some? && r.value.JArray? && |r.value.items| == |xs|
      && forall i :: 0 <= i < |xs| ==>
           r.value.items[i].JObject? && DefaultsAdded(xs[i].fields, r.value.items[i].fields, JString(topic))
  {
    assert m != map[];
    var r := Normalized(Some(JObject(m)), topic);
    forall i | 0 <= i < |xs|
      ensures FillDefaults(xs[i], JString(topic)).Some?
    {
    }
  }

  /** A non-empty list of slides that already carry every default field
      passes the normaliser unchanged. */
  lemma {:induction false} CompleteListUnchanged(m: map<string, JsonValue>, xs: seq<JsonValue>, topic: string)
    requires "slides" in m && m["slides"] == JArray(xs) && xs != []
    requires forall v :: v in xs ==> HasSlideFields(v)
    ensures Normalized(Some(JObject(m)), topic) == Some(JArray(xs))
  {
    assert m != map[];
    forall i | 0 <= i < |xs|
      ensures FillDefaults(xs[i], JString(topic)) == Some(xs[i])
    {
      assert xs[i] in xs;
      FillDefaultsKeepsComplete(xs[i], JString(topic));
    }
    FillEachUnique(xs, JString(topic), xs);
  }

  /** An empty `slides` list, a missing `slides` key and a value that is
      not truthy are all rejected. */
  lemma NothingToNormalize(slidesData: Option<JsonValue>, topic: string)
    requires slidesData.Some? && slidesData.value.JObject?
    requires var m := slidesData.value.fields;
      "slides" !in m || m["slides"] == JArray([])
    ensures Normalized(slidesData, topic).None?
  {
  }

  /** A non-empty str under `slides` is rejected: its first character, a
      str of length one, cannot contain "bullets", so the assignment on it
      raises. */
  lemma StringSlidesRejected(m: map<string, JsonValue>, s: string, topic: string)
    requires "slides" in m && m["slides"] == JString(s)
    ensures Normalized(Some(JObject(m)), topic).None?
  {
    if s != [] {
      var first := Chars(s)[0];
      assert first == JString([s[0]]);
      OneCharLacksBullets(s[0]);
      assert FillDefaults(first, JString(topic)).None?;
    }
  }

  lemma OneCharLacksBullets(c: char)
    ensures !Contains([c], "bullets")
  {
    forall i | true
      ensures !OccursAt([c], "bullets", i)
    {
    }
  }

  /** The normaliser of Ai_ppt.py:501-514, statement by statement: the
      guards, then the loop over the slides. */
  method NormalizeSlides(slidesData: Option<JsonValue>, topic: string) returns (r: Option<JsonValue>)
    ensures r == Normalized(slidesData, topic)
  {
    if slidesData.None? || !Truthy(slidesData.value) {
      return None;
    }
    var d := slidesData.value;
    var isIn := PyIn("slides", d);
    if isIn.None? || !isIn.value {
      return None;
    }
    if !d.JObject? {
      return None;
    }
    var slides := d.fields["slides"];
    if !Truthy(slides) {
      return None;
    }
    match slides
    case JArray(xs) =>
      var filled := FillList(xs, JString(topic));
      if filled.None? {
        return None;
      }
      return Some(JArray(filled.value));
    case JObject(m) =>
      var ok := KeysPass(m, JString(topic));
      return if ok then Some(slides) else None;
    case JString(s) =>
      var filled := FillList(Chars(s), JString(topic));
      return if filled.Some? then Some(slides) else None;
    case _ =>
      return None;
  }

  /** `for slide in slides:` over a list, giving each element its defaults
      and stopping at the first that raises. */
  method FillList(xs: seq<JsonValue>, fallback: JsonValue) returns (r: Option<seq<JsonValue>>)
    ensures r == FillEach(xs, fallback)
  {
    var out: seq<JsonValue> := [];
    var i := 0;
    while i < |xs|
      invariant 0 <= i <= |xs| && |out| == i
      invariant forall j :: 0 <= j < i ==> FillDefaults(xs[j], fallback) == Some(out[j])
    {
      var slide := FillDefaults(xs[i], fallback);
      if slide.None? {
        return None;
      }
      out := out + [slide.value];
      i := i + 1;
    }
    FillEachUnique(xs, fallback, out);
    return Some(out);
  }

  /** A list filled element by element is what FillEach gives. */
  lemma FillEachUnique(xs: seq<JsonValue>, fallback: JsonValue, ys: seq<JsonValue>)
    requires |ys| == |xs|
    requires forall j :: 0 <= j < |xs| ==> FillDefaults(xs[j], fallback) == Some(ys[j])
    ensures FillEach(xs, fallback) == Some(ys)
  {
    var r := FillEach(xs, fallback);
    assert r.Some?;
    assert r.value == ys by {
      forall j | 0 <= j < |xs|
        ensures r.value[j] == ys[j]
      {
        assert FillDefaults(xs[j], fallback) == Some(r.value[j]);
      }
    }
  }

  /** `for slide in slides:` over a dict: each key is a str, which passes
      only if all three field names are substrings of it. The order in which
      a dict lists its keys does not matter, since one failing key is
      enough to reject the whole. */
  method KeysPass(m: map<string, JsonValue>, fallback: JsonValue) returns (ok: bool)
    ensures ok <==> forall k :: k in m ==> FillDefaults(JString(k), fallback).Some?
  {
    var keys := m.Keys;
    while keys != {}
      invariant keys <= m.Keys
      invariant forall k :: k in m.Keys - keys ==> FillDefaults(JString(k), fallback).Some?
      decreases |keys|
    {
      var k :| k in keys;
      var slide := FillDefaults(JString(k), fallback);
      if slide.None? {
        return false;
      }
      keys := keys - {k};
    }
    return true;
  }
}
