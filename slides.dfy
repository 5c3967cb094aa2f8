/** The three default fields a slide record receives, as written twice in
    Ai_ppt.py: once for each salvaged record and once more for every slide in
    the normaliser of `generate_content_with_ai`. */
module Slides {
  import opened Wrappers
  import opened Json

  /** `slide.get('title', fallback)` on a decoded object. */
  function TitleOr(m: map<string, JsonValue>, fallback: JsonValue): JsonValue {
    if "title" in m then m["title"] else fallback
  }

  /** `'bullets'`, `'image_prompt'` and `'speaker_notes'` are all `in` the
      value, in the sense of Python's `in`. */
  predicate HasSlideFields(v: JsonValue) {
    HasKey(v, "bullets") && HasKey(v, "image_prompt") && HasKey(v, "speaker_notes")
  }

  /** `filled` is `m` with every field it had kept as it was and the missing
      defaults added: empty bullets, the title (or `fallback`) as image prompt,
      empty speaker notes. */
  predicate DefaultsAdded(m: map<string, JsonValue>, filled: map<string, JsonValue>, fallback: JsonValue) {
    && filled.Keys == m.Keys + {"bullets", "image_prompt", "speaker_notes"}
    && (forall k :: k in m ==> filled[k] == m[k])
    && ("bullets" !in m ==> filled["bullets"] == JArray([]))
    && ("image_prompt" !in m ==> filled["image_prompt"] == TitleOr(m, fallback))
    && ("speaker_notes" !in m ==> filled["speaker_notes"] == JString(""))
  }

  /** The statements `if 'k' not in slide: slide['k'] = default` for the three
      fields, in order. On a dict they add what is missing. A value that is not
      a dict survives only if all three names are already `in` it: otherwise
      either the `in` test raises (numbers, booleans, null) or the assignment
      does (lists, strings); None stands for that exception. */
  function FillDefaults(v: JsonValue, fallback: JsonValue): (r: Option<JsonValue>)
    ensures v.JObject? ==> r.Some? && r.value.JObject? && DefaultsAdded(v.fields, r.value.fields, fallback)
    ensures !v.JObject? ==> (r.Some? <==> HasSlideFields(v)) && (r.Some? ==> r.value == v)
    ensures r.Some? ==> HasSlideFields(r.value) && (HasKey(v, "title") ==> HasKey(r.value, "title"))
  {
    match v
    case JObject(m) =>
      var withBullets := if "bullets" in m then m else m["bullets" := JArray([])];
      var withPrompt := if "image_prompt" in withBullets then withBullets
                        else withBullets["image_prompt" := TitleOr(withBullets, fallback)];
      var withNotes := if "speaker_notes" in withPrompt then withPrompt
                       else withPrompt["speaker_notes" := JString("")];
      Some(JObject(withNotes))
    case _ =>
      if HasSlideFields(v) then Some(v) else None
  }

  /** A slide that already has the three fields is left exactly as it is. */
  lemma FillDefaultsKeepsComplete(v: JsonValue, fallback: JsonValue)
    requires HasSlideFields(v)
    ensures FillDefaults(v, fallback) == Some(v)
  {
    if v.JObject? {
      var filled := FillDefaults(v, fallback).value.fields;
      assert filled.Keys == v.fields.Keys;
      assert filled == v.fields;
    }
  }

  /** Filling twice is filling once, whatever the second fallback. */
  lemma FillDefaultsIdempotent(v: JsonValue, fallback: JsonValue, fallback': JsonValue)
    requires FillDefaults(v, fallback).Some?
    ensures FillDefaults(FillDefaults(v, fallback).value, fallback') == FillDefaults(v, fallback)
  {
    FillDefaultsKeepsComplete(FillDefaults(v, fallback).value, fallback');
  }

  /** A record that supplies only a title gets empty bullets, its title as
      image prompt and empty speaker notes. */
  lemma TitleOnlySlide(title: JsonValue, fallback: JsonValue)
    ensures FillDefaults(JObject(map["title" := title]), fallback)
         == Some(JObject(map["title" := title, "bullets" := JArray([]),
                             "image_prompt" := title, "speaker_notes" := JString("")]))
  {
    var filled := FillDefaults(JObject(map["title" := title]), fallback).value.fields;
    var expected := map["title" := title, "bullets" := JArray([]),
                        "image_prompt" := title, "speaker_notes" := JString("")];
    assert filled.Keys == expected.Keys;
    assert filled == expected;
  }
}
