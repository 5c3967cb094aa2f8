/** `repair_truncated_json` (Ai_ppt.py:363-420): fence stripping, the fast
    path through `json.loads`, and the salvage of complete slide records.
    `json.loads` is the parameter `parse`; None stands for the
    JSONDecodeError (or any other exception) it raises. */
module Repair {
  import opened Wrappers
  import opened Text
  import opened Json
  import opened Fences
  import opened Slides
  import opened Scan

  /** The key the salvage path looks for, quotes included. */
  const SlidesKey: string := "\"slides\""

  /** The text of a candidate, `text[slide_start:current_pos + 1]`, with
      Python's clamping of slice bounds (never needed for a real candidate). */
  function SpanText(text: string, sp: Span): (r: string)
    ensures sp.start <= sp.end < |text| ==> r == text[sp.start..sp.end + 1]
  {
    var hi := if sp.end + 1 <= |text| then sp.end + 1 else |text|;
    var lo := if sp.start <= hi then sp.start else hi;
    text[lo..hi]
  }

  /** The `try` block for one candidate (Ai_ppt.py:402-414), given what
      `json.loads` made of it: the record is kept, with its defaults, only
      when `'title' in` it; every exception skips it. The fallback passed to
      FillDefaults is never consulted, because the title is present. */
  function AcceptCandidate(parsed: Option<JsonValue>): (r: Option<JsonValue>)
    ensures r.Some? ==> parsed.Some? && HasKey(parsed.value, "title")
    ensures r.Some? ==> HasKey(r.value, "title") && HasSlideFields(r.value)
  {
    match parsed
    case None => None
    case Some(v) => if HasKey(v, "title") then FillDefaults(v, JNull) else None
  }

  /** A decoded object is kept exactly when it has a title; it then keeps
      every field it had and gains the missing defaults, its title serving
      as image prompt. */
  lemma AcceptObject(m: map<string, JsonValue>)
    ensures AcceptCandidate(Some(JObject(m))).Some? <==> "title" in m
    ensures "title" in m ==>
      var r := AcceptCandidate(Some(JObject(m))).value;
      r.JObject? && DefaultsAdded(m, r.fields, m["title"])
  {
    if "title" in m {
      assert TitleOr(m, JNull) == TitleOr(m, m["title"]);
    }
  }

  /** The slides kept from `cands`, in the order of the candidates. */
  function AcceptAll(text: string, cands: seq<Span>, parse: string -> Option<JsonValue>): seq<JsonValue> {
    if cands == [] then []
    else
      var kept := AcceptCandidate(parse(SpanText(text, cands[0])));
      (if kept.Some? then [kept.value] else []) + AcceptAll(text, cands[1..], parse)
  }

  /** At most one slide per candidate, and every slide kept has a title
      and the three fields a slide needs. */
  lemma {:induction false} AcceptAllKept(text: string, cands: seq<Span>, parse: string -> Option<JsonValue>)
    ensures |AcceptAll(text, cands, parse)| <= |cands|
    ensures forall v :: v in AcceptAll(text, cands, parse) ==> HasKey(v, "title") && HasSlideFields(v)
  {
    if cands != [] {
      AcceptAllKept(text, cands[1..], parse);
    }
  }

  /** What `json.loads` is known to do with a text that opens with `{` and
      closes with `}`: if it decodes at all, it decodes to a dict. */
  ghost predicate BracedTextsDecodeToObjects(parse: string -> Option<JsonValue>) {
    forall s :: 2 <= |s| && s[0] == '{' && s[|s| - 1] == '}' && parse(s).Some? ==> parse(s).value.JObject?
  }

  /** A dict holding a title and the three default fields as keys. */
  predicate SlideObject(v: JsonValue) {
    v.JObject? && "title" in v.fields && "bullets" in v.fields
    && "image_prompt" in v.fields && "speaker_notes" in v.fields
  }

  /** A decoded dict, once accepted, is a slide object. */
  lemma KeptObject(parsed: Option<JsonValue>)
    requires parsed.Some? ==> parsed.value.JObject?
    ensures AcceptCandidate(parsed).Some? ==> SlideObject(AcceptCandidate(parsed).value)
  {
    if parsed.Some? {
      AcceptObject(parsed.value.fields);
    }
  }

  /** Under that assumption every kept slide is a slide object. */
  lemma {:induction false} AcceptAllObjects(text: string, cands: seq<Span>, parse: string -> Option<JsonValue>)
    requires BracedTextsDecodeToObjects(parse)
    requires forall sp :: sp in cands ==>
      sp.start < sp.end < |text| && text[sp.start] == '{' && text[sp.end] == '}'
    ensures forall v :: v in AcceptAll(text, cands, parse) ==> SlideObject(v)
  {
    if cands != [] {
      var sp := cands[0];
      var s := SpanText(text, sp);
      assert sp in cands;
      assert 2 <= |s| && s[0] == '{' && s[|s| - 1] == '}' by {
        assert s[0] == text[sp.start] && s[|s| - 1] == text[sp.end];
      }
      KeptObject(parse(s));
      AcceptAllObjects(text, cands[1..], parse);
    }
  }

  /** Candidates are judged one at a time: the slides of a concatenation
      are the slides of each part, in order. */
  lemma {:induction false} AcceptAllAppend(text: string, c1: seq<Span>, c2: seq<Span>, parse: string -> Option<JsonValue>)
    ensures AcceptAll(text, c1 + c2, parse) == AcceptAll(text, c1, parse) + AcceptAll(text, c2, parse)
  {
    if c1 != [] {
      var kept := AcceptCandidate(parse(SpanText(text, c1[0])));
      var h: seq<JsonValue> := if kept.Some? then [kept.value] else [];
      assert (c1 + c2)[0] == c1[0];
      assert (c1 + c2)[1..] == c1[1..] + c2;
      calc {
        AcceptAll(text, c1 + c2, parse);
        h + AcceptAll(text, c1[1..] + c2, parse);
        { AcceptAllAppend(text, c1[1..], c2, parse); }
        h + (AcceptAll(text, c1[1..], parse) + AcceptAll(text, c2, parse));
        (h + AcceptAll(text, c1[1..], parse)) + AcceptAll(text, c2, parse);
      }
    } else {
      assert c1 + c2 == c2;
    }
  }

  /** A candidate that does not decode, or has no title, is dropped without
      disturbing the candidates around it. */
  lemma SkippedCandidate(text: string, c1: seq<Span>, sp: Span, c2: seq<Span>, parse: string -> Option<JsonValue>)
    requires AcceptCandidate(parse(SpanText(text, sp))).None?
    ensures AcceptAll(text, c1 + [sp] + c2, parse) == AcceptAll(text, c1, parse) + AcceptAll(text, c2, parse)
  {
    AcceptAllAppend(text, c1 + [sp], c2, parse);
    AcceptOneMore(text, c1, sp, parse);
  }

  /** Candidates that close inside a prefix read the same text there. */
  lemma {:induction false} AcceptAllOnPrefix(text: string, n: nat, cands: seq<Span>, parse: string -> Option<JsonValue>)
    requires n <= |text|
    requires forall sp :: sp in cands ==> sp.start <= sp.end < n
    ensures AcceptAll(text[..n], cands, parse) == AcceptAll(text, cands, parse)
  {
    if cands != [] {
      assert SpanText(text[..n], cands[0]) == SpanText(text, cands[0]);
      AcceptAllOnPrefix(text, n, cands[1..], parse);
    }
  }

  /** The slides the salvage path recovers (empty when it finds no `slides`
      key or no `[` after it). */
  function SalvagedSlides(text: string, parse: string -> Option<JsonValue>): (r: seq<JsonValue>)
    ensures forall v :: v in r ==> HasKey(v, "title") && HasSlideFields(v)
    ensures !Contains(text, SlidesKey) ==> r == []
    ensures Contains(text, SlidesKey) && Find(text, "[", Find(text, SlidesKey, 0).value).None? ==> r == []
  {
    match BracketPos(text)
    case None => []
    case Some(b) =>
      AcceptAllKept(text, Candidates(text, b), parse);
      AcceptAll(text, Candidates(text, b), parse)
  }

  /** `text.find('[', text.find('"slides"'))`, None where either search
      gives -1. */
  function BracketPos(text: string): (r: Option<nat>)
    ensures r.Some? ==> r.value < |text| && text[r.value] == '['
    ensures r.Some? <==> Contains(text, SlidesKey) && Find(text, "[", Find(text, SlidesKey, 0).value).Some?
    ensures r.Some? ==> forall j :: Find(text, SlidesKey, 0).value <= j < r.value ==> text[j] != '['
  {
    match Find(text, SlidesKey, 0)
    case None => None
    case Some(i) =>
      var b := Find(text, "[", i);
      if b.Some? then FirstBracket(text, i); b else None
  }

  /** The index `find('[', i)` gives holds a `[`, and no `[` comes before
      it from `i` on. */
  lemma FirstBracket(text: string, i: nat)
    requires Find(text, "[", i).Some?
    ensures var b := Find(text, "[", i).value;
      && text[b] == '['
      && forall j :: i <= j < b ==> text[j] != '['
  {
    var b := Find(text, "[", i).value;
    assert text[b..b + 1][0] == text[b];
    forall j | i <= j < b
      ensures text[j] != '['
    {
      assert !OccursAt(text, "[", j);
      assert text[j..j + 1] == [text[j]];
    }
  }

  /** Every salvaged slide is a slide object, provided braced texts decode
      to dicts. */
  lemma SalvagedSlidesAreObjects(text: string, parse: string -> Option<JsonValue>)
    requires BracedTextsDecodeToObjects(parse)
    ensures forall v :: v in SalvagedSlides(text, parse) ==> SlideObject(v)
  {
    if BracketPos(text).Some? {
      var b := BracketPos(text).value;
      CandidatesInBounds(text, b);
      AcceptAllObjects(text, Candidates(text, b), parse);
    }
  }

  /** The `[` that opens the list is the first one at or after the key
      `"slides"`; it cannot lie inside the key, so it comes after the whole
      key. */
  lemma BracketAfterKey(text: string)
    requires BracketPos(text).Some?
    ensures Find(text, SlidesKey, 0).value + |SlidesKey| <= BracketPos(text).value
    ensures forall j :: Find(text, SlidesKey, 0).value <= j < BracketPos(text).value ==> text[j] != '['
  {
    var i := Find(text, SlidesKey, 0).value;
    var b := BracketPos(text).value;
    assert text[i..i + |SlidesKey|] == SlidesKey;
    forall j | i <= j < i + |SlidesKey|
      ensures text[j] != '['
    {
      assert text[j] == text[i..i + |SlidesKey|][j - i];
    }
  }

  /** Cutting the reply short after the list has opened never invents a
      slide and loses only the records the cut leaves open: the slides
      salvaged from the prefix are those kept from exactly the candidates
      of the whole reply that close before the cut. */
  lemma TruncationKeepsEarlierSlides(text: string, n: nat, parse: string -> Option<JsonValue>)
    requires BracketPos(text).Some? && BracketPos(text).value < n <= |text|
    ensures BracketPos(text[..n]) == BracketPos(text)
    ensures SalvagedSlides(text[..n], parse) <= SalvagedSlides(text, parse)
    ensures var full := Candidates(text, BracketPos(text).value);
      exists k :: 0 <= k <= |full|
        && (forall i :: 0 <= i < k ==> full[i].end < n)
        && (forall i :: k <= i < |full| ==> full[i].end >= n)
        && SalvagedSlides(text[..n], parse) == AcceptAll(text, full[..k], parse)
  {
    var i := Find(text, SlidesKey, 0).value;
    var b := BracketPos(text).value;
    BracketAfterKey(text);
    FindInPrefix(text, SlidesKey, 0, n);
    FindInPrefix(text, "[", i, n);
    assert BracketPos(text[..n]) == Some(b);
    var full := Candidates(text, b);
    var cut := Candidates(text[..n], b);
    CandidatesOfPrefix(text, b, n);
    CandidatesInBounds(text[..n], b);
    AcceptAllOnPrefix(text, n, cut, parse);
    assert full == cut + full[|cut|..];
    AcceptAllAppend(text, cut, full[|cut|..], parse);
    assert full[..|cut|] == cut;
    assert forall i :: 0 <= i < |cut| ==> full[i] in cut;
  }

  /** `{"slides": slides}`. */
  function SlidesDocument(slides: seq<JsonValue>): JsonValue {
    JObject(map["slides" := JArray(slides)])
  }

  /** The salvage path (Ai_ppt.py:379-420): None, or a document whose only
      key is `slides`, holding a non-empty list of titled slides. */
  function Salvaged(text: string, parse: string -> Option<JsonValue>): (r: Option<JsonValue>)
    ensures r.None? <==> SalvagedSlides(text, parse) == []
    ensures r.Some? ==>
      && r.value.JObject? && r.value.fields.Keys == {"slides"}
      && r.value.fields["slides"] == JArray(SalvagedSlides(text, parse))
    ensures r.Some? ==> forall v :: v in r.value.fields["slides"].items ==>
      HasKey(v, "title") && HasSlideFields(v)
    ensures !Contains(text, SlidesKey) ==> r.None?
    ensures Contains(text, SlidesKey) && Find(text, "[", Find(text, SlidesKey, 0).value).None? ==> r.None?
  {
    var slides := SalvagedSlides(text, parse);
    if slides != [] then Some(SlidesDocument(slides)) else None
  }

  /** What `repair_truncated_json` returns for `jsonText`. */
  function Repaired(jsonText: string, parse: string -> Option<JsonValue>): Option<JsonValue> {
    var text := StripFences(jsonText);
    var whole := parse(text);
    if whole.Some? then whole else Salvaged(text, parse)
  }

  /** How one emitted candidate changes the kept slides. */
  lemma AcceptOneMore(text: string, emitted: seq<Span>, sp: Span, parse: string -> Option<JsonValue>)
    ensures var kept := AcceptCandidate(parse(SpanText(text, sp)));
      AcceptAll(text, emitted + [sp], parse)
      == AcceptAll(text, emitted, parse) + (if kept.Some? then [kept.value] else [])
  {
    AcceptAllAppend(text, emitted, [sp], parse);
    assert [sp][1..] == [];
  }

  /** What one character of the scan does to the candidates still to come
      and to the slides kept so far. */
  lemma ScanLoopStep(text: string, b: nat, pos: nat, depth: int, start: int,
                     emitted: seq<Span>, slides: seq<JsonValue>, parse: string -> Option<JsonValue>)
    requires b < pos < |text| && -1 <= start < pos
    requires Candidates(text, b) == emitted + ScanFrom(text, pos, depth, start)
    requires slides == AcceptAll(text, emitted, parse)
    ensures var next := StepAt(text[pos], pos, depth, start);
      !next.emit ==> Candidates(text, b) == emitted + ScanFrom(text, pos + 1, next.depth, next.start)
    ensures var next := StepAt(text[pos], pos, depth, start);
      next.emit ==>
        var kept := AcceptCandidate(parse(SpanText(text, Span(start, pos))));
        && Candidates(text, b) == emitted + [Span(start, pos)] + ScanFrom(text, pos + 1, next.depth, next.start)
        && AcceptAll(text, emitted + [Span(start, pos)], parse) == slides + (if kept.Some? then [kept.value] else [])
  {
    var next := StepAt(text[pos], pos, depth, start);
    var rest := ScanFrom(text, pos + 1, next.depth, next.start);
    if next.emit {
      var sp := Span(start, pos);
      assert ScanFrom(text, pos, depth, start) == [sp] + rest;
      assert emitted + ([sp] + rest) == emitted + [sp] + rest;
      AcceptOneMore(text, emitted, sp, parse);
    } else {
      assert ScanFrom(text, pos, depth, start) == [] + rest;
      assert [] + rest == rest;
    }
  }

  /** The scan loop of Ai_ppt.py:388-416, from just after the bracket at
      `b` to the end of the text, parsing each candidate as it closes. */
  method SalvageScan(text: string, b: nat, parse: string -> Option<JsonValue>) returns (slides: seq<JsonValue>)
    requires b < |text|
    ensures slides == AcceptAll(text, Candidates(text, b), parse)
  {
    slides := [];
    var pos := b + 1;
    var depth := 0;
    var start := -1;
    ghost var emitted: seq<Span> := [];
    while pos < |text|
      invariant b < pos <= |text| && -1 <= start < pos
      invariant Candidates(text, b) == emitted + ScanFrom(text, pos, depth, start)
      invariant slides == AcceptAll(text, emitted, parse)
      decreases |text| - pos
    {
      ghost var next := StepAt(text[pos], pos, depth, start);
      ScanLoopStep(text, b, pos, depth, start, emitted, slides, parse);
      var c := text[pos];
      if c == '{' && depth == 0 {
        start := pos;
        depth := 1;
      } else if c == '{' {
        depth := depth + 1;
      } else if c == '}' {
        depth := depth - 1;
        if depth == 0 && start != -1 {
          var slideText := text[start..pos + 1];
          assert slideText == SpanText(text, Span(start, pos));
          var kept := AcceptCandidate(parse(slideText));
          if kept.Some? {
            slides := slides + [kept.value];
          }
          emitted := emitted + [Span(start, pos)];
          start := -1;
        }
      }
      assert depth == next.depth && start == next.start;
      pos := pos + 1;
    }
    assert emitted + [] == emitted;
  }

  /** The source's procedure, statement by statement. */
  method RepairTruncatedJson(jsonText: string, parse: string -> Option<JsonValue>) returns (r: Option<JsonValue>)
    ensures r == Repaired(jsonText, parse)
    ensures parse(StripFences(jsonText)).Some? ==> r == parse(StripFences(jsonText))
  {
    var text := StripFences(jsonText);
    var whole := parse(text);
    if whole.Some? {
      return whole;
    }
    var slidesStart := Find(text, SlidesKey, 0);
    if slidesStart.None? {
      return None;
    }
    var bracketPos := Find(text, "[", slidesStart.value);
    if bracketPos.None? {
      return None;
    }
    var slides := SalvageScan(text, bracketPos.value, parse);
    if slides != [] {
      return Some(SlidesDocument(slides));
    }
    return None;
  }
}
