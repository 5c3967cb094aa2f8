# AI PowerPoint generator: reply salvage and normalisation

This is a Dafny model of the part of `Ai_ppt.py` that turns a language
model's reply into a list of slide records. The rest of the application
(Streamlit UI, image search, PowerPoint writing, database) is not modelled.
The model covers:

- **Fence stripping** (`Fences`). `repair_truncated_json` strips the reply,
  drops a leading "```json", then a leading "```", then a trailing "```",
  and strips again. Python's `str.strip` whitespace set is modelled
  character by character (`Text`).
- **The fast path** (`Repair.Repaired`). The stripped text is handed to
  `json.loads`. The parser is a parameter `parse: string -> Option<JsonValue>`,
  where None stands for the `JSONDecodeError`. Every result holds for every
  parser, except `Repair.AcceptAllObjects` and `Repair.SalvagedSlidesAreObjects`,
  which assume that a braced text decodes, if at all, to a dict.
- **The salvage scan** (`Scan`, `Repair`). `"slides"` is located, then the
  first `[` at or after it, and braces are counted from there to the end of
  the text. Every `{…}` that opens at depth 0 and closes back to depth 0 is
  parsed. It is kept, with its three default fields (`Slides`), when it has
  a `title`.
- **The normaliser** in `generate_content_with_ai` (`Normalize`). It accepts
  a truthy value with a truthy `slides` entry and fills the defaults of every
  slide, with the topic as fallback image prompt. Python's `in`, truthiness
  and item assignment are modelled for every JSON value, so the exceptions
  the outer `try` turns into None are exact.
- **The request parameters** (`Request`). This is the choice of model,
  endpoint and bearer key, and the token budget `min(350·n + 500, 4000)`.
- **The composition** (`Generate`). The reply goes through the repair and
  then through the normaliser.

The imperative procedures (`RepairTruncatedJson`, `SalvageScan`,
`NormalizeSlides`, `FillList`, `KeysPass`, `GenerateFromReply`) mirror the
source's branches and loops. `NormalizeSlides` splits on the JSON type of
`slides`, as Python's `for` does: a list visits its elements, a dict its
keys, and a str its characters, each a one-character str (`Normalize.Chars`). Each is proved equal to a specification
function (`Repaired`, `Candidates`/`AcceptAll`, `Normalized`, `FillEach`,
`Generated`), and the properties are lemmas about those functions.

Two quirks of the source are reproduced rather than corrected, and each is
shown by a lemma:

- Braces inside quoted strings are counted (`Scan.QuotedBraceCloses`).
- A stray `}` leaves the counter at -1 between records, so no later
  top-level record is marked as long as the braces after it balance, as in
  `[}{}{}]` (`Scan.StrayCloseHidesLaterRecords`). A `{` inside a quoted
  string of a later record lifts the counter back to 0, and top-level
  records are found again from there (`Scan.QuotedOpenAfterStrayClose`).
  An object nested inside a later record then opens at depth 0 and is a
  candidate of its own (`Scan.NestedRecordAfterStrayClose`).

Fence stripping drops at most one "```json" and then at most one "```",
each test looking at what the previous step left. A blank after a first
"```json" therefore lets a second one survive (`Fences.OpenerCanSurvive`).

## Model

| member | source | states |
|---|---|---|
| Text.Strip | Ai_ppt.py:365 | `str.strip` yields a text with no leading or trailing Python whitespace, never longer than its input |
| Text.StripUnique | Ai_ppt.py:365 | whitespace, then a trimmed core, then whitespace strips to exactly that core |
| Text.StripIdempotent | Ai_ppt.py:372 | stripping a second time changes nothing |
| Text.Find | Ai_ppt.py:380-384 | `str.find` returns an index at or after `from` where the needle occurs, and there is no earlier one; or no index, when the needle occurs nowhere after `from` |
| Text.FoundIffContains | Ai_ppt.py:380-382 | `find` succeeds exactly when the needle occurs in the text |
| Text.FindInPrefix | Ai_ppt.py:380-384 | cutting the text after the first occurrence does not change what `find` returns |
| Fences.StripFences | Ai_ppt.py:365-372 | the fence-stripped text is trimmed and no longer than the reply |
| Fences.FencedPayload | Ai_ppt.py:365-372 | a payload whose core is not itself fenced comes out as that core when sent bare or behind a "```json" opener with the closing fence cut off; when it opens with a blank or a JSON opener it also comes out as that core behind a bare "```" opener with the closing fence cut off, and fenced with "```json" or with "```" |
| Fences.UnfencedDocument | Ai_ppt.py:365-372 | a trimmed JSON document that is not fenced passes fence stripping unchanged |
| Fences.OpenerCanSurvive | Ai_ppt.py:366-371 | a doubled "```json" opener leaves "```json" as the whole result, so the result is not guaranteed free of it |
| Slides.FillDefaults | Ai_ppt.py:406-411 | on a dict, it keeps every field and adds the missing `bullets`, `image_prompt` (title or fallback) and `speaker_notes`; on any other value, it succeeds unchanged exactly when the three names are all `in` it, and raises otherwise |
| Slides.FillDefaultsKeepsComplete | Ai_ppt.py:507-512 | a slide that already has the three fields is left exactly as it is |
| Slides.FillDefaultsIdempotent | Ai_ppt.py:406-411 | filling the defaults twice gives the same as filling them once, whatever the second fallback |
| Slides.TitleOnlySlide | Ai_ppt.py:405-411 | a record with only a title gets empty bullets, its title as image prompt and empty notes |
| Scan.StepAt | Ai_ppt.py:393-415 | one character can only clear the marked start or set it to the current `{`; a candidate is emitted only at a `}` with a start marked |
| Scan.CandidatesInBounds | Ai_ppt.py:388-402 | every candidate lies after the bracket, opens with `{` and closes with `}` |
| Scan.CandidatesOrdered | Ai_ppt.py:388-416 | candidates come in text order, each closing before the next opens |
| Scan.ScanStep | Ai_ppt.py:392-416 | one step keeps the loop invariant: the counter is the net brace count since the bracket, and a start is marked exactly when the counter is positive |
| Scan.ClosesHere | Ai_ppt.py:399-402 | a reference candidate ending at the current `}` is the one the step emits |
| Scan.EmittedIsCandidate | Ai_ppt.py:399-402 | every emitted span is a reference candidate |
| Scan.ScanFromExact | Ai_ppt.py:392-416 | from any state that satisfies the invariant, the scan lists exactly the reference candidates still to close |
| Scan.CandidatesExact | Ai_ppt.py:388-416 | a span is a candidate if and only if it is a `{` at depth 0 followed by the first `}` that brings the depth back to 0 |
| Scan.UnclosedRecordDropped | Ai_ppt.py:392-416 | a record that the end of the text cuts off is never a candidate |
| Scan.ScanOfPrefix | Ai_ppt.py:392-416 | scanning a prefix of the text gives a prefix of the candidates, namely those closing before the cut |
| Scan.CandidatesOfPrefix | Ai_ppt.py:388-416 | truncation only removes candidates from the end |
| Scan.ScanPassesArrayEnd | Ai_ppt.py:392 | the scan runs past the array's `]` and still finds a record after it |
| Scan.QuotedBraceCloses | Ai_ppt.py:394-402 | a `}` inside a quoted string closes the record early |
| Scan.StrayCloseHidesLaterRecords | Ai_ppt.py:399-401 | after a stray `}` followed by balanced records, as in `[}{}{}]`, no later record is a candidate |
| Scan.NestedRecordAfterStrayClose | Ai_ppt.py:394-401 | after a stray `}` an object nested inside a later record is a candidate |
| Scan.QuotedOpenAfterStrayClose | Ai_ppt.py:394-401 | after a stray `}`, a quoted `{` in a later record brings the counter back to 0, so the quoted span and the next top-level record are candidates |
| Scan.TruncatedTail | Ai_ppt.py:392-416 | a record cut off at the end is dropped and the earlier one is kept |
| Repair.SpanText | Ai_ppt.py:402 | the candidate's text is `text[start..end + 1]` |
| Repair.AcceptCandidate | Ai_ppt.py:403-414 | a candidate is kept only when it decoded and has a `title`; the kept slide has the title and the three fields |
| Repair.AcceptObject | Ai_ppt.py:404-412 | a decoded dict is kept if and only if it has a title; it then keeps its fields and gains the defaults, with the title as image prompt |
| Repair.AcceptAllKept | Ai_ppt.py:401-415 | at most one slide per candidate, and every slide kept has a title and the three fields |
| Repair.KeptObject | Ai_ppt.py:404-412 | a decoded dict, once accepted, is a dict with a title and the three fields |
| Repair.AcceptAllObjects | Ai_ppt.py:401-415 | if braced texts always decode to dicts, every kept slide is such a dict |
| Repair.AcceptAllAppend | Ai_ppt.py:392-416 | candidates are judged independently: the slides of a concatenation are the slides of its parts, in order |
| Repair.SkippedCandidate | Ai_ppt.py:413-414 | a candidate that fails to decode or lacks a title contributes nothing |
| Repair.AcceptAllOnPrefix | Ai_ppt.py:402 | candidates inside a prefix read the same text from the prefix |
| Repair.SalvagedSlides | Ai_ppt.py:379-416 | every salvaged slide has a title and the three fields; a text without `"slides"`, or with no `[` at or after it, yields none |
| Repair.BracketPos | Ai_ppt.py:380-386 | the bracket found is the first `[` at or after the first `"slides"`, and it exists exactly when `"slides"` occurs and a `[` follows it |
| Repair.SalvagedSlidesAreObjects | Ai_ppt.py:401-412 | if braced texts decode to dicts, every salvaged slide is a dict with a title and the three fields |
| Repair.BracketAfterKey | Ai_ppt.py:384 | the bracket is the first `[` at or after the `"slides"` key, and it lies after the whole key |
| Repair.TruncationKeepsEarlierSlides | Ai_ppt.py:379-416 | cutting the text after the bracket keeps the same bracket; the slides salvaged are those kept from exactly the whole text's candidates that close before the cut, a prefix of its slides |
| Repair.Salvaged | Ai_ppt.py:379-420 | the result is None exactly when no slide was salvaged, and in particular when `"slides"` or a `[` after it is missing; otherwise it is a dict whose only key is `slides`, holding the salvaged slides |
| Repair.AcceptOneMore | Ai_ppt.py:401-412 | one more emitted candidate appends its slide, if kept, to the slides so far |
| Repair.ScanLoopStep | Ai_ppt.py:392-416 | one iteration moves from the candidates still to come to those after the current character, and appends any candidate it completes |
| Repair.SalvageScan | Ai_ppt.py:388-416 | the loop returns the slides kept from exactly the scan's candidates, in order |
| Repair.RepairTruncatedJson | Ai_ppt.py:363-420 | the procedure returns the fast-path parse when it succeeds, and the salvage result otherwise |
| Normalize.FillEach | Ai_ppt.py:506-512 | filling a list succeeds exactly when every element can be filled; the result has the same length, with each element filled |
| Normalize.Normalized | Ai_ppt.py:501-514 | a result exists only for a dict with a truthy `slides`; it is either a filled list of the same positive length, element by element, or the `slides` value itself |
| Normalize.NormalizedSlidesComplete | Ai_ppt.py:506-514 | every slide of a list result has the three fields, and a dict slide keeps its fields and gains the defaults, with the topic as fallback |
| Normalize.ListOfObjectsAccepted | Ai_ppt.py:501-514 | a non-empty list of dicts is always accepted, and each dict comes back filled |
| Normalize.CompleteListUnchanged | Ai_ppt.py:501-514 | a non-empty list of slides that already have the three fields passes through unchanged |
| Normalize.NothingToNormalize | Ai_ppt.py:501-504 | a missing `slides` key or an empty list gives None |
| Normalize.StringSlidesRejected | Ai_ppt.py:506-508 | a str under `slides` gives None: its first character cannot take a `bullets` item |
| Normalize.NormalizeSlides | Ai_ppt.py:501-514 | the statements compute Normalized |
| Normalize.FillList | Ai_ppt.py:506-512 | the loop over a list computes FillEach |
| Normalize.FillEachUnique | Ai_ppt.py:506-512 | a list filled element by element is the result of FillEach |
| Normalize.KeysPass | Ai_ppt.py:506-512 | the loop over a dict succeeds if and only if every key passes, whatever the iteration order |
| Request.TokenBudget | Ai_ppt.py:452 | the budget is at most 4000 and at most 350·n + 500, and it equals one of the two |
| Request.BudgetByCount | Ai_ppt.py:452 | below ten slides the budget is the formula; from ten slides on it is 4000 |
| Request.BudgetMonotone | Ai_ppt.py:452 | more slides never give fewer tokens |
| Request.BudgetOnFormRange | Ai_ppt.py:942 | for the 5 to 30 slides the form allows, the budget is between 2250 and 4000 |
| Request.SelectEndpoint | Ai_ppt.py:425-450 | the Groq URL and a Groq model are chosen if and only if the choice names Groq and a non-empty Groq key is given; the bearer is the stripped key of the endpoint chosen |
| Request.OpenRouterChoices | Ai_ppt.py:438-450 | the four OpenRouter menu entries map to Gemini, Llama 3.2, Mistral 7B and Claude 3.5 Sonnet on OpenRouter |
| Request.GroqChoices | Ai_ppt.py:425-436 | with a Groq key, the two Groq entries map to llama-3.3-70b-versatile and mixtral-8x7b-32768 on Groq |
| Request.GroqChoiceWithoutKey | Ai_ppt.py:425-450 | without a Groq key, the Groq Llama entry falls to the free Llama model on OpenRouter, and the Mixtral entry to paid Claude |
| Generate.GenerateFromReply | Ai_ppt.py:496-515 | a reply gives the normalised result of its repair, and no reply gives None |
| Generate.SalvagedPassesThrough | Ai_ppt.py:496-514 | slides salvaged from a reply that does not parse whole come back unchanged, since they already have every default |
| Generate.WholeReplyFilled | Ai_ppt.py:496-514 | a reply that parses to a dict with a non-empty list of dict slides yields those slides, each filled |
| Generate.UnparsableReplyRejected | Ai_ppt.py:496-515 | a reply that neither parses nor yields a salvaged slide gives None |

## Left out

- The HTTP request, its headers, its 60-second timeout and the response
  decoding: the reply text is the parameter of `Generate.GenerateFromReply`,
  and None stands for a status other than 200 or a raised exception.
- The `Content-Type` header and the prompt text: they are constant or
  plain string formatting, and nothing is decided from them.
- `json.loads` itself is a parameter. Numbers are unbounded integers, and
  the order of a dict's keys is not modelled; the result is the same in any
  order.
- Exceptions that the fast path's `json.loads` may raise other than
  `JSONDecodeError` are not distinguished from it. Such an exception would
  escape `repair_truncated_json` and be caught by the outer `try`.
- The in-place mutation of the slide dicts is modelled on values: each
  filled slide is a new value, so aliasing between the list and its
  elements is not captured.
- `Request.SelectEndpoint`: the API key is a str, as at both call sites;
  a missing key (`None.strip()` raising) is not modelled.
- The UI, the image providers, the PowerPoint writer, the database and
  the hashing of passwords: they are outside the reply-processing core.
