/** The two pure decisions `generate_content_with_ai` makes before it calls
    the model (Ai_ppt.py:424-452): which model and endpoint to use, with
    which key, and how many tokens to ask for. */
module Request {
  import opened Wrappers
  import opened Text

  const GroqUrl: string := "https://api.groq.com/openai/v1/chat/completions"
  const OpenRouterUrl: string := "https://openrouter.ai/api/v1/chat/completions"

  /** The most tokens any request asks for. */
  const TokenCap: int := 4000

  /** `min(slide_count * 350 + 500, 4000)`: 350 tokens per slide plus 500,
      never more than the cap. */
  function TokenBudget(slideCount: int): (r: int)
    ensures r <= TokenCap && r <= slideCount * 350 + 500
    ensures r == TokenCap || r == slideCount * 350 + 500
  {
    if TokenCap < slideCount * 350 + 500 then TokenCap else slideCount * 350 + 500
  }

  /** The cap takes over from ten slides on: below ten the budget is the
      per-slide formula, from ten on it is 4000. */
  lemma BudgetByCount(slideCount: int)
    ensures slideCount < 10 ==> TokenBudget(slideCount) == slideCount * 350 + 500
    ensures slideCount >= 10 ==> TokenBudget(slideCount) == TokenCap
  {
  }

  /** More slides never mean fewer tokens. */
  lemma BudgetMonotone(m: int, n: int)
    requires m <= n
    ensures TokenBudget(m) <= TokenBudget(n)
  {
  }

  /** On the slide counts the form offers (5 to 30), the budget lies
      between 2250 and 4000. */
  lemma BudgetOnFormRange(slideCount: int)
    requires 5 <= slideCount <= 30
    ensures 2250 <= TokenBudget(slideCount) <= TokenCap
  {
  }

  /** The model, URL and `Authorization` header of the request. */
  datatype Endpoint = Endpoint(model: string, url: string, authorization: string)

  /** `"Groq" in model_choice and groq_api_key`: the Groq key counts only
      when it is given and not empty. */
  predicate UsesGroq(modelChoice: string, groqKey: Option<string>) {
    Contains(modelChoice, "Groq") && groqKey.Some? && groqKey.value != ""
  }

  predicate IsGroqModel(model: string) {
    model == "llama-3.3-70b-versatile" || model == "mixtral-8x7b-32768"
  }

  /** The model on the Groq endpoint. */
  function GroqModel(modelChoice: string): string {
    if Contains(modelChoice, "Llama 3.3") then "llama-3.3-70b-versatile" else "mixtral-8x7b-32768"
  }

  /** The model on the OpenRouter endpoint: the first of Gemini, Llama and
      Mistral named in the choice, else Claude. */
  function OpenRouterModel(modelChoice: string): string {
    if Contains(modelChoice, "Gemini") then "google/gemini-2.0-flash-exp:free"
    else if Contains(modelChoice, "Llama") then "meta-llama/llama-3.2-3b-instruct:free"
    else if Contains(modelChoice, "Mistral") then "mistralai/mistral-7b-instruct:free"
    else "anthropic/claude-3.5-sonnet"
  }

  /** The endpoint selection of Ai_ppt.py:425-450. */
  function SelectEndpoint(modelChoice: string, apiKey: string, groqKey: Option<string>): (r: Endpoint)
    ensures r.url == GroqUrl <==> UsesGroq(modelChoice, groqKey)
    ensures r.url == GroqUrl || r.url == OpenRouterUrl
    ensures IsGroqModel(r.model) <==> UsesGroq(modelChoice, groqKey)
    ensures UsesGroq(modelChoice, groqKey) ==> r.authorization == "Bearer " + Strip(groqKey.value)
    ensures !UsesGroq(modelChoice, groqKey) ==> r.authorization == "Bearer " + Strip(apiKey)
  {
    if UsesGroq(modelChoice, groqKey) then
      Endpoint(GroqModel(modelChoice), GroqUrl, "Bearer " + Strip(groqKey.value))
    else
      Endpoint(OpenRouterModel(modelChoice), OpenRouterUrl, "Bearer " + Strip(apiKey))
  }

  /** `sub` found at a given index is contained. */
  lemma ContainsAt(s: string, sub: string, i: nat)
    requires i + |sub| <= |s| && s[i..i + |sub|] == sub
    ensures Contains(s, sub)
  {
    assert OccursAt(s, sub, i);
  }

  /** A text containing `sub` contains every prefix of it. */
  lemma ContainsPrefix(s: string, sub: string, k: nat)
    requires Contains(s, sub) && k <= |sub|
    ensures Contains(s, sub[..k])
  {
    var i :| 0 <= i <= |s| - |sub| && OccursAt(s, sub, i);
    assert s[i..i + k] == s[i..i + |sub|][..k];
    assert OccursAt(s, sub[..k], i);
  }

  /** `s` has no occurrence of the character `c`. */
  predicate LacksChar(s: string, c: char) {
    forall i :: 0 <= i < |s| ==> s[i] != c
  }

  /** A character of `sub` that `s` lacks keeps `sub` out of `s`. */
  lemma Absent(s: string, sub: string, k: nat)
    requires k < |sub| && LacksChar(s, sub[k])
    ensures !Contains(s, sub)
  {
    forall i: nat | i + |sub| <= |s|
      ensures !OccursAt(s, sub, i)
    {
      assert s[i..i + |sub|][k] == s[i + k];
    }
  }

  /** The characters and substrings of each entry of the form's model menu
      that the lemmas below rely on, read off the literal one at a time. */
  lemma GeminiText(choice: string)
    requires choice == "Free (Google Gemini)"
    ensures LacksChar(choice, 'q') && choice[13..19] == "Gemini"
  {
  }

  lemma MetaLlamaText(choice: string)
    requires choice == "Free (Meta Llama 3.2)"
    ensures LacksChar(choice, 'q') && LacksChar(choice, 'G') && choice[11..16] == "Llama"
  {
  }

  lemma MistralText(choice: string)
    requires choice == "Free (Mistral 7B)"
    ensures LacksChar(choice, 'q') && LacksChar(choice, 'G') && LacksChar(choice, 'L')
      && choice[6..13] == "Mistral"
  {
  }

  lemma ClaudeText(choice: string)
    requires choice == "Claude Sonnet (Paid)"
    ensures LacksChar(choice, 'q') && LacksChar(choice, 'G') && LacksChar(choice, 'L')
      && LacksChar(choice, 'M')
  {
  }

  lemma GroqLlamaText(choice: string)
    requires choice == "Groq (Llama 3.3) - FREE"
    ensures LacksChar(choice, 'e') && choice[0..4] == "Groq" && choice[6..15] == "Llama 3.3"
  {
  }

  lemma GroqMixtralText(choice: string)
    requires choice == "Groq (Mixtral) - FREE"
    ensures LacksChar(choice, 'L') && LacksChar(choice, 'e') && LacksChar(choice, 's')
      && choice[0..4] == "Groq"
  {
  }

  /** Which of the names the selection tests for each entry of the form's
      model menu contains. */
  lemma GeminiEntry(choice: string)
    requires choice == "Free (Google Gemini)"
    ensures !Contains(choice, "Groq") && Contains(choice, "Gemini")
  {
    GeminiText(choice);
    Absent(choice, "Groq", 3);
    ContainsAt(choice, "Gemini", 13);
  }

  lemma MetaLlamaEntry(choice: string)
    requires choice == "Free (Meta Llama 3.2)"
    ensures !Contains(choice, "Groq") && !Contains(choice, "Gemini") && Contains(choice, "Llama")
  {
    MetaLlamaText(choice);
    Absent(choice, "Groq", 3);
    Absent(choice, "Gemini", 0);
    ContainsAt(choice, "Llama", 11);
  }

  lemma MistralEntry(choice: string)
    requires choice == "Free (Mistral 7B)"
    ensures !Contains(choice, "Groq") && !Contains(choice, "Gemini") && !Contains(choice, "Llama")
      && Contains(choice, "Mistral")
  {
    MistralText(choice);
    Absent(choice, "Groq", 3);
    Absent(choice, "Gemini", 0);
    Absent(choice, "Llama", 0);
    ContainsAt(choice, "Mistral", 6);
  }

  lemma ClaudeEntry(choice: string)
    requires choice == "Claude Sonnet (Paid)"
    ensures !Contains(choice, "Groq") && !Contains(choice, "Gemini") && !Contains(choice, "Llama")
      && !Contains(choice, "Mistral")
  {
    ClaudeText(choice);
    Absent(choice, "Groq", 3);
    Absent(choice, "Gemini", 0);
    Absent(choice, "Llama", 0);
    Absent(choice, "Mistral", 0);
  }

  lemma GroqLlamaEntry(choice: string)
    requires choice == "Groq (Llama 3.3) - FREE"
    ensures Contains(choice, "Groq") && Contains(choice, "Llama 3.3")
      && !Contains(choice, "Gemini") && Contains(choice, "Llama")
  {
    GroqLlamaText(choice);
    Absent(choice, "Gemini", 1);
    ContainsAt(choice, "Groq", 0);
    ContainsAt(choice, "Llama 3.3", 6);
    ContainsPrefix(choice, "Llama 3.3", 5);
    assert "Llama 3.3"[..5] == "Llama";
  }

  lemma GroqMixtralEntry(choice: string)
    requires choice == "Groq (Mixtral) - FREE"
    ensures Contains(choice, "Groq") && !Contains(choice, "Llama 3.3")
      && !Contains(choice, "Gemini") && !Contains(choice, "Llama") && !Contains(choice, "Mistral")
  {
    GroqMixtralText(choice);
    ContainsAt(choice, "Groq", 0);
    Absent(choice, "Llama 3.3", 0);
    Absent(choice, "Gemini", 1);
    Absent(choice, "Llama", 0);
    Absent(choice, "Mistral", 2);
  }

  /** The four entries of the form's model menu that go to OpenRouter; the
      form calls the generator for them with no Groq key. */
  lemma OpenRouterChoices(choice: string, apiKey: string)
    ensures choice == "Free (Google Gemini)" ==>
      SelectEndpoint(choice, apiKey, None) == Endpoint("google/gemini-2.0-flash-exp:free", OpenRouterUrl, "Bearer " + Strip(apiKey))
    ensures choice == "Free (Meta Llama 3.2)" ==>
      SelectEndpoint(choice, apiKey, None) == Endpoint("meta-llama/llama-3.2-3b-instruct:free", OpenRouterUrl, "Bearer " + Strip(apiKey))
    ensures choice == "Free (Mistral 7B)" ==>
      SelectEndpoint(choice, apiKey, None) == Endpoint("mistralai/mistral-7b-instruct:free", OpenRouterUrl, "Bearer " + Strip(apiKey))
    ensures choice == "Claude Sonnet (Paid)" ==>
      SelectEndpoint(choice, apiKey, None) == Endpoint("anthropic/claude-3.5-sonnet", OpenRouterUrl, "Bearer " + Strip(apiKey))
  {
    if choice == "Free (Google Gemini)" {
      GeminiEntry(choice);
    }
    if choice == "Free (Meta Llama 3.2)" {
      MetaLlamaEntry(choice);
    }
    if choice == "Free (Mistral 7B)" {
      MistralEntry(choice);
    }
    if choice == "Claude Sonnet (Paid)" {
      ClaudeEntry(choice);
    }
  }

  /** The two Groq entries of the form's model menu, with the Groq key the
      form insists on before it calls the generator. */
  lemma GroqChoices(choice: string, apiKey: string, groqKey: string)
    requires groqKey != ""
    ensures choice == "Groq (Llama 3.3) - FREE" ==>
      SelectEndpoint(choice, apiKey, Some(groqKey)) == Endpoint("llama-3.3-70b-versatile", GroqUrl, "Bearer " + Strip(groqKey))
    ensures choice == "Groq (Mixtral) - FREE" ==>
      SelectEndpoint(choice, apiKey, Some(groqKey)) == Endpoint("mixtral-8x7b-32768", GroqUrl, "Bearer " + Strip(groqKey))
  {
    if choice == "Groq (Llama 3.3) - FREE" {
      GroqLlamaEntry(choice);
    }
    if choice == "Groq (Mixtral) - FREE" {
      GroqMixtralEntry(choice);
    }
  }

  /** Called without a Groq key, a Groq entry goes to OpenRouter: the Llama
      one to the free Llama model there, the Mixtral one (which names
      neither Gemini, Llama nor Mistral) to the paid Claude model. */
  lemma GroqChoiceWithoutKey(choice: string, apiKey: string, groqKey: Option<string>)
    requires groqKey.None? || groqKey == Some("")
    ensures choice == "Groq (Llama 3.3) - FREE" ==>
      SelectEndpoint(choice, apiKey, groqKey) ==
      Endpoint("meta-llama/llama-3.2-3b-instruct:free", OpenRouterUrl, "Bearer " + Strip(apiKey))
    ensures choice == "Groq (Mixtral) - FREE" ==>
      SelectEndpoint(choice, apiKey, groqKey) ==
      Endpoint("anthropic/claude-3.5-sonnet", OpenRouterUrl, "Bearer " + Strip(apiKey))
  {
    if choice == "Groq (Llama 3.3) - FREE" {
      GroqLlamaEntry(choice);
    }
    if choice == "Groq (Mixtral) - FREE" {
      GroqMixtralEntry(choice);
    }
  }
}
