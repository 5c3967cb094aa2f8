/** Removal of the Markdown code fence an LLM tends to wrap its JSON in
    (Ai_ppt.py, the first statements of `repair_truncated_json`). */
module Fences {
  import opened Text

  /** Strip, drop a leading "```json", then a leading "```", then a trailing
      "```", and strip again; each step looks at the text the previous step
      left. */
  function StripFences(raw: string): (r: string)
    ensures IsTrimmed(r) && |r| <= |raw|
  {
    Strip(DropCloser(DropOpener(DropJsonOpener(Strip(raw)))))
  }

  function DropJsonOpener(t: string): string {
    if StartsWith(t, "```json") then t[7..] else t
  }

  function DropOpener(t: string): string {
    if StartsWith(t, "```") then t[3..] else t
  }

  function DropCloser(t: string): string {
    if EndsWith(t, "```") then t[..|t| - 3] else t
  }

  /** The payload conditions of FencedPayload: a trimmed core `t` that is
      neither opened nor closed by a fence, between runs of whitespace. */
  predicate PlainPayload(w1: string, t: string, w2: string) {
    AllSpace(w1) && AllSpace(w2) && IsTrimmed(t)
    && !StartsWith(t, "```") && !EndsWith(t, "```")
  }

  /** The payload begins with a blank, or with a character that can begin
      neither a fence nor the word `json`; a JSON document, which opens with
      `{` or `[`, always does. */
  predicate OpensCleanly(w1: string, t: string) {
    w1 != [] || (t != [] && t[0] != '`' && t[0] != 'j')
  }

  /** A non-empty text that opens with neither a backquote nor `j`, whose
      last three characters are not a closer, and which strips to `t`: what
      is left of a payload once its fences are gone. */
  predicate CleanPayload(p: string, t: string) {
    p != [] && p[0] != '`' && p[0] != 'j' && !EndsWith(p, "```") && Strip(p) == t
  }

  /** A text that does not begin with "```" does not begin with "```json". */
  lemma JsonOpenerIsOpener(s: string)
    requires !StartsWith(s, "```")
    ensures !StartsWith(s, "```json")
  {
    if |s| >= 7 {
      assert s[..3] == s[..7][..3];
    }
  }

  /** `w1 + t` (whitespace, then a core that is not fenced) ends in no
      closer, even when the core is shorter than the closer. */
  lemma NoCloserAfterSpace(w1: string, t: string)
    requires AllSpace(w1) && !EndsWith(t, "```")
    ensures !EndsWith(w1 + t, "```")
  {
    var d := w1 + t;
    if |t| >= 3 {
      assert d[|d| - 3..] == t[|t| - 3..];
    } else if |d| >= 3 {
      assert d[|d| - 3] == w1[|w1| - 3 + |t|];
      NotEndsWith(d, "```", 2);
    }
  }

  /** `w1 + t` does not begin with an opener either. */
  lemma NoOpenerBeforeCore(w1: string, t: string)
    requires AllSpace(w1) && !StartsWith(t, "```")
    ensures !StartsWith(w1 + t, "```")
  {
    if w1 != [] {
      assert (w1 + t)[0] == w1[0];
      NotStartsWith(w1 + t, "```", 0);
    } else {
      assert w1 + t == t;
    }
  }

  /** A payload that opens cleanly, and the core it strips to. */
  lemma PayloadIsClean(w1: string, t: string, w2: string)
    requires PlainPayload(w1, t, w2) && OpensCleanly(w1, t)
    ensures CleanPayload(w1 + t + w2, t)
  {
    var p := w1 + t + w2;
    if w1 != [] {
      assert p[0] == w1[0];
    } else {
      assert p[0] == t[0];
    }
    StripUnique(w1, t, w2);
    if w2 != [] {
      assert p[|p| - 1] == w2[|w2| - 1];
      NotEndsWith(p, "```", 0);
    } else {
      assert p == w1 + t;
      NoCloserAfterSpace(w1, t);
    }
  }

  /** The last steps: a clean text with a closer appended passes the opener
      test untouched, loses just the closer and strips to its core. */
  lemma ClosedSteps(p: string, t: string)
    requires CleanPayload(p, t)
    ensures Strip(DropCloser(DropOpener(p + "```"))) == t
  {
    NotStartsWith(p + "```", "```", 0);
    SuffixOfAppend(p, "```");
  }

  lemma BarePayload(w1: string, t: string, w2: string)
    requires PlainPayload(w1, t, w2)
    ensures StripFences(w1 + t + w2) == t
  {
    StripUnique(w1, t, w2);
    JsonOpenerIsOpener(t);
    StripTrimmed(t);
  }

  lemma JsonFencedPayload(p: string, t: string)
    requires CleanPayload(p, t)
    ensures StripFences("```json" + (p + "```")) == t
  {
    var x := "```json" + (p + "```");
    assert x[|x| - 1] == (p + "```")[|p| + 2];
    StripTrimmed(x);
    PrefixOfAppend("```json", p + "```");
    ClosedSteps(p, t);
  }

  /** Only the three backquotes of a bare fence match the json opener: its
      fourth character is the payload's first, which is not a `j`. */
  lemma BareFenceIsNotJson(p: string)
    requires p != [] && p[0] != 'j'
    ensures !StartsWith("```" + (p + "```"), "```json")
  {
    var x := "```" + (p + "```");
    assert x[3] == p[0];
    NotStartsWith(x, "```json", 3);
  }

  lemma BareFencedPayload(p: string, t: string)
    requires CleanPayload(p, t)
    ensures StripFences("```" + (p + "```")) == t
  {
    var x := "```" + (p + "```");
    BareFenceIsNotJson(p);
    assert x[|x| - 1] == (p + "```")[|p| + 2];
    StripTrimmed(x);
    PrefixOfAppend("```", p + "```");
    ClosedSteps(p, t);
  }

  /** With the closer cut off, stripping keeps the opener and everything up
      to the end of the core; what the opener leads then passes the opener
      and closer tests untouched. */
  lemma OpenerOnlyPayload(w1: string, t: string, w2: string)
    requires PlainPayload(w1, t, w2)
    ensures StripFences("```json" + (w1 + t + w2)) == t
  {
    var x := "```json" + (w1 + t + w2);
    if t == [] {
      assert w1 + t + w2 == w1 + w2;
      assert AllSpace(w1 + w2);
      StripTrailing("```json", w1 + w2);
      assert "```json"[..7] == "```json";
      StripTrimmed([]);
    } else {
      var c := "```json" + (w1 + t);
      AppendAssoc("```json", w1 + t, w2);
      assert c[|c| - 1] == t[|t| - 1];
      StripTrailing(c, w2);
      PrefixOfAppend("```json", w1 + t);
      NoOpenerBeforeCore(w1, t);
      NoCloserAfterSpace(w1, t);
      StripLeading(w1, t);
    }
  }

  /** The same with a bare opener: the json test sees the payload's first
      character after the three backquotes, which is not a `j`. */
  lemma BareOpenerOnlyPayload(w1: string, t: string, w2: string)
    requires PlainPayload(w1, t, w2) && OpensCleanly(w1, t)
    ensures StripFences("```" + (w1 + t + w2)) == t
  {
    var x := "```" + (w1 + t + w2);
    if t == [] {
      assert w1 + t + w2 == w1 + w2;
      assert AllSpace(w1 + w2);
      StripTrailing("```", w1 + w2);
      assert "```"[..3] == "```";
      StripTrimmed([]);
    } else {
      var c := "```" + (w1 + t);
      AppendAssoc("```", w1 + t, w2);
      assert c[|c| - 1] == t[|t| - 1];
      StripTrailing(c, w2);
      if w1 != [] {
        assert c[3] == w1[0];
      } else {
        assert c[3] == t[0];
      }
      NotStartsWith(c, "```json", 3);
      PrefixOfAppend("```", w1 + t);
      NoCloserAfterSpace(w1, t);
      StripLeading(w1, t);
    }
  }

  /** A payload `p = w1 + t + w2` (t its trimmed core) comes out as `t`
      whether it is sent bare or behind a "```json" opener whose closer was
      cut off by the token limit; when it opens cleanly (as any JSON
      document does, blank-led or not) it also comes out as `t` behind a
      bare "```" opener with the closer cut off, and fenced with "```json"
      or with "```". */
  lemma FencedPayload(w1: string, t: string, w2: string)
    requires PlainPayload(w1, t, w2)
    ensures var p := w1 + t + w2;
      && StripFences(p) == t
      && StripFences("```json" + p) == t
      && (OpensCleanly(w1, t) ==> StripFences("```json" + (p + "```")) == t)
      && (OpensCleanly(w1, t) ==> StripFences("```" + (p + "```")) == t)
      && (OpensCleanly(w1, t) ==> StripFences("```" + p) == t)
  {
    BarePayload(w1, t, w2);
    OpenerOnlyPayload(w1, t, w2);
    if OpensCleanly(w1, t) {
      PayloadIsClean(w1, t, w2);
      JsonFencedPayload(w1 + t + w2, t);
      BareFencedPayload(w1 + t + w2, t);
      BareOpenerOnlyPayload(w1, t, w2);
    }
  }

  /** The most common reply, a trimmed JSON document, is left as it is. */
  lemma UnfencedDocument(t: string)
    requires IsTrimmed(t) && t != [] && (t[0] == '{' || t[0] == '[')
    requires !EndsWith(t, "```")
    ensures StripFences(t) == t
  {
    NotStartsWith(t, "```", 0);
    BarePayload([], t, []);
    assert [] + t + [] == t;
  }

  /** The result can still begin with "```json": only one opener is removed,
      and the bare-fence test then sees the blank that followed it. */
  lemma OpenerCanSurvive(w: string)
    requires AllSpace(w) && w != []
    ensures StripFences("```json" + (w + "```json")) == "```json"
  {
    var q := w + "```json";
    var x := "```json" + q;
    assert x[|x| - 1] == q[|q| - 1];
    StripTrimmed(x);
    PrefixOfAppend("```json", q);
    assert q[0] == w[0];
    NotStartsWith(q, "```", 0);
    NotEndsWith(q, "```", 0);
    StripLeading(w, "```json");
  }
}
