/** The brace-depth scan of `repair_truncated_json` (Ai_ppt.py:388-416):
    which substrings after the `slides` bracket it hands to `json.loads`.
    Braces are counted wherever they stand, including inside quoted strings,
    and the scan runs to the end of the text, past the array's `]`. */
module Scan {

  /** The candidate record `text[start..end + 1]`. */
  datatype Span = Span(start: nat, end: nat)

  /** Each span closes before the next one opens. */
  predicate Ordered(c: seq<Span>) {
    forall i, j :: 0 <= i < j < |c| ==> c[i].end < c[j].start
  }

  /** What reading one character does to the counter and the marked start,
      and whether it completes a candidate (Ai_ppt.py:393-415). */
  datatype Step = Step(depth: int, start: int, emit: bool)

  function StepAt(c: char, pos: nat, depth: int, start: int): (r: Step)
    ensures r.start == start || r.start == -1 || (r.start == pos && c == '{')
    ensures r.emit ==> c == '}' && start != -1 && r.start == -1
  {
    if c == '{' && depth == 0 then Step(1, pos, false)
    else if c == '{' then Step(depth + 1, start, false)
    else if c == '}' then
      if depth - 1 == 0 && start != -1 then Step(0, -1, true)
      else Step(depth - 1, start, false)
    else Step(depth, start, false)
  }

  /** The spans the loop hands to `json.loads` from index `pos` on, with the
      brace counter at `depth` and the marked record start at `start` (-1 when
      none is marked). */
  function ScanFrom(text: string, pos: nat, depth: int, start: int): (r: seq<Span>)
    requires -1 <= start < pos <= |text|
    decreases |text| - pos
  {
    if pos == |text| then []
    else
      var next := StepAt(text[pos], pos, depth, start);
      (if next.emit then [Span(start, pos)] else []) + ScanFrom(text, pos + 1, next.depth, next.start)
  }

  /** The candidates of a scan that starts just after the bracket at `b`. */
  function Candidates(text: string, b: nat): seq<Span>
    requires b < |text|
  {
    ScanFrom(text, b + 1, 0, -1)
  }

  /** Each candidate lies after the bracket, opens with `{` and closes with
      `}`. */
  lemma CandidatesInBounds(text: string, b: nat)
    requires b < |text|
    ensures forall sp :: sp in Candidates(text, b) ==> b < sp.start <= sp.end < |text|
    ensures forall sp :: sp in Candidates(text, b) ==> text[sp.start] == '{' && text[sp.end] == '}'
  {
    ScanFromBounds(text, b + 1, 0, -1);
    ScanFromOrdered(text, b + 1, 0, -1);
  }

  /** Every span the scan lists opens with `{` at the pending start or
      later, and closes with `}` at or after the current index. */
  lemma {:induction false} ScanFromBounds(text: string, pos: nat, depth: int, start: int)
    requires -1 <= start < pos <= |text|
    requires start != -1 ==> text[start] == '{'
    ensures forall sp :: sp in ScanFrom(text, pos, depth, start) ==>
      sp.start <= sp.end && pos <= sp.end < |text| && text[sp.start] == '{' && text[sp.end] == '}'
    decreases |text| - pos
  {
    if pos < |text| {
      var next := StepAt(text[pos], pos, depth, start);
      ScanFromBounds(text, pos + 1, next.depth, next.start);
    }
  }

  /** A candidate either is the pending record or opens at or after `pos`,
      and candidates come in text order without overlapping. */
  lemma {:induction false} ScanFromOrdered(text: string, pos: nat, depth: int, start: int)
    requires -1 <= start < pos <= |text|
    requires start != -1 ==> text[start] == '{'
    ensures forall sp :: sp in ScanFrom(text, pos, depth, start) ==> sp.start == start || pos <= sp.start
    ensures Ordered(ScanFrom(text, pos, depth, start))
    decreases |text| - pos
  {
    if pos < |text| {
      var next := StepAt(text[pos], pos, depth, start);
      ScanFromOrdered(text, pos + 1, next.depth, next.start);
    }
  }

  /** The candidates come in the order of their closing braces, each closing
      before the next opens. */
  lemma CandidatesOrdered(text: string, b: nat)
    requires b < |text|
    ensures Ordered(Candidates(text, b))
  {
    ScanFromOrdered(text, b + 1, 0, -1);
  }

  function Delta(c: char): int {
    if c == '{' then 1 else if c == '}' then -1 else 0
  }

  /** The number of `{` minus the number of `}` in `text[b + 1..k]`. */
  function Depth(text: string, b: nat, k: nat): int
    requires b < k <= |text|
    decreases k
  {
    if k == b + 1 then 0 else Depth(text, b, k - 1) + Delta(text[k - 1])
  }

  /** A reference description of a candidate, by brace depth alone: a `{`
      opened at depth 0, the first `}` after it that brings the depth back to
      0, and the depth positive everywhere in between. */
  predicate IsCandidate(text: string, b: nat, sp: Span) {
    && b < sp.start <= sp.end < |text|
    && text[sp.start] == '{' && text[sp.end] == '}'
    && Depth(text, b, sp.start) == 0 && Depth(text, b, sp.end + 1) == 0
    && forall k :: sp.start < k <= sp.end ==> Depth(text, b, k) > 0
  }

  /** What holds of the scan's variables before each character is read: the
      counter is the net brace count since the bracket (`brace_count = 1` at
      depth 0 is the same as adding 1), a start is marked exactly when the
      counter is positive (so the source's `slide_start != -1` test never
      decides anything), and a marked start opened at depth 0 without the
      depth returning to 0 since. */
  predicate ScanInv(text: string, b: nat, pos: nat, depth: int, start: int) {
    && b < pos <= |text|
    && depth == Depth(text, b, pos)
    && (depth > 0 <==> start != -1)
    && -1 <= start
    && (start != -1 ==>
         && b < start < pos && text[start] == '{' && Depth(text, b, start) == 0
         && forall k :: start < k <= pos ==> Depth(text, b, k) > 0)
  }

  /** One step of the scan keeps ScanInv. */
  lemma ScanStep(text: string, b: nat, pos: nat, depth: int, start: int)
    requires ScanInv(text, b, pos, depth, start) && pos < |text|
    ensures var next := StepAt(text[pos], pos, depth, start);
      ScanInv(text, b, pos + 1, next.depth, next.start)
  {
    assert Depth(text, b, pos + 1) == depth + Delta(text[pos]);
  }

  /** A reference candidate that closes at `pos` is the one the step emits. */
  lemma ClosesHere(text: string, b: nat, pos: nat, depth: int, start: int, sp: Span)
    requires ScanInv(text, b, pos, depth, start) && pos < |text|
    requires IsCandidate(text, b, sp) && sp.end == pos
    ensures StepAt(text[pos], pos, depth, start).emit && sp.start == start
  {
    assert Depth(text, b, pos + 1) == Depth(text, b, pos) - 1;
  }

  /** The span a step emits is a reference candidate. */
  lemma EmittedIsCandidate(text: string, b: nat, pos: nat, depth: int, start: int)
    requires ScanInv(text, b, pos, depth, start) && pos < |text|
    requires StepAt(text[pos], pos, depth, start).emit
    ensures IsCandidate(text, b, Span(start, pos))
  {
    assert Depth(text, b, pos + 1) == Depth(text, b, pos) - 1;
  }

  /** From any state that satisfies ScanInv the scan lists exactly the
      reference candidates that close at or after the current index. */
  lemma {:induction false} ScanFromExact(text: string, b: nat, pos: nat, depth: int, start: int)
    requires ScanInv(text, b, pos, depth, start)
    ensures forall sp :: sp in ScanFrom(text, pos, depth, start) <==> IsCandidate(text, b, sp) && pos <= sp.end
    decreases |text| - pos
  {
    if pos < |text| {
      var next := StepAt(text[pos], pos, depth, start);
      ScanStep(text, b, pos, depth, start);
      ScanFromExact(text, b, pos + 1, next.depth, next.start);
      forall sp | IsCandidate(text, b, sp) && sp.end == pos
        ensures sp in ScanFrom(text, pos, depth, start)
      {
        ClosesHere(text, b, pos, depth, start, sp);
      }
      if next.emit {
        EmittedIsCandidate(text, b, pos, depth, start);
      }
    }
  }

  /** The scan finds exactly the reference candidates, in both directions. */
  lemma CandidatesExact(text: string, b: nat, sp: Span)
    requires b < |text|
    ensures sp in Candidates(text, b) <==> IsCandidate(text, b, sp)
  {
    ScanFromExact(text, b, b + 1, 0, -1);
  }

  /** A `{` opened at depth 0 whose depth never comes back down before the
      text ends (the record the token limit cut off) is never a candidate. */
  lemma UnclosedRecordDropped(text: string, b: nat, s: nat)
    requires b < s < |text| && text[s] == '{' && Depth(text, b, s) == 0
    requires forall k :: s < k <= |text| ==> Depth(text, b, k) > 0
    ensures forall sp :: sp in Candidates(text, b) ==> sp.start != s
  {
    forall sp | sp in Candidates(text, b)
      ensures sp.start != s
    {
      CandidatesExact(text, b, sp);
    }
  }

  /** Cutting the text at `n` only drops candidates from the end: the scan
      of the prefix lists the candidates of the whole text that close before
      `n`, and every later one closes at or after `n`. */
  lemma {:induction false} ScanOfPrefix(text: string, n: nat, pos: nat, depth: int, start: int)
    requires -1 <= start < pos <= n <= |text|
    requires start != -1 ==> text[start] == '{'
    ensures var full := ScanFrom(text, pos, depth, start);
            var cut := ScanFrom(text[..n], pos, depth, start);
            && cut <= full
            && (forall sp :: sp in cut ==> sp.end < n)
            && (forall i :: |cut| <= i < |full| ==> full[i].end >= n)
    decreases n - pos
  {
    if pos < n {
      var pre := text[..n];
      assert pre[pos] == text[pos];
      var next := StepAt(text[pos], pos, depth, start);
      var here: seq<Span> := if next.emit then [Span(start, pos)] else [];
      var fullRest := ScanFrom(text, pos + 1, next.depth, next.start);
      var cutRest := ScanFrom(pre, pos + 1, next.depth, next.start);
      ScanOfPrefix(text, n, pos + 1, next.depth, next.start);
      assert ScanFrom(text, pos, depth, start) == here + fullRest;
      assert ScanFrom(pre, pos, depth, start) == here + cutRest;
      forall i | |here + cutRest| <= i < |here + fullRest|
        ensures (here + fullRest)[i].end >= n
      {
        assert (here + fullRest)[i] == fullRest[i - |here|];
      }
    } else {
      ScanFromBounds(text, pos, depth, start);
    }
  }

  lemma CandidatesOfPrefix(text: string, b: nat, n: nat)
    requires b < n <= |text|
    ensures var full := Candidates(text, b);
            var cut := Candidates(text[..n], b);
            && cut <= full
            && (forall sp :: sp in cut ==> sp.end < n)
            && (forall i :: |cut| <= i < |full| ==> full[i].end >= n)
  {
    ScanOfPrefix(text, n, b + 1, 0, -1);
  }

  /** The scan does not stop at the array's `]`: an object after it is
      still a candidate. */
  lemma ScanPassesArrayEnd(t: string)
    requires t == "[]{}"
    ensures Candidates(t, 0) == [Span(2, 3)]
  {
    assert ScanFrom(t, 3, 1, 2) == [Span(2, 3)];
    assert ScanFrom(t, 2, 0, -1) == [Span(2, 3)];
    assert ScanFrom(t, 1, 0, -1) == [Span(2, 3)];
  }

  /** A `}` inside a quoted string closes the record early: the candidate is
      `{"}` and the record's real closing brace is left stray. */
  lemma QuotedBraceCloses(t: string)
    requires t == "[{\"}\"}"
    ensures Candidates(t, 0) == [Span(1, 3)]
  {
    assert ScanFrom(t, 5, 0, -1) == [];
    assert ScanFrom(t, 4, 0, -1) == [];
    assert ScanFrom(t, 3, 1, 1) == [Span(1, 3)];
    assert ScanFrom(t, 2, 1, 1) == [Span(1, 3)];
    assert ScanFrom(t, 1, 0, -1) == [Span(1, 3)];
  }

  /** After a stray `}` the counter sits at -1 between records, so no later
      top-level record is ever marked as long as the braces after it balance
      (an object nested inside one still can be: see
      NestedRecordAfterStrayClose; and a `{` inside a quoted string lifts the
      counter back: see QuotedOpenAfterStrayClose). */
  lemma StrayCloseHidesLaterRecords(t: string)
    requires t == "[}{}{}]"
    ensures Candidates(t, 0) == []
  {
    assert ScanFrom(t, 6, -1, -1) == [];
    assert ScanFrom(t, 5, 0, -1) == [];
    assert ScanFrom(t, 4, -1, -1) == [];
    assert ScanFrom(t, 3, 0, -1) == [];
    assert ScanFrom(t, 2, -1, -1) == [];
    assert ScanFrom(t, 1, 0, -1) == [];
  }

  /** After a stray `}`, the opening brace of the next record only brings
      the counter back to 0, so an object nested inside that record opens at
      depth 0 and becomes a candidate on its own. */
  lemma NestedRecordAfterStrayClose(t: string)
    requires t == "[}{{}}"
    ensures Candidates(t, 0) == [Span(3, 4)]
  {
    assert ScanFrom(t, 5, 0, -1) == [];
    assert ScanFrom(t, 4, 1, 3) == [Span(3, 4)];
    assert ScanFrom(t, 3, 0, -1) == [Span(3, 4)];
    assert ScanFrom(t, 2, -1, -1) == [Span(3, 4)];
    assert ScanFrom(t, 1, 0, -1) == [Span(3, 4)];
  }

  /** A `{` inside a quoted string of the record after a stray `}` brings
      the counter back to 0, so the next `{` is marked and the scan finds
      top-level records again. */
  lemma QuotedOpenAfterStrayClose(t: string)
    requires t == "[}{\"{\"}{}"
    ensures Candidates(t, 0) == [Span(4, 6), Span(7, 8)]
  {
    assert ScanFrom(t, 8, 1, 7) == [Span(7, 8)];
    assert ScanFrom(t, 7, 0, -1) == [Span(7, 8)];
    assert ScanFrom(t, 6, 1, 4) == [Span(4, 6), Span(7, 8)];
    assert ScanFrom(t, 5, 1, 4) == [Span(4, 6), Span(7, 8)];
    assert ScanFrom(t, 4, 0, -1) == [Span(4, 6), Span(7, 8)];
    assert ScanFrom(t, 3, 0, -1) == [Span(4, 6), Span(7, 8)];
    assert ScanFrom(t, 2, -1, -1) == [Span(4, 6), Span(7, 8)];
    assert ScanFrom(t, 1, 0, -1) == [Span(4, 6), Span(7, 8)];
  }

  /** A record cut off by the end of the text is not a candidate; the ones
      before it are. */
  lemma TruncatedTail(t: string)
    requires t == "[{}{["
    ensures Candidates(t, 0) == [Span(1, 2)]
  {
    assert ScanFrom(t, 4, 1, 3) == [];
    assert ScanFrom(t, 3, 0, -1) == [];
    assert ScanFrom(t, 2, 1, 1) == [Span(1, 2)];
    assert ScanFrom(t, 1, 0, -1) == [Span(1, 2)];
  }
}
