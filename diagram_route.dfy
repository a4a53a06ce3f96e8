/**
 * POST /api/diagram (web/src/app/api/diagram/route.ts): validate the prompt,
 * apply the guardrail, ask the model for a Mermaid fence and cut the first one
 * out of its answer, with fixed fences as fallbacks.
 */
module DiagramRoute {
  import opened Wrappers
  import opened Strings
  import opened Guardrails
  import opened Llm

  const Opener: string := "```mermaid"
  const Fence: string := "```"
  const OffTopic: string := "I can only diagram DevOps/CI/CD topics."
  const Placeholder: string := "```mermaid\nflowchart TD; A[Start]-->B[No diagram returned];\n```"
  const ErrorFence: string := "```mermaid\nflowchart LR; E[Error]-->C[Try again];\n```"
  const Instruction: string := "Return ONLY a mermaid code fence that diagrams: "

  datatype DiagramResponse =
    | MissingPrompt(error: string, status: nat)
    | Diagram(output: string)

  /**
   * The span matched by the case-insensitive, lazy pattern ```` ```mermaid[\s\S]*?``` ````:
   * the leftmost opener (compared in lower case) up to the first closing fence after it.
   */
  function FirstMermaidFence(text: string): Option<string>
  {
    FirstSpan(text, Lower(text), Opener, Fence)
  }

  /**
   * The leftmost `open` of `folded` (the text as the pattern compares it) up to
   * the end of the first `close` of `text` after it.
   */
  function FirstSpan(text: string, folded: string, open: string, close: string): Option<string>
  {
    var p := IndexFrom(folded, open, 0);
    if p == -1 then None
    else
      var q := IndexFrom(text, close, p + |open|);
      if q == -1 then None else Some(text[p..q + |close|])
  }

  /**
   * `open` occurs in `folded` at `p` and nowhere before it, and `close` occurs
   * in `text` at `q`, after the opener, and nowhere between the two.
   */
  predicate LeftmostPair(text: string, folded: string, open: string, close: string, p: int, q: int) {
    OccursAt(folded, open, p) && OccursAt(text, close, q) && p + |open| <= q &&
    (forall k :: 0 <= k < p ==> !OccursAt(folded, open, k)) &&
    (forall k :: p + |open| <= k < q ==> !OccursAt(text, close, k))
  }

  /**
   * A span is found exactly when an opener is followed by a fence, and the
   * span found runs from the leftmost opener to the first fence after it.
   */
  lemma FirstMermaidFenceSpec(text: string)
    ensures FirstMermaidFence(text).Some?
      <==> exists p, q :: OccursAt(Lower(text), Opener, p) && OccursAt(text, Fence, q) && p + |Opener| <= q
    ensures FirstMermaidFence(text).Some? ==> exists p, q ::
      LeftmostPair(text, Lower(text), Opener, Fence, p, q) && FirstMermaidFence(text).value == text[p..q + |Fence|]
  {
    FirstSpanSpec(text, Lower(text), Opener, Fence);
  }

  /** `FirstSpan` finds the leftmost opener and the nearest close after it, and fails only when there is no such pair. */
  lemma FirstSpanSpec(text: string, folded: string, open: string, close: string)
    ensures FirstSpan(text, folded, open, close).Some?
      <==> exists p, q :: OccursAt(folded, open, p) && OccursAt(text, close, q) && p + |open| <= q
    ensures FirstSpan(text, folded, open, close).Some? ==> exists p, q ::
      LeftmostPair(text, folded, open, close, p, q) && FirstSpan(text, folded, open, close).value == text[p..q + |close|]
  {
    PairGivesSpan(text, folded, open, close);
    if FirstSpan(text, folded, open, close).Some? {
      var p, q := SpanBounds(text, folded, open, close);
      IndexFromSpec(folded, open, 0);
      IndexFromSpec(text, close, p + |open|);
      assert LeftmostPair(text, folded, open, close, p, q);
    }
  }

  /** Whenever an opener is followed by a close, `FirstSpan` finds a span. */
  lemma PairGivesSpan(text: string, folded: string, open: string, close: string)
    ensures (exists p, q :: OccursAt(folded, open, p) && OccursAt(text, close, q) && p + |open| <= q) ==>
      FirstSpan(text, folded, open, close).Some?
  {
    forall p, q | OccursAt(folded, open, p) && OccursAt(text, close, q) && p + |open| <= q
      ensures FirstSpan(text, folded, open, close).Some?
    {
      SpanExists(text, folded, open, close, p, q);
    }
  }

  /** An opener followed by a close is enough for `FirstSpan` to find a span. */
  lemma SpanExists(text: string, folded: string, open: string, close: string, p': int, q': int)
    requires OccursAt(folded, open, p') && OccursAt(text, close, q') && p' + |open| <= q'
    ensures FirstSpan(text, folded, open, close).Some?
  {
    IndexFromSpec(folded, open, 0);
    var p := IndexFrom(folded, open, 0);
    assert p != -1 && p <= p';
    IndexFromSpec(text, close, p + |open|);
    assert IndexFrom(text, close, p + |open|) != -1;
  }

  /** The extracted span starts with the opener (in any case), ends with a fence, and lies inside the text. */
  lemma FenceShape(text: string)
    requires FirstMermaidFence(text).Some?
    ensures var d := FirstMermaidFence(text).value;
      |d| >= |Opener| + |Fence| && Lower(d[..|Opener|]) == Opener &&
      d[|d| - |Fence|..] == Fence && Contains(text, d)
  {
    var p, q := FenceBounds(text);
    SpanShape(text, p, q);
  }

  /** Where a found span starts and where its closing fence sits. */
  lemma FenceBounds(text: string) returns (p: int, q: int)
    requires FirstMermaidFence(text).Some?
    ensures OccursAt(Lower(text), Opener, p) && OccursAt(text, Fence, q) && p + |Opener| <= q
    ensures FirstMermaidFence(text) == Some(text[p..q + |Fence|])
  {
    p, q := SpanBounds(text, Lower(text), Opener, Fence);
  }

  /** Where a span found by `FirstSpan` starts and where its close sits. */
  lemma SpanBounds(text: string, folded: string, open: string, close: string) returns (p: int, q: int)
    requires FirstSpan(text, folded, open, close).Some?
    ensures OccursAt(folded, open, p) && OccursAt(text, close, q) && p + |open| <= q
    ensures FirstSpan(text, folded, open, close) == Some(text[p..q + |close|])
    ensures p == IndexFrom(folded, open, 0) && q == IndexFrom(text, close, p + |open|)
  {
    p := IndexFrom(folded, open, 0);
    q := IndexFrom(text, close, p + |open|);
    IndexFromFound(folded, open, 0, p);
    IndexFromFound(text, close, p + |open|, q);
  }

  /** A span from an opener at `p` to the end of a fence at `q` has the shape of a Mermaid fence. */
  lemma SpanShape(text: string, p: int, q: int)
    requires OccursAt(Lower(text), Opener, p) && OccursAt(text, Fence, q) && p + |Opener| <= q
    ensures var d := text[p..q + |Fence|];
      |d| >= |Opener| + |Fence| && Lower(d[..|Opener|]) == Opener &&
      d[|d| - |Fence|..] == Fence && Contains(text, d)
  {
    var d := text[p..q + |Fence|];
    assert d[..|Opener|] == text[p..p + |Opener|];
    LowerSlice(text, p, p + |Opener|);
    assert d[|d| - |Fence|..] == text[q..q + |Fence|];
    ContainsInfix(text[..p], d, text[q + |Fence|..]);
    assert text[..p] + d + text[q + |Fence|..] == text;
  }

  /**
   * The route for the parsed body: `prompt` (None when absent, null or not a
   * string) and `model`; `models` is `getGemini`.  A `Failure` body or any
   * thrown error gives the error fence.
   */
  function Respond(body: Result<(Option<string>, string), string>, models: string -> Result<WebModel, string>): (r: DiagramResponse)
    ensures body.Success? && (body.value.0.None? || body.value.0.value == "") ==> r == MissingPrompt("MISSING_PROMPT", 400)
    ensures r.MissingPrompt? ==> r.status == 400
    ensures body.Success? && body.value.0.Some? && body.value.0.value != "" && !IsAllowedTopic(body.value.0) ==>
      r == Diagram(OffTopic)
    ensures body.Failure? ==> r == Diagram(ErrorFence)
    ensures r.Diagram? && r.output != OffTopic && r.output != ErrorFence && r.output != Placeholder ==>
      body.Success? && body.value.0.Some? && models(body.value.1).Success? &&
      var g := models(body.value.1).value.generate(Instruction + body.value.0.value);
      g.Success? && FirstMermaidFence(g.value.text) == Some(r.output)
    ensures body.Success? && body.value.0.Some? && body.value.0.value != "" && IsAllowedTopic(body.value.0) ==>
      match models(body.value.1)
      case Failure(_) => r == Diagram(ErrorFence)
      case Success(m) =>
        match m.generate(Instruction + body.value.0.value)
        case Failure(_) => r == Diagram(ErrorFence)
        case Success(resp) => r == Diagram(GetOr(FirstMermaidFence(resp.text), Placeholder))
  {
    match body
    case Failure(_) => Diagram(ErrorFence)
    case Success((prompt, modelName)) =>
      if prompt.None? || prompt.value == "" then MissingPrompt("MISSING_PROMPT", 400)
      else if !IsAllowedTopic(prompt) then Diagram(OffTopic)
      else
        match models(modelName)
        case Failure(_) => Diagram(ErrorFence)
        case Success(gm) =>
          match gm.generate(Instruction + prompt.value)
          case Failure(_) => Diagram(ErrorFence)
          case Success(resp) => Diagram(GetOr(FirstMermaidFence(resp.text), Placeholder))
  }

  /** A model answer without any Mermaid fence yields the placeholder. */
  lemma NoFenceGivesPlaceholder(prompt: string, modelName: string, models: string -> Result<WebModel, string>)
    requires prompt != "" && IsAllowedTopic(Some(prompt)) && models(modelName).Success?
    requires models(modelName).value.generate(Instruction + prompt).Success?
    requires !Contains(Lower(models(modelName).value.generate(Instruction + prompt).value.text), Opener)
    ensures Respond(Success((Some(prompt), modelName)), models) == Diagram(Placeholder)
  {
    var text := models(modelName).value.generate(Instruction + prompt).value.text;
    FirstMermaidFenceSpec(text);
    assert forall p :: !OccursAt(Lower(text), Opener, p);
  }

  /** An answer that is exactly one fence, with no backquote inside, is returned verbatim. */
  lemma SingleFenceReturnedVerbatim(body: string)
    requires '`' !in body
    ensures FirstMermaidFence(Opener + body + Fence) == Some(Opener + body + Fence)
  {
    var text := Opener + body + Fence;
    assert Lower(text)[..|Opener|] == Lower(Opener);
    assert OccursAt(Lower(text), Opener, 0);
    var q := |Opener| + |body|;
    assert text[q..q + |Fence|] == Fence;
    assert OccursAt(text, Fence, q);
    forall k | |Opener| <= k < q
      ensures !OccursAt(text, Fence, k)
    {
      assert text[k] == body[k - |Opener|];
    }
    IndexFromSpec(text, Fence, |Opener|);
    assert IndexFrom(text, Fence, |Opener|) == q;
    assert text[0..q + |Fence|] == text;
  }
}
