/**
 * POST /api/chat (web/src/app/api/chat/route.ts): guardrail, generation,
 * best-effort token counting, detection of blocked or garbled answers and the
 * fixed fallbacks.  `getGemini(model)` is the oracle `models`; it fails when
 * the API key is missing.
 */
module ChatRoute {
  import opened Wrappers
  import opened Strings
  import opened Guardrails
  import opened Llm

  const Fallback: string :=
    "I don't know. I can assist with DevOps/CI/CD topics like Terraform, Ansible, Jenkins, Spinnaker, Argo, and DecSecOps. Try asking more specifically."

  const ErrorOutput: string := "I don't know. Please try rephrasing your DevOps/CI/CD question."

  /** The three traces of SDK source text that an answer must not contain. */
  const GarbledMarkers: seq<string> := ["hadBadFinishReason", "GoogleGenerativeAIResponseError", "getText(response)"]

  /** The response bodies of the route. */
  datatype ChatResponse =
    | Refused(output: string, tokens: Tokens, blocked: bool)
    | Answer(output: string, blocked: bool, finishReason: Option<string>, promptFeedback: Option<string>,
             tokens: Tokens, candidatesCount: nat)
    | GenerationError(output: string, error: string, message: string, status: nat)

  /** `looksGarbled`: the text carries one of the markers. */
  predicate LooksGarbled(text: string) {
    exists m | m in GarbledMarkers :: Contains(text, m)
  }

  /** The first candidate's finish reason; none without candidates. */
  function FinishReason(candidates: seq<Candidate>): (r: Option<string>)
    ensures candidates == [] ==> r == None
    ensures candidates != [] ==> r == candidates[0].finishReason
  {
    if candidates == [] then None else candidates[0].finishReason
  }

  /** `blocked`: a finish reason is present, non-empty and not "STOP". */
  predicate Blocked(finishReason: Option<string>) {
    finishReason.Some? && finishReason.value != "" && finishReason.value != "STOP"
  }

  /** The output shown for generated `text`. */
  function Output(text: string, blocked: bool): (r: string)
    ensures r == Fallback <==> (Trim(text) == [] || LooksGarbled(Trim(text)) || blocked || Trim(text) == Fallback)
    ensures r != Fallback ==> r == Trim(text)
  {
    var t := Trim(text);
    if t == [] || LooksGarbled(t) || blocked then Fallback else t
  }

  /**
   * The route for the parsed body: `message` (None when absent or null) and `model`
   * (already defaulted to "gemini-2.5-pro").  `Failure` of `body` is a body that does not parse.
   */
  function Chat(body: Result<(Option<string>, string), string>, models: string -> Result<WebModel, string>): (r: ChatResponse)
    ensures body.Failure? ==> r == GenerationError(ErrorOutput, "GENERATION_ERROR", body.error, 200)
    ensures body.Success? && !IsAllowedTopic(body.value.0) ==> r == Refused(OutOfScopeMessage, NoTokens, false)
    ensures r.GenerationError? ==> r.status == 200 && r.error == "GENERATION_ERROR" && r.output == ErrorOutput
    ensures r.Answer? ==> r.tokens.total == r.tokens.input + r.tokens.output
    ensures r.Answer? ==> (body.Success? && body.value.0.Some? &&
      models(body.value.1).Success? &&
      var m := models(body.value.1).value;
      var g := m.generate(body.value.0.value);
      g.Success? &&
      r.candidatesCount == |g.value.candidates| &&
      r.finishReason == FinishReason(g.value.candidates) &&
      r.blocked == Blocked(r.finishReason) &&
      r.output == Output(g.value.text, r.blocked) &&
      r.tokens.input == CountOrZero(m.countTokens(body.value.0.value)) &&
      r.tokens.output == CountOrZero(m.countTokens(g.value.text)))
    ensures body.Success? && IsAllowedTopic(body.value.0) && body.value.0.Some? ==>
      var message := body.value.0.value;
      match models(body.value.1)
      case Failure(e) => r == GenerationError(ErrorOutput, "GENERATION_ERROR", e, 200)
      case Success(m) =>
        (m.generate(message).Failure? ==> r == GenerationError(ErrorOutput, "GENERATION_ERROR", m.generate(message).error, 200)) &&
        (m.generate(message).Success? ==> r.Answer?)
  {
    match body
    case Failure(e) => GenerationError(ErrorOutput, "GENERATION_ERROR", e, 200)
    case Success((message, modelName)) =>
      if !IsAllowedTopic(message) then Refused(OutOfScopeMessage, NoTokens, false)
      else
        match models(modelName)
        case Failure(e) => GenerationError(ErrorOutput, "GENERATION_ERROR", e, 200)
        case Success(gm) =>
          var inputTokens := CountOrZero(gm.countTokens(message.value));
          match gm.generate(message.value)
          case Failure(e) => GenerationError(ErrorOutput, "GENERATION_ERROR", e, 200)
          case Success(resp) =>
            var finishReason := FinishReason(resp.candidates);
            var blocked := Blocked(finishReason);
            var outputTokens := CountOrZero(gm.countTokens(resp.text));
            Answer(Output(resp.text, blocked), blocked, finishReason, resp.promptFeedback,
                   Usage(inputTokens, outputTokens), |resp.candidates|)
  }

  /**
   * Whatever the model returns, an answer is the fixed fallback or a non-empty,
   * trimmed model text that carries no marker.
   */
  lemma AnswerIsClean(body: Result<(Option<string>, string), string>, models: string -> Result<WebModel, string>)
    requires Chat(body, models).Answer?
    ensures var out := Chat(body, models).output;
      out == Fallback || (out != [] && !LooksGarbled(out) && Trim(out) == out && !Chat(body, models).blocked)
  {
    var out := Chat(body, models).output;
    if out != Fallback {
      TrimIdempotent(out);
    }
  }

  /** A blocked answer always shows the fallback, whatever text came with it. */
  lemma BlockedShowsFallback(text: string)
    ensures Output(text, true) == Fallback
  {
  }

  /** Without candidates an answer is never blocked; a "STOP" or empty reason is not a block. */
  lemma NoCandidatesNotBlocked()
    ensures !Blocked(FinishReason([]))
    ensures !Blocked(Some("STOP")) && !Blocked(Some(""))
    ensures Blocked(Some("SAFETY"))
  {
  }

  /** An off-topic message is answered the same whatever the models would do: no model is built. */
  lemma RefusalIgnoresModels(body: Result<(Option<string>, string), string>,
                             models1: string -> Result<WebModel, string>, models2: string -> Result<WebModel, string>)
    requires body.Success? && !IsAllowedTopic(body.value.0)
    ensures Chat(body, models1) == Chat(body, models2)
  {
  }
}
