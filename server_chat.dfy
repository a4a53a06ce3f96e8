/**
 * The `/chat` handler of server/main.py: refuse off-topic messages without
 * building a model, otherwise generate an answer and count tokens best-effort.
 */
module ServerChat {
  import opened Wrappers
  import opened Guardrails
  import opened Llm

  const Refusal: string :=
    "Sorry, I can only assist with DevOps/CI/CD topics (Terraform, Ansible, Jenkins, Spinnaker, Argo, DecSecOps, Shell)."

  /** The request body `ChatIn`, its `model` already defaulted to "gemini-2.5-pro"; generation parameters are left to the model oracle. */
  datatype ChatIn = ChatIn(message: string, model: string)

  /** The response body: the output text and token usage. */
  datatype Reply = Reply(output: string, tokens: Tokens)

  /**
   * `chat(inp)`; `models(name)` is the model that `GenerativeModel(name, ...)` builds.
   * `Failure` is an exception that escapes the handler (generation failed).
   */
  function Chat(inp: ChatIn, models: string -> PyModel): (r: Result<Reply, string>)
    ensures !PyIsAllowed(inp.message) ==> r == Success(Reply(Refusal, NoTokens))
    ensures r.Success? ==> r.value.tokens.total == r.value.tokens.input + r.value.tokens.output
    ensures PyIsAllowed(inp.message) ==>
      (r.Failure? <==> models(inp.model).generate(inp.message).Failure?)
    ensures PyIsAllowed(inp.message) && r.Success? ==>
      r.value.output == models(inp.model).generate(inp.message).value &&
      r.value.tokens.input == CountOrZero(models(inp.model).countTokens(inp.message)) &&
      r.value.tokens.output == CountOrZero(models(inp.model).countTokens(r.value.output))
  {
    if !PyIsAllowed(inp.message) then Success(Reply(Refusal, NoTokens))
    else
      var model := models(inp.model);
      var inputTokens := CountOrZero(model.countTokens(inp.message));
      match model.generate(inp.message)
      case Failure(e) => Failure(e)
      case Success(outputText) =>
        var outputTokens := CountOrZero(model.countTokens(outputText));
        Success(Reply(outputText, Usage(inputTokens, outputTokens)))
  }

  /** An off-topic message never reaches a model: the reply is the same whatever the models do. */
  lemma RefusalIgnoresModels(inp: ChatIn, models1: string -> PyModel, models2: string -> PyModel)
    requires !PyIsAllowed(inp.message)
    ensures Chat(inp, models1) == Chat(inp, models2)
    ensures Chat(inp, models1).value.tokens == Tokens(0, 0, 0)
  {
  }
}
