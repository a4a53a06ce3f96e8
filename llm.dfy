/**
 * What the model sees of the Gemini SDK: token counting, which may throw, and
 * generation, which may throw.  Both are oracles supplied by the caller.
 */
module Llm {
  import opened Wrappers

  /** Token usage reported with an answer. */
  datatype Tokens = Tokens(input: nat, output: nat, total: nat)

  const NoTokens: Tokens := Tokens(0, 0, 0)

  /** Usage from an input and an output count; the total is their sum. */
  function Usage(input: nat, output: nat): Tokens {
    Tokens(input, output, input + output)
  }

  /** Best-effort counting: a count that throws counts as 0. */
  function CountOrZero(count: Result<nat, string>): (n: nat)
    ensures count.Failure? ==> n == 0
    ensures count.Success? ==> n == count.value
  {
    match count
    case Success(c) => c
    case Failure(_) => 0
  }

  /** A Python model object: `count_tokens` and `generate_content` (returning `resp.text`). */
  datatype PyModel = PyModel(countTokens: string -> Result<nat, string>, generate: string -> Result<string, string>)

  /** The first candidate's finish reason as the web SDK reports it (`undefined` is `None`). */
  datatype Candidate = Candidate(finishReason: Option<string>)

  /** A web `generateContent` response: its text, candidates and opaque prompt feedback. */
  datatype GenResponse = GenResponse(text: string, candidates: seq<Candidate>, promptFeedback: Option<string>)

  /**
   * A web model from `getGemini(name)`: `countTokens` reports `totalTokens` (a missing
   * field is reported as 0), `generate` takes the user text and may throw.
   */
  datatype WebModel = WebModel(countTokens: string -> Result<nat, string>, generate: string -> Result<GenResponse, string>)
}
