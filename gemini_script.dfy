/**
 * The command-line script scripts/tmp_run_gemini.py: pick the prompt from the
 * arguments, refuse off-topic prompts before configuring the model, and report
 * the answer with token usage.  The environment and argv are parameters; what
 * the script prints is modelled as the outcome's fields.
 */
module GeminiScript {
  import opened Wrappers
  import opened Strings
  import opened Guardrails
  import opened Llm

  const DefaultPrompt: string := "Give a Jenkins pipeline for building a Node app"

  const RefusedLine: string :=
    "REFUSED: Out-of-scope. Allowed topics: DevOps/CI/CD (Terraform, Ansible, Jenkins, Spinnaker, Argo, DecSecOps, Shell)"

  const MissingKeyLine: string := "GEMINI_API_KEY env var not set"

  /** How a run of `main()` ends. */
  datatype RunOutcome =
    | Exited(code: nat, stderr: string)      // `sys.exit(1)` after the message on stderr
    | Refused(stdout: string)                // printed the refusal and returned
    | Crashed(error: string)                 // generation raised
    | Answered(output: string, tokens: Tokens)

  /** The prompt: the fixed Jenkins prompt without arguments, else the arguments joined by single spaces. */
  function SelectPrompt(argv: seq<string>): (prompt: string)
    ensures |argv| <= 1 ==> prompt == DefaultPrompt
    ensures |argv| == 2 ==> prompt == argv[1]
    ensures |argv| > 1 ==> prompt == Join(argv[1..], " ")
  {
    if |argv| > 1 then Join(argv[1..], " ") else DefaultPrompt
  }

  /** `main()` with `GEMINI_API_KEY` (None when unset) and `sys.argv`; `model` is the configured model. */
  function Main(apiKey: Option<string>, argv: seq<string>, model: PyModel): (r: RunOutcome)
    ensures (apiKey.None? || apiKey.value == "") ==> r == Exited(1, MissingKeyLine)
    ensures apiKey.Some? && apiKey.value != "" && !PyIsAllowed(SelectPrompt(argv)) ==> r == Refused(RefusedLine)
    ensures r.Answered? ==> r.tokens.total == r.tokens.input + r.tokens.output
    ensures r.Answered? ==> model.generate(SelectPrompt(argv)) == Success(r.output)
    ensures apiKey.Some? && apiKey.value != "" && PyIsAllowed(SelectPrompt(argv)) ==>
      (r.Crashed? <==> model.generate(SelectPrompt(argv)).Failure?)
    ensures apiKey.Some? && apiKey.value != "" && PyIsAllowed(SelectPrompt(argv)) ==>
      (r.Answered? <==> model.generate(SelectPrompt(argv)).Success?)
    ensures r.Crashed? ==> model.generate(SelectPrompt(argv)).Failure? && r.error == model.generate(SelectPrompt(argv)).error
    ensures r.Answered? ==>
      r.tokens.input == CountOrZero(model.countTokens(SelectPrompt(argv))) &&
      r.tokens.output == CountOrZero(model.countTokens(r.output))
  {
    if apiKey.None? || apiKey.value == "" then Exited(1, MissingKeyLine)
    else
      var prompt := SelectPrompt(argv);
      if !PyIsAllowed(prompt) then Refused(RefusedLine)
      else
        var inputTokens := CountOrZero(model.countTokens(prompt));
        match model.generate(prompt)
        case Failure(e) => Crashed(e)
        case Success(outputText) =>
          Answered(outputText, Usage(inputTokens, CountOrZero(model.countTokens(outputText))))
  }

  /** The default prompt passes the guardrail, because it mentions Jenkins. */
  lemma DefaultPromptAllowed()
    ensures PyIsAllowed(DefaultPrompt)
  {
    DefaultPromptMentionsJenkins();
    assert "jenkins" in PyAllowed;
  }

  lemma DefaultPromptMentionsJenkins()
    ensures Contains(Lower(DefaultPrompt), "jenkins")
  {
    var d := DefaultPrompt;
    assert d[7] == 'J' && d[8] == 'e' && d[9] == 'n' && d[10] == 'k' && d[11] == 'i' && d[12] == 'n' && d[13] == 's';
    assert d[7..14] == "Jenkins";
    LowerSlice(d, 7, 14);
    JenkinsLowered();
    assert OccursAt(Lower(d), "jenkins", 7);
  }

  lemma JenkinsLowered()
    ensures Lower("Jenkins") == "jenkins"
  {
  }

  /** Run without arguments (and with a key), the script always asks the model. */
  lemma NoArgumentsReachesModel(apiKey: string, argv: seq<string>, model: PyModel)
    requires apiKey != "" && |argv| <= 1
    ensures Main(Some(apiKey), argv, model).Answered? || Main(Some(apiKey), argv, model).Crashed?
  {
    DefaultPromptAllowed();
  }

  /** A refused prompt and a missing key end the run before the model is used. */
  lemma EarlyExitsIgnoreModel(apiKey: Option<string>, argv: seq<string>, m1: PyModel, m2: PyModel)
    requires apiKey.None? || apiKey.value == "" || !PyIsAllowed(SelectPrompt(argv))
    ensures Main(apiKey, argv, m1) == Main(apiKey, argv, m2)
  {
  }
}
