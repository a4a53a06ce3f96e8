/**
 * The topic guardrail: web/src/lib/guardrails.ts (`isAllowedTopic`) and the Python
 * duplicate `is_allowed` of server/main.py and scripts/tmp_run_gemini.py.  Both
 * test whether the lower-cased text contains some keyword as a substring; the two
 * keyword lists differ in one entry, "events".
 */
module Guardrails {
  import opened Wrappers
  import opened Strings

  /** `ALLOWED_TOPICS` of the web application. */
  const AllowedTopics: seq<string> := [
    "ci", "cd", "cicd", "devops", "terraform", "ansible", "jenkins", "spinnaker",
    "argo", "argocd", "workflows", "events", "rollouts", "decsecops", "shell",
    "bash", "kubernetes", "helm"
  ]

  /** `ALLOWED` of the Python server and script: the web list without "events". */
  const PyAllowed: set<string> := {
    "ci", "cd", "cicd", "devops", "terraform", "ansible", "jenkins", "spinnaker",
    "argo", "argocd", "workflows", "rollouts", "decsecops", "shell", "bash",
    "kubernetes", "helm"
  }

  const ShipsenseAbout: string :=
    "ShipSense is an AI DevOps assistant focused on CI/CD. It helps engineers:\n"
    + "- Design and troubleshoot pipelines and delivery flows\n"
    + "- Generate code/configs for Jenkins, Argo (CD/Workflows/Events/Rollouts), Terraform, Ansible\n"
    + "- Automatically create Ansible playbooks and Terraform configurations\n"
    + "- Visualize workflows using Mermaid diagrams\n"
    + "- Answer with citations from official docs and source code when indexed (Pinecone Vector DB)\n"
    + "Ask about DevOps/CI/CD topics such as Jenkins pipelines, Argo Rollouts strategies, Terraform modules, or Ansible playbooks. For topics outside this scope, ShipSense will not provide guidance."

  /** The reply to an off-topic chat message: the overview text itself. */
  const OutOfScopeMessage: string := ShipsenseAbout

  /** `isAllowedTopic(input)`; `None` stands for `null`/`undefined`, which `input || ""` turns into "". */
  predicate IsAllowedTopic(input: Option<string>) {
    exists t | t in AllowedTopics :: Contains(Lower(GetOr(input, "")), t)
  }

  /** Python `is_allowed(text)`. */
  predicate PyIsAllowed(text: string) {
    exists k | k in PyAllowed :: Contains(Lower(text), k)
  }

  /** No keyword is shorter than two characters. */
  lemma KeywordsAreLong()
    ensures forall t | t in AllowedTopics :: |t| >= 2
    ensures forall k | k in PyAllowed :: |k| >= 2
  {
  }

  /** Null, undefined or empty input is never on topic. */
  lemma EmptyInputNotAllowed()
    ensures !IsAllowedTopic(None) && !IsAllowedTopic(Some(""))
    ensures !PyIsAllowed("")
  {
    KeywordsAreLong();
  }

  /** Matching ignores case: a text is allowed exactly when its lower-case form is. */
  lemma CaseInsensitive(s: string)
    ensures IsAllowedTopic(Some(s)) == IsAllowedTopic(Some(Lower(s)))
    ensures PyIsAllowed(s) == PyIsAllowed(Lower(s))
  {
    LowerIdempotent(s);
  }

  /** Monotone: any text whose lower case contains an allowed text's lower case is allowed too. */
  lemma Monotone(s: string, t: string)
    requires IsAllowedTopic(Some(s)) && Contains(Lower(t), Lower(s))
    ensures IsAllowedTopic(Some(t))
  {
    var k :| k in AllowedTopics && Contains(Lower(s), k);
    ContainsTransitive(Lower(t), Lower(s), k);
  }

  /**
   * Matching is by substring, not by word: any text containing "ci" or "cd" passes,
   * such as a question about a recipe.
   */
  lemma SubstringNotWord(s: string)
    requires Contains(Lower(s), "ci") || Contains(Lower(s), "cd")
    ensures IsAllowedTopic(Some(s)) && PyIsAllowed(s)
  {
    assert "ci" in AllowedTopics && "cd" in AllowedTopics;
  }

  lemma RecipeIsOnTopic()
    ensures IsAllowedTopic(Some("Best recipe for pancakes?"))
  {
    var s := "Best recipe for pancakes?";
    assert Lower(s)[7..9] == "ci";
    assert OccursAt(Lower(s), "ci", 7);
    SubstringNotWord(s);
  }

  /** Whatever the Python guardrail admits, the web guardrail admits. */
  lemma PythonAllowedImpliesWebAllowed(s: string)
    requires PyIsAllowed(s)
    ensures IsAllowedTopic(Some(s))
  {
    var k :| k in PyAllowed && Contains(Lower(s), k);
    assert k in AllowedTopics;
  }

  /** No Python keyword occurs in "events": none that fits in it starts with one of its letters at a place where it fits. */
  lemma EventsHoldsNoPythonKeyword(k: string)
    requires k in PyAllowed
    ensures !Contains("events", k)
  {
    var s := "events";
    forall j | 0 <= j <= |s| - |k|
      ensures !OccursAt(s, k, j)
    {
      assert s[j..j + |k|][0] == s[j];
      assert |k| <= 6 ==> k[0] != s[j] || (k == "shell" && j == 5);
    }
  }

  /** The two guardrails disagree on a text whose only topic word is "events". */
  lemma GuardrailsDisagreeOnEvents()
    ensures IsAllowedTopic(Some("events")) && !PyIsAllowed("events")
  {
    var s := "events";
    assert Lower(s) == s;
    assert OccursAt(s, "events", 0);
    assert "events" in AllowedTopics;
    forall k | k in PyAllowed
      ensures !Contains(s, k)
    {
      EventsHoldsNoPythonKeyword(k);
    }
  }
}
