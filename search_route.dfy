/**
 * POST /api/search (web/src/app/api/search/route.ts): validate the query, embed
 * it, query the index and, unless only matches are wanted, ask the model for an
 * answer over a context built from the matches' metadata.  The route catches
 * nothing: a `Failure` is an error that escapes it.
 */
module SearchRoute {
  import opened Wrappers
  import opened Strings
  import opened Llm
  import opened IndexRecords

  const DefaultTopK: nat := 5
  const DefaultModel: string := "gemini-2.5-pro"

  const CanIInstruction: string :=
    "Using the following code context, answer decisively in structured bullet points: Can I ...? Include: feasibility, prerequisites, exact steps/commands, risks, and alternatives."
  const GeneralInstruction: string :=
    "Using the following code context, answer as structured bullet points with headings and numbered steps where appropriate. Keep it concise and scannable."

  /** The request body; `None` fields are absent and take their defaults. */
  datatype SearchBody = SearchBody(query: Option<string>, topK: Option<nat>, answer: Option<bool>, model: Option<string>)

  datatype SearchResponse =
    | MissingQuery(error: string, status: nat)
    | MatchesOnly(matches: seq<Match>)
    | Answered(matches: seq<Match>, answer: string)

  /** What a template literal prints for a missing field. */
  const Undefined: string := "undefined"

  /** A metadata field as a template literal prints it: a missing field prints "undefined". */
  function Render(v: Option<MetaValue>): (s: string)
    ensures v.None? ==> s == Undefined
    ensures v.Some? && v.value.Str? ==> s == v.value.s
    ensures v.Some? && v.value.Num? ==> s == NatToString(v.value.n)
  {
    match v
    case None => Undefined
    case Some(Str(s)) => s
    case Some(Num(n)) => NatToString(n)
  }

  /** `m.metadata?.<key>`. */
  function Field(metadata: Option<Metadata>, key: string): Option<MetaValue> {
    if metadata.Some? && key in metadata.value then Some(metadata.value[key]) else None
  }

  /** One context entry: the file name and chunk index of a match, never its text. */
  function ContextLine(m: Match): string {
    "File: " + Render(Field(m.metadata, "filename")) + " (chunk " + Render(Field(m.metadata, "chunk")) + ")\n---\n"
  }

  function ContextLines(matches: seq<Match>): (lines: seq<string>)
    ensures |lines| == |matches|
    ensures forall i | 0 <= i < |matches| :: lines[i] == ContextLine(matches[i])
  {
    seq(|matches|, i requires 0 <= i < |matches| => ContextLine(matches[i]))
  }

  /** The context: one entry per match, in match order, joined by a line feed. */
  function Context(matches: seq<Match>): string {
    Join(ContextLines(matches), "\n")
  }

  /** "can", in any case, at index `k`. */
  predicate CanAt(s: string, k: nat) {
    k + 3 <= |s| && LowerChar(s[k]) == 'c' && LowerChar(s[k + 1]) == 'a' && LowerChar(s[k + 2]) == 'n'
  }

  /**
   * `/^\s*can\s+i\b/i`: optional leading whitespace, "can", at least one
   * whitespace, "i", then a word boundary.  The whitespace runs cannot be
   * shortened (neither "c" nor "i" is whitespace), so no backtracking is needed.
   */
  predicate IsCanI(query: string) {
    var k := SkipSpaces(query, 0);
    CanAt(query, k) &&
    var m := SkipSpaces(query, k + 3);
    k + 3 < m < |query| && LowerChar(query[m]) == 'i' &&
    (m + 1 == |query| || !IsWordChar(query[m + 1]))
  }

  /** The pattern written out position by position: "can" at `k`, the "i" at `m`. */
  ghost predicate CanIAt(q: string, k: nat, m: nat) {
    k + 3 < m < |q| &&
    (forall j | 0 <= j < k :: IsSpace(q[j])) &&
    CanAt(q, k) &&
    (forall j | k + 3 <= j < m :: IsSpace(q[j])) &&
    LowerChar(q[m]) == 'i' &&
    (m + 1 == |q| || !IsWordChar(q[m + 1]))
  }

  /** `IsCanI` holds exactly when the pattern matches at some positions. */
  lemma IsCanISpec(q: string)
    ensures IsCanI(q) <==> exists k: nat, m: nat :: CanIAt(q, k, m)
  {
    if IsCanI(q) {
      var k := SkipSpaces(q, 0);
      assert CanIAt(q, k, SkipSpaces(q, k + 3));
    }
    if exists k: nat, m: nat :: CanIAt(q, k, m) {
      var k: nat, m: nat :| CanIAt(q, k, m);
      CanIAtMatches(q, k, m);
    }
  }

  /** Where the pattern matches, skipping whitespace finds the same positions, so `IsCanI` holds. */
  lemma CanIAtMatches(q: string, k: nat, m: nat)
    requires CanIAt(q, k, m)
    ensures IsCanI(q)
  {
    LowerLetterNotSpace(q[k]);
    LowerLetterNotSpace(q[m]);
    SkipSpacesAt(q, 0, k);
    SkipSpacesAt(q, k + 3, m);
  }

  /** The answer prompt. */
  function Prompt(query: string, matches: seq<Match>): string {
    var instruction := if IsCanI(query) then CanIInstruction else GeneralInstruction;
    instruction + "\n\nQuestion: " + query + "\n\nContext:\n" + Context(matches)
  }

  /** The route; `embed` is `embedText`, `models` is `getGemini`. */
  function Search(body: SearchBody, index: VectorIndex, embed: Embedder, models: string -> Result<WebModel, string>): (r: Result<SearchResponse, string>)
    ensures (body.query.None? || body.query.value == "") ==> r == Success(MissingQuery("MISSING_QUERY", 400))
    ensures r.Success? && !r.value.MissingQuery? ==>
      body.query.Some? && index.available.Pass? && embed(body.query.value).Success? &&
      var res := index.query(embed(body.query.value).value, GetOr(body.topK, DefaultTopK));
      res.Success? && r.value.matches == GetOr(res.value, [])
    ensures r.Success? && r.value.MatchesOnly? ==> body.answer == Some(false)
    ensures r.Success? && r.value.Answered? ==>
      body.answer != Some(false) && models(GetOr(body.model, DefaultModel)).Success? &&
      (var g := models(GetOr(body.model, DefaultModel)).value.generate(Prompt(body.query.value, r.value.matches));
       g.Success? && g.value.text == r.value.answer)
    ensures body.query.Some? && body.query.value != "" && index.available.Fail? ==>
      r.Failure? && r.error == index.available.error
    ensures body.query.Some? && body.query.value != "" && index.available.Pass? ==>
      match embed(body.query.value)
      case Failure(e) => r.Failure? && r.error == e
      case Success(vec) =>
        match index.query(vec, GetOr(body.topK, DefaultTopK))
        case Failure(e) => r.Failure? && r.error == e
        case Success(res) =>
          var matches := GetOr(res, []);
          if !GetOr(body.answer, true) then r.Success? && r.value == MatchesOnly(matches)
          else
            match models(GetOr(body.model, DefaultModel))
            case Failure(e) => r.Failure? && r.error == e
            case Success(m) =>
              match m.generate(Prompt(body.query.value, matches))
              case Failure(e) => r.Failure? && r.error == e
              case Success(resp) => r.Success? && r.value == Answered(matches, resp.text)
  {
    if body.query.None? || body.query.value == "" then Success(MissingQuery("MISSING_QUERY", 400))
    else
      var query := body.query.value;
      match index.available
      case Fail(e) => Failure(e)
      case Pass =>
        match embed(query)
        case Failure(e) => Failure(e)
        case Success(vec) =>
          match index.query(vec, GetOr(body.topK, DefaultTopK))
          case Failure(e) => Failure(e)
          case Success(res) =>
            var matches := GetOr(res, []);
            if !GetOr(body.answer, true) then Success(MatchesOnly(matches))
            else
              match models(GetOr(body.model, DefaultModel))
              case Failure(e) => Failure(e)
              case Success(gm) =>
                match gm.generate(Prompt(query, matches))
                case Failure(e) => Failure(e)
                case Success(resp) => Success(Answered(matches, resp.text))
  }

  /** Asking for matches only never reaches a model: the response is the same for any models. */
  lemma MatchesOnlyIgnoresModels(body: SearchBody, index: VectorIndex, embed: Embedder,
                                 models1: string -> Result<WebModel, string>, models2: string -> Result<WebModel, string>)
    requires body.answer == Some(false)
    ensures Search(body, index, embed, models1) == Search(body, index, embed, models2)
  {
  }

  /**
   * Records written by crawl, bootstrap and GitHub ingestion carry no `filename`
   * or `chunk`, so their context entry names nothing; an uploaded file's entry
   * names the file and chunk.
   */
  lemma ContextLineOfRecord(src: Source, i: nat, id: string)
    ensures !src.Upload? ==> ContextLine(Match(id, Some(RecordMeta(src, i)))) == "File: " + Undefined + " (chunk " + Undefined + ")\n---\n"
    ensures src.Upload? ==> (ContextLine(Match(id, Some(RecordMeta(src, i)))) ==
      "File: " + src.name + " (chunk " + NatToString(i) + ")\n---\n")
  {
    MetaCarriesIndex(src, i);
    var m := Some(RecordMeta(src, i));
    if src.Upload? {
      assert Field(m, "filename") == Some(Str(src.name));
      assert Field(m, "chunk") == Some(Num(i));
    } else {
      assert Field(m, "filename") == None && Field(m, "chunk") == None;
    }
  }

  /** Leading spaces and any case pass the "can I" test. */
  lemma CanIExample()
    ensures IsCanI("  Can I deploy?")
  {
    var q := "  Can I deploy?";
    assert q[0] == ' ' && q[1] == ' ' && q[2] == 'C' && q[3] == 'a' && q[4] == 'n' && q[5] == ' ' && q[6] == 'I' && q[7] == ' ';
    assert CanIAt(q, 2, 6);
    CanIAtMatches(q, 2, 6);
  }

  /** A longer word after "can" fails the "can I" test. */
  lemma NotCanIExample()
    ensures !IsCanI("can it deploy?")
  {
    var q := "can it deploy?";
    assert q[0] == 'c' && q[3] == ' ' && q[4] == 'i' && q[5] == 't';
    LowerLetterNotSpace(q[0]);
    SkipSpacesAt(q, 0, 0);
    SkipSpacesAt(q, 3, 4);
  }
}
