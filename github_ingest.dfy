/**
 * POST /api/github-ingest (web/src/app/api/github-ingest/route.ts): list a
 * repository tree, keep files with an allowed extension below 1 MiB, cap their
 * number, and ingest them one by one, a failed file being skipped.
 */
module GitHubIngest {
  import opened Wrappers
  import opened IndexRecords
  import opened GitHub
  import opened Ingestion

  const AllowedExt: set<string> :=
    {"md", "adoc", "yaml", "yml", "json", "groovy", "java", "kt", "gradle", "tf", "sh", "py", "go", "ts", "js"}

  const DefaultRef: string := "HEAD"
  const DefaultMaxFiles: int := 500

  /** The request body; `None` fields are absent and take their defaults. */
  datatype IngestBody = IngestBody(repo: Option<string>, ref: Option<string>, maxFiles: Option<int>)

  datatype IngestResponse =
    | MissingRepo(error: string, status: nat)
    | Ingested(repo: string, ref: string, filesProcessed: nat, totalFiles: nat)

  /** The route's response (a `Failure` escapes it) and the batches it sent to `upsert`. */
  datatype RouteRun = RouteRun(response: Result<IngestResponse, string>, sent: seq<seq<IndexRecord>>)

  /**
   * The route. Once the index and the tree are available, `filesProcessed`
   * counts the selected files whose run completed, `totalFiles` counts the
   * selected files, and the batches sent are those of the selected files in
   * tree order.
   */
  function Ingest(body: IngestBody, svc: Services): (run: RouteRun)
    ensures (body.repo.None? || body.repo.value == "") ==> run == RouteRun(Success(MissingRepo("MISSING_REPO", 400)), [])
    ensures run.response.Failure? ==> run.sent == []
    ensures body.repo.Some? && body.repo.value != "" && svc.index.available.Fail? ==>
      run == RouteRun(Failure(svc.index.available.error), [])
    ensures body.repo.Some? && body.repo.value != "" && svc.index.available.Pass? ==>
      Listed(body, svc, run)
    ensures run.response.Success? && run.response.value.Ingested? ==>
      var r := run.response.value;
      r.repo == body.repo.value && r.ref == GetOr(body.ref, DefaultRef) &&
      r.filesProcessed <= r.totalFiles && |run.sent| <= r.totalFiles &&
      r.totalFiles <= (if 0 <= GetOr(body.maxFiles, DefaultMaxFiles) then GetOr(body.maxFiles, DefaultMaxFiles) else r.totalFiles)
  {
    if body.repo.None? || body.repo.value == "" then RouteRun(Success(MissingRepo("MISSING_REPO", 400)), [])
    else
      var repo := body.repo.value;
      var ref := GetOr(body.ref, DefaultRef);
      match svc.index.available
      case Fail(e) => RouteRun(Failure(e), [])
      case Pass =>
        match FetchRepoTree(repo, ref, svc.gh)
        case Failure(e) => RouteRun(Failure(e), [])
        case Success(tree) =>
          var candidates := Select(tree, AllowedExt, GetOr(body.maxFiles, DefaultMaxFiles));
          var t := FilesTally(NoTally, repo, ref, candidates, svc);
          var runs := FileRuns(repo, ref, candidates, svc);
          assert t == Tally(|Completed(runs)|, ChunkTotal(runs), Batches(runs)) by {
            assert NoTally.sent + Batches(runs) == Batches(runs);
          }
          assert |runs| == |candidates|;
          RouteRun(Success(Ingested(repo, ref, t.done, |candidates|)), t.sent)
  }

  /**
   * What the route answers once the index is available: the tree's failure, or
   * the counts and batches of the selected files.
   */
  predicate Listed(body: IngestBody, svc: Services, run: RouteRun)
    requires body.repo.Some?
  {
    var repo := body.repo.value;
    var ref := GetOr(body.ref, DefaultRef);
    match FetchRepoTree(repo, ref, svc.gh)
    case Failure(e) => run == RouteRun(Failure(e), [])
    case Success(tree) =>
      var runs := FileRuns(repo, ref, Select(tree, AllowedExt, GetOr(body.maxFiles, DefaultMaxFiles)), svc);
      run == RouteRun(Success(Ingested(repo, ref, |Completed(runs)|, |runs|)), Batches(runs))
  }

  /** The route in the source's imperative form. */
  method Post(body: IngestBody, svc: Services) returns (response: Result<IngestResponse, string>, sent: seq<seq<IndexRecord>>)
    ensures RouteRun(response, sent) == Ingest(body, svc)
  {
    if body.repo.None? || body.repo.value == "" {
      return Success(MissingRepo("MISSING_REPO", 400)), [];
    }
    var repo := body.repo.value;
    var ref := GetOr(body.ref, DefaultRef);
    if svc.index.available.Fail? {
      return Failure(svc.index.available.error), [];
    }
    var tree := FetchRepoTree(repo, ref, svc.gh);
    if tree.Failure? {
      return Failure(tree.error), [];
    }
    var candidates := Select(tree.value, AllowedExt, GetOr(body.maxFiles, DefaultMaxFiles));
    var t := IngestFiles(NoTally, repo, ref, candidates, svc);
    return Success(Ingested(repo, ref, t.done, |candidates|)), t.sent;
  }

  /** A failure listing the tree is not caught: the request fails and nothing is written. */
  lemma TreeFailureAborts(body: IngestBody, svc: Services)
    requires body.repo.Some? && body.repo.value != ""
    requires FetchRepoTree(body.repo.value, GetOr(body.ref, DefaultRef), svc.gh).Failure?
    ensures Ingest(body, svc).response.Failure? && Ingest(body, svc).sent == []
  {
  }

  /**
   * Every batch written belongs to one selected file: it is the complete batch of
   * that file, with ids `<repo>@<ref>:<path>#<i>` for its chunks `i`.
   */
  lemma SentBatchesAreFiles(body: IngestBody, svc: Services, tree: seq<RepoFile>)
    requires body.repo.Some? && body.repo.value != "" && svc.index.available.Pass?
    requires FetchRepoTree(body.repo.value, GetOr(body.ref, DefaultRef), svc.gh) == Success(tree)
    ensures forall k | 0 <= k < |Ingest(body, svc).sent| :: exists f | f in Select(tree, AllowedExt, GetOr(body.maxFiles, DefaultMaxFiles)) ::
      f in tree && IsCandidate(f, AllowedExt) &&
      FileRun(body.repo.value, GetOr(body.ref, DefaultRef), f, svc).sent == Some(Ingest(body, svc).sent[k]) &&
      |Ingest(body, svc).sent[k]| >= 1
  {
    var repo, ref := body.repo.value, GetOr(body.ref, DefaultRef);
    var candidates := Select(tree, AllowedExt, GetOr(body.maxFiles, DefaultMaxFiles));
    var runs := FileRuns(repo, ref, candidates, svc);
    var sent := Ingest(body, svc).sent;
    assert sent == Batches(runs);
    BatchesOfFiles(repo, ref, candidates, svc);
    SelectSpec(tree, AllowedExt, GetOr(body.maxFiles, DefaultMaxFiles));
    forall k | 0 <= k < |sent|
      ensures exists f | f in candidates ::
        f in tree && IsCandidate(f, AllowedExt) && FileRun(repo, ref, f, svc).sent == Some(sent[k]) && |sent[k]| >= 1
    {
      var f :| f in candidates && FileRun(repo, ref, f, svc).sent == Some(sent[k]) && |sent[k]| >= 1;
      assert f in tree && IsCandidate(f, AllowedExt);
    }
  }

  /** With no `maxFiles`, at most 500 files are taken, and a negative cap counts from the end like `slice`. */
  lemma CapExamples(n: nat)
    ensures SliceEnd(n, DefaultMaxFiles) <= 500
    ensures SliceEnd(n, -1) == if n == 0 then 0 else n - 1
    ensures SliceEnd(n, 0) == 0
  {
  }
}
