/**
 * POST /api/bootstrap (web/src/app/api/bootstrap/route.ts): ingest a fixed list
 * of documentation pages and the HEAD of a fixed list of repositories, counting
 * pages, files and chunks.  Every page, repository tree and file sits in its own
 * `try`, so no single failure stops the batch.
 */
module Bootstrap {
  import opened Wrappers
  import opened IndexRecords
  import opened GitHub
  import opened Ingestion
  import GitHubIngest

  /** The repository allow-list of this route; narrower than GitHub ingestion's. */
  const BootstrapExt: set<string> := {"md", "yaml", "yml", "json", "groovy", "tf", "sh", "py", "go", "ts", "js"}
  const MaxRepoFiles: nat := 400
  const Head: string := "HEAD"

  /** The lists of web/src/lib/sources.ts; the route takes them as its inputs. */
  const CoreDocUrls: seq<string> := [
    "https://www.jenkins.io/doc/",
    "https://argo-cd.readthedocs.io/en/stable/",
    "https://argoproj.github.io/argo-workflows/",
    "https://argoproj.github.io/argo-events/",
    "https://argoproj.github.io/argo-rollouts/",
    "https://developer.hashicorp.com/terraform/docs",
    "https://docs.ansible.com/"]
  const CoreGhRepos: seq<string> := [
    "jenkinsci/jenkins", "argoproj/argo-cd", "argoproj/argo-workflows", "argoproj/argo-events",
    "argoproj/argo-rollouts", "hashicorp/terraform", "ansible/ansible"]

  datatype Counts = Counts(pages: nat, files: nat, chunks: nat)

  /** The route's response (a `Failure` escapes it) and the batches it sent to `upsert`. */
  datatype RouteRun = RouteRun(response: Result<Counts, string>, sent: seq<seq<IndexRecord>>)

  /** The totals of the documentation loop. */
  function DocsTally(start: Tally, urls: seq<string>, svc: Services): (t: Tally)
    ensures start.done <= t.done <= start.done + |urls|
    ensures start.chunks <= t.chunks
    decreases |urls|
  {
    if urls == [] then start
    else AddRun(DocsTally(start, urls[..|urls| - 1], svc), PageRun(urls[|urls| - 1], svc, true))
  }

  /**
   * The documentation loop's totals: `done` counts the pages whose run
   * completed, `chunks` adds their chunk counts and `sent` lists their
   * batches, in URL order.
   */
  lemma {:induction false} DocsTallyCounts(start: Tally, urls: seq<string>, svc: Services)
    ensures DocsTally(start, urls, svc) == Summed(start, PageRuns(urls, svc, true))
    decreases |urls|
  {
    if urls == [] {
      assert PageRuns(urls, svc, true) == [];
    } else {
      var init := urls[..|urls| - 1];
      var last := PageRun(urls[|urls| - 1], svc, true);
      DocsTallyCounts(start, init, svc);
      assert PageRuns(urls, svc, true) == PageRuns(init, svc, true) + [last];
      AddRunSummed(start, PageRuns(init, svc, true), last);
    }
  }

  /** The files of one repository that the route ingests; `None` when listing the tree failed. */
  function RepoCandidates(repo: string, svc: Services): (files: Option<seq<RepoFile>>)
    ensures FetchRepoTree(repo, Head, svc.gh).Failure? ==> files.None?
    ensures FetchRepoTree(repo, Head, svc.gh).Success? ==>
      files == Some(Select(FetchRepoTree(repo, Head, svc.gh).value, BootstrapExt, MaxRepoFiles))
    ensures files.Some? ==> |files.value| <= MaxRepoFiles
  {
    match FetchRepoTree(repo, Head, svc.gh)
    case Failure(_) => None
    case Success(tree) => Some(Select(tree, BootstrapExt, MaxRepoFiles))
  }

  /** The runs of one repository's candidate files at HEAD; none when its tree failed. */
  function RepoRuns(repo: string, svc: Services): seq<SourceRun> {
    FileRuns(repo, Head, GetOr(RepoCandidates(repo, svc), []), svc)
  }

  /** The runs of every repository's candidate files, repository after repository. */
  function AllRepoRuns(repos: seq<string>, svc: Services): seq<SourceRun>
    decreases |repos|
  {
    if repos == [] then [] else AllRepoRuns(repos[..|repos| - 1], svc) + RepoRuns(repos[|repos| - 1], svc)
  }

  /** One repository inside its `try`: a failed tree adds nothing, otherwise its files are tallied. */
  function RepoTally(start: Tally, repo: string, svc: Services): (t: Tally)
    ensures t == Summed(start, RepoRuns(repo, svc))
    ensures start.done <= t.done <= start.done + MaxRepoFiles
  {
    match RepoCandidates(repo, svc)
    case None =>
      assert RepoRuns(repo, svc) == [];
      start
    case Some(files) => FilesTally(start, repo, Head, files, svc)
  }

  /** The totals of the repository loop: every repository's files, in order. */
  function ReposTally(start: Tally, repos: seq<string>, svc: Services): (t: Tally)
    ensures t == Summed(start, AllRepoRuns(repos, svc))
    ensures start.done <= t.done <= start.done + MaxRepoFiles * |repos|
    decreases |repos|
  {
    if repos == [] then start
    else
      var init := repos[..|repos| - 1];
      SummedAppend(start, AllRepoRuns(init, svc), RepoRuns(repos[|repos| - 1], svc));
      RepoTally(ReposTally(start, init, svc), repos[|repos| - 1], svc)
  }

  /**
   * The route over the given page and repository lists. With the index
   * available it answers: `pages` counts the pages whose run completed,
   * `files` the repository files whose run completed, and `chunks` the chunks
   * of both; the batches are the pages' then the files', in order.
   */
  function Bootstrap(urls: seq<string>, repos: seq<string>, svc: Services): (run: RouteRun)
    ensures run.response.Success? ==>
      run.response.value.pages <= |urls| && run.response.value.files <= MaxRepoFiles * |repos|
    ensures svc.index.available.Fail? ==> run == RouteRun(Failure(svc.index.available.error), [])
    ensures svc.index.available.Pass? ==> run.response.Success? && run.response.value == Counts(
      |Completed(PageRuns(urls, svc, true))|, |Completed(AllRepoRuns(repos, svc))|,
      ChunkTotal(PageRuns(urls, svc, true)) + ChunkTotal(AllRepoRuns(repos, svc)))
    ensures svc.index.available.Pass? ==> run.sent == Batches(PageRuns(urls, svc, true)) + Batches(AllRepoRuns(repos, svc))
  {
    match svc.index.available
    case Fail(e) => RouteRun(Failure(e), [])
    case Pass =>
      var docs := DocsTally(NoTally, urls, svc);
      var all := ReposTally(Tally(0, docs.chunks, docs.sent), repos, svc);
      BootstrapTotals(urls, repos, svc);
      RouteRun(Success(Counts(docs.done, all.done, all.chunks)), all.sent)
  }

  /** The two loops' totals, counted afresh from the runs of the pages and of the repository files. */
  lemma BootstrapTotals(urls: seq<string>, repos: seq<string>, svc: Services)
    ensures var pageRuns := PageRuns(urls, svc, true);
      var docs := DocsTally(NoTally, urls, svc);
      docs == Tally(|Completed(pageRuns)|, ChunkTotal(pageRuns), Batches(pageRuns)) &&
      ReposTally(Tally(0, docs.chunks, docs.sent), repos, svc).done == |Completed(AllRepoRuns(repos, svc))| &&
      ReposTally(Tally(0, docs.chunks, docs.sent), repos, svc).chunks == ChunkTotal(pageRuns) + ChunkTotal(AllRepoRuns(repos, svc)) &&
      ReposTally(Tally(0, docs.chunks, docs.sent), repos, svc).sent == Batches(pageRuns) + Batches(AllRepoRuns(repos, svc))
  {
    var pageRuns := PageRuns(urls, svc, true);
    DocsTallyCounts(NoTally, urls, svc);
    assert NoTally.sent + Batches(pageRuns) == Batches(pageRuns);
  }

  /** The route over the fixed lists answers with at most 7 pages and 7 * 400 files. */
  lemma CoreListsBound(svc: Services)
    ensures |CoreDocUrls| == 7 && |CoreGhRepos| == 7
    ensures Bootstrap(CoreDocUrls, CoreGhRepos, svc).response.Success? ==>
      Bootstrap(CoreDocUrls, CoreGhRepos, svc).response.value.pages <= 7 &&
      Bootstrap(CoreDocUrls, CoreGhRepos, svc).response.value.files <= 2800
  {
  }

  /** The route in the source's imperative form: a page loop, then a repository loop around the file loop. */
  method Post(urls: seq<string>, repos: seq<string>, svc: Services) returns (response: Result<Counts, string>, sent: seq<seq<IndexRecord>>)
    ensures RouteRun(response, sent) == Bootstrap(urls, repos, svc)
  {
    if svc.index.available.Fail? {
      return Failure(svc.index.available.error), [];
    }
    var docs := IngestDocs(urls, svc);
    var all := IngestRepos(Tally(0, docs.chunks, docs.sent), repos, svc);
    return Success(Counts(docs.done, all.done, all.chunks)), all.sent;
  }

  /** The page loop: one `try` per page. */
  method IngestDocs(urls: seq<string>, svc: Services) returns (t: Tally)
    ensures t == DocsTally(NoTally, urls, svc)
  {
    t := NoTally;
    var i := 0;
    while i < |urls|
      invariant 0 <= i <= |urls|
      invariant t == DocsTally(NoTally, urls[..i], svc)
    {
      var run := IngestPage(urls[i], svc, true);
      assert urls[..i + 1][..i] == urls[..i];
      t := AddRun(t, run);
      i := i + 1;
    }
    assert urls[..i] == urls;
  }

  /** The repository loop: one `try` per repository tree, around the file loop. */
  method IngestRepos(start: Tally, repos: seq<string>, svc: Services) returns (t: Tally)
    ensures t == ReposTally(start, repos, svc)
  {
    t := start;
    var j := 0;
    while j < |repos|
      invariant 0 <= j <= |repos|
      invariant t == ReposTally(start, repos[..j], svc)
    {
      var repo := repos[j];
      var tree := FetchRepoTree(repo, Head, svc.gh);
      ReposSnoc(start, repos, svc, j);
      if tree.Success? {
        var candidates := Select(tree.value, BootstrapExt, MaxRepoFiles);
        t := IngestFiles(t, repo, Head, candidates, svc);
      }
      j := j + 1;
    }
    assert repos[..j] == repos;
  }

  lemma ReposSnoc(start: Tally, repos: seq<string>, svc: Services, j: nat)
    requires j < |repos|
    ensures ReposTally(start, repos[..j + 1], svc) == RepoTally(ReposTally(start, repos[..j], svc), repos[j], svc)
  {
    assert repos[..j + 1][..j] == repos[..j];
  }

  /** The repository allow-list is a strict subset of GitHub ingestion's: it lacks adoc, java, kt and gradle. */
  lemma NarrowerAllowList()
    ensures BootstrapExt < GitHubIngest.AllowedExt
    ensures GitHubIngest.AllowedExt - BootstrapExt == {"adoc", "java", "kt", "gradle"}
  {
  }

  /** `b` is the batch of some candidate file of one of `repos`, read at ref HEAD. */
  predicate HeadBatch(repos: seq<string>, svc: Services, b: seq<IndexRecord>) {
    exists r, f | r in repos && f in GetOr(RepoCandidates(r, svc), []) :: FileRun(r, Head, f, svc).sent == Some(b)
  }

  /** Every batch of the repository phase is a file's batch at ref HEAD: ids `<repo>@HEAD:<path>#<i>`. */
  lemma {:induction false} RepoBatchesUseHead(start: Tally, repos: seq<string>, svc: Services)
    ensures forall k | |start.sent| <= k < |ReposTally(start, repos, svc).sent| ::
      HeadBatch(repos, svc, ReposTally(start, repos, svc).sent[k])
    decreases |repos|
  {
    if repos == [] {
      assert ReposTally(start, repos, svc) == start;
    } else {
      var init := repos[..|repos| - 1];
      var repo := repos[|repos| - 1];
      RepoBatchesUseHead(start, init, svc);
      var t0 := ReposTally(start, init, svc);
      var t := ReposTally(start, repos, svc);
      var files := GetOr(RepoCandidates(repo, svc), []);
      if RepoCandidates(repo, svc).Some? {
        FilesTallySent(t0, repo, Head, files, svc);
      }
      assert |t0.sent| <= |t.sent| && t.sent[..|t0.sent|] == t0.sent by {
        if RepoCandidates(repo, svc).Some? {
          assert t == FilesTally(t0, repo, Head, files, svc);
        }
      }
      forall k | |start.sent| <= k < |t.sent|
        ensures HeadBatch(repos, svc, t.sent[k])
      {
        if k < |t0.sent| {
          assert t.sent[k] == t0.sent[k];
          HeadBatchWiden(init, repos, svc, t0.sent[k]);
        } else {
          var f :| f in files && FileRun(repo, Head, f, svc).sent == Some(t.sent[k]);
          assert repo in repos;
        }
      }
    }
  }

  /** A batch of a repository of `init` is a batch of any list holding `init`'s repositories. */
  lemma HeadBatchWiden(init: seq<string>, repos: seq<string>, svc: Services, b: seq<IndexRecord>)
    requires HeadBatch(init, svc, b)
    requires forall r :: r in init ==> r in repos
    ensures HeadBatch(repos, svc, b)
  {
    var r, f :| r in init && f in GetOr(RepoCandidates(r, svc), []) && FileRun(r, Head, f, svc).sent == Some(b);
    assert r in repos;
  }
}
