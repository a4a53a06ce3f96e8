/**
 * What the GitHub, bootstrap and crawl routes share: their services, the
 * extension and candidate filter for repository files, and the handling of one
 * source (a file or a page): chunk it, embed every chunk, upsert the records.
 */
module Ingestion {
  import opened Wrappers
  import opened Strings
  import Chunker
  import opened IndexRecords
  import opened GitHub

  /** Every route chunks with windows of 2000 characters overlapping by 200. */
  const MaxLen: nat := 2000
  const Overlap: nat := 200
  const MaxFileSize: nat := 1024 * 1024

  /** A fetched web page (`fetchAndExtract`): its title and visible text. */
  datatype WebPage = WebPage(title: string, text: string)

  /** The outside world of an ingestion route. */
  datatype Services = Services(
    index: VectorIndex,
    embed: Embedder,
    gh: Client,
    fetchPage: string -> Result<WebPage, string>)

  /** `(path.split(".").pop() || "").toLowerCase()`. */
  function Ext(path: string): string {
    Lower(LastSegment(path, '.'))
  }

  /**
   * The extension is the lower-cased text after the last dot, or the whole
   * lower-cased path when there is no dot; it never contains a dot.
   */
  lemma ExtSpec(path: string)
    ensures '.' !in Ext(path)
    ensures '.' !in path ==> Ext(path) == Lower(path)
    ensures '.' in path ==> exists k | 0 <= k < |path| ::
      path[k] == '.' && '.' !in path[k + 1..] && Ext(path) == Lower(path[k + 1..])
  {
    var seg := LastSegment(path, '.');
    if '.' in path {
      assert |seg| < |path|;
      var k := |path| - |seg| - 1;
      assert path[k + 1..] == seg;
    } else {
      assert seg == path;
    }
  }

  /** A repository file worth ingesting: an allowed extension and a size (missing counts as 0) below 1 MiB. */
  predicate IsCandidate(f: RepoFile, allowed: set<string>) {
    Ext(f.path) in allowed && GetOr(f.size, 0) < MaxFileSize
  }

  /** `xs.filter(keep)`. */
  function FilterBy<T>(xs: seq<T>, keep: T -> bool): (r: seq<T>)
    ensures |r| <= |xs|
    decreases |xs|
  {
    if xs == [] then []
    else (if keep(xs[0]) then [xs[0]] else []) + FilterBy(xs[1..], keep)
  }

  /** Exactly the kept items pass the filter. */
  lemma {:induction false} FilterByMembership<T>(xs: seq<T>, keep: T -> bool, x: T)
    ensures x in FilterBy(xs, keep) <==> x in xs && keep(x)
    decreases |xs|
  {
    if xs != [] {
      FilterByMembership(xs[1..], keep, x);
      assert x in xs <==> x == xs[0] || x in xs[1..];
    }
  }

  /** Filtering keeps order: it distributes over concatenation. */
  lemma {:induction false} FilterByAppend<T>(xs: seq<T>, ys: seq<T>, keep: T -> bool)
    ensures FilterBy(xs + ys, keep) == FilterBy(xs, keep) + FilterBy(ys, keep)
    decreases |xs|
  {
    if xs == [] {
      assert xs + ys == ys;
    } else {
      var head := if keep(xs[0]) then [xs[0]] else [];
      assert (xs + ys)[0] == xs[0];
      assert (xs + ys)[1..] == xs[1..] + ys;
      calc {
        FilterBy(xs + ys, keep);
        head + FilterBy(xs[1..] + ys, keep);
        { FilterByAppend(xs[1..], ys, keep); }
        head + (FilterBy(xs[1..], keep) + FilterBy(ys, keep));
        (head + FilterBy(xs[1..], keep)) + FilterBy(ys, keep);
        FilterBy(xs, keep) + FilterBy(ys, keep);
      }
    }
  }

  /** `tree.filter(...)` with the candidate test. */
  function Filter(files: seq<RepoFile>, allowed: set<string>): seq<RepoFile> {
    FilterBy(files, f => IsCandidate(f, allowed))
  }

  /** The end index `Array.prototype.slice(0, end)` uses on a list of `len` items. */
  function SliceEnd(len: nat, end: int): (k: nat)
    ensures k <= len
    ensures 0 <= end ==> k == if end < len then end else len
    ensures end < 0 ==> k == if len + end < 0 then 0 else len + end
  {
    if end >= 0 then (if end < len then end else len)
    else if len + end < 0 then 0 else len + end
  }

  /** The candidates of a tree, in tree order, truncated by `slice(0, cap)`. */
  function Select(files: seq<RepoFile>, allowed: set<string>, cap: int): (r: seq<RepoFile>)
    ensures 0 <= cap ==> |r| <= cap
    ensures |r| <= |Filter(files, allowed)| && r == Filter(files, allowed)[..|r|]
  {
    var all := Filter(files, allowed);
    all[..SliceEnd(|all|, cap)]
  }

  /** Every selected file is a candidate of the tree, and the first `cap` candidates are all selected. */
  lemma SelectSpec(files: seq<RepoFile>, allowed: set<string>, cap: int)
    ensures forall f | f in Select(files, allowed, cap) :: f in files && IsCandidate(f, allowed)
    ensures 0 <= cap ==> |Select(files, allowed, cap)| == if cap < |Filter(files, allowed)| then cap else |Filter(files, allowed)|
  {
    var r := Select(files, allowed, cap);
    forall f | f in r
      ensures f in files && IsCandidate(f, allowed)
    {
      FilterByMembership(files, f => IsCandidate(f, allowed), f);
    }
  }

  /** What happened to one source: the batch sent to `upsert` (if any) and the chunk count or the error. */
  datatype SourceRun = SourceRun(sent: Option<seq<IndexRecord>>, outcome: Result<nat, string>)

  /**
   * One source inside its `try`: the text (or the error fetching it), the chunks,
   * their embeddings and the upsert.  With `skipEmpty` an empty batch is not sent
   * (`if (vectors.length)`); the crawl route sends it anyway.
   */
  function RunSource(src: Source, text: Result<string, string>, svc: Services, skipEmpty: bool): (run: SourceRun)
    ensures text.Failure? ==> run == SourceRun(None, Failure(text.error))
    ensures run.outcome.Success? ==> text.Success? && run.outcome.value == |Chunker.Chunks(text.value, MaxLen, Overlap)|
    ensures run.sent.Some? ==> (text.Success? &&
      EmbedAll(Chunker.Chunks(text.value, MaxLen, Overlap), svc.embed).Success? &&
      run.sent.value == Records(src, EmbedAll(Chunker.Chunks(text.value, MaxLen, Overlap), svc.embed).value))
    ensures run.outcome.Success? && (run.sent.Some? || !skipEmpty) ==> run.sent.Some? && svc.index.upsert(run.sent.value).Pass?
    ensures text.Success? && EmbedAll(Chunker.Chunks(text.value, MaxLen, Overlap), svc.embed).Failure? ==>
      run == SourceRun(None, Failure(EmbedAll(Chunker.Chunks(text.value, MaxLen, Overlap), svc.embed).error))
    ensures text.Success? && EmbedAll(Chunker.Chunks(text.value, MaxLen, Overlap), svc.embed).Success? ==>
      var chunks := Chunker.Chunks(text.value, MaxLen, Overlap);
      var records := Records(src, EmbedAll(chunks, svc.embed).value);
      (skipEmpty && records == [] ==> run == SourceRun(None, Success(|chunks|))) &&
      (!(skipEmpty && records == []) && svc.index.upsert(records).Pass? ==> run == SourceRun(Some(records), Success(|chunks|))) &&
      (!(skipEmpty && records == []) && svc.index.upsert(records).Fail? ==>
         run == SourceRun(Some(records), Failure(svc.index.upsert(records).error)))
  {
    match text
    case Failure(e) => SourceRun(None, Failure(e))
    case Success(t) =>
      var chunks := Chunker.Chunks(t, MaxLen, Overlap);
      match EmbedAll(chunks, svc.embed)
      case Failure(e) => SourceRun(None, Failure(e))
      case Success(values) =>
        var records := Records(src, values);
        if skipEmpty && records == [] then SourceRun(None, Success(|chunks|))
        else
          match svc.index.upsert(records)
          case Fail(e) => SourceRun(Some(records), Failure(e))
          case Pass => SourceRun(Some(records), Success(|chunks|))
  }

  /** A batch that is sent holds one record per chunk, and there is always at least one chunk. */
  lemma SentBatchIsComplete(src: Source, text: Result<string, string>, svc: Services, skipEmpty: bool)
    requires RunSource(src, text, svc, skipEmpty).sent.Some?
    ensures var run := RunSource(src, text, svc, skipEmpty);
      |run.sent.value| == |Chunker.Chunks(text.value, MaxLen, Overlap)| >= 1 &&
      forall i | 0 <= i < |run.sent.value| :: run.sent.value[i].id == RecordId(src, i)
  {
    Chunker.ChunksCorrect(text.value, MaxLen, Overlap);
    EmbedAllSpec(Chunker.Chunks(text.value, MaxLen, Overlap), svc.embed);
  }

  /**
   * A source whose text, embeddings and upsert all succeed reports its chunk
   * count and sends one record per chunk; a failing embedding sends nothing,
   * a failing upsert reports its error.
   */
  lemma RunSourceSucceeds(src: Source, t: string, svc: Services, skipEmpty: bool)
    requires EmbedAll(Chunker.Chunks(t, MaxLen, Overlap), svc.embed).Success?
    ensures var chunks := Chunker.Chunks(t, MaxLen, Overlap);
      var records := Records(src, EmbedAll(chunks, svc.embed).value);
      |records| == |chunks| >= 1 &&
      (svc.index.upsert(records).Pass? ==> RunSource(src, Success(t), svc, skipEmpty) == SourceRun(Some(records), Success(|chunks|))) &&
      (svc.index.upsert(records).Fail? ==>
         RunSource(src, Success(t), svc, skipEmpty) == SourceRun(Some(records), Failure(svc.index.upsert(records).error)))
  {
    Chunker.ChunksCorrect(t, MaxLen, Overlap);
    EmbedAllSpec(Chunker.Chunks(t, MaxLen, Overlap), svc.embed);
  }

  /** Because every text has a chunk, skipping empty batches never skips anything. */
  lemma SkipEmptyIsDead(src: Source, text: Result<string, string>, svc: Services)
    ensures RunSource(src, text, svc, true) == RunSource(src, text, svc, false)
  {
    if text.Success? {
      var chunks := Chunker.Chunks(text.value, MaxLen, Overlap);
      Chunker.ChunksCorrect(text.value, MaxLen, Overlap);
      EmbedAllSpec(chunks, svc.embed);
    }
  }

  /** One web page inside its `try`: fetch it, then handle its text as a source titled by the page. */
  function PageRun(url: string, svc: Services, skipEmpty: bool): (run: SourceRun)
    ensures svc.fetchPage(url).Failure? ==> run == SourceRun(None, Failure(svc.fetchPage(url).error))
    ensures svc.fetchPage(url).Success? ==>
      run == RunSource(Source.Page(url, svc.fetchPage(url).value.title), Success(svc.fetchPage(url).value.text), svc, skipEmpty)
  {
    match svc.fetchPage(url)
    case Failure(e) => SourceRun(None, Failure(e))
    case Success(page) => RunSource(Source.Page(url, page.title), Success(page.text), svc, skipEmpty)
  }

  /** One page in the source's imperative form. */
  method IngestPage(url: string, svc: Services, skipEmpty: bool) returns (run: SourceRun)
    ensures run == PageRun(url, svc, skipEmpty)
  {
    var page := svc.fetchPage(url);
    if page.Failure? {
      return SourceRun(None, Failure(page.error));
    }
    var s, o := IngestSource(Source.Page(url, page.value.title), Success(page.value.text), svc, skipEmpty);
    return SourceRun(s, o);
  }

  /** One source in the source's imperative form: chunk, embed in a loop, upsert. */
  method IngestSource(src: Source, text: Result<string, string>, svc: Services, skipEmpty: bool)
    returns (sent: Option<seq<IndexRecord>>, outcome: Result<nat, string>)
    ensures SourceRun(sent, outcome) == RunSource(src, text, svc, skipEmpty)
  {
    if text.Failure? {
      return None, Failure(text.error);
    }
    var chunks := Chunker.ChunkText(text.value, MaxLen, Overlap);
    var values := EmbedChunks(chunks, svc.embed);
    if values.Failure? {
      return None, Failure(values.error);
    }
    var records := Records(src, values.value);
    if skipEmpty && |records| == 0 {
      return None, Success(|chunks|);
    }
    var done := svc.index.upsert(records);
    if done.Fail? {
      return Some(records), Failure(done.error);
    }
    return Some(records), Success(|chunks|);
  }

  /** One repository file inside its `try`: fetch its contents, then handle it as a source. */
  function FileRun(repo: string, ref: string, file: RepoFile, svc: Services): SourceRun {
    RunSource(RepoPath(repo, ref, file.path), FetchFileContent(file.url, svc.gh), svc, true)
  }

  /** Running totals of a loop over sources: completed sources, their chunks, and the batches sent. */
  datatype Tally = Tally(done: nat, chunks: nat, sent: seq<seq<IndexRecord>>)

  const NoTally: Tally := Tally(0, 0, [])

  /** The totals after one more source; a failed source adds nothing but the batch it may have sent. */
  function AddRun(t: Tally, run: SourceRun): Tally {
    Tally(t.done + (if run.outcome.Success? then 1 else 0),
          t.chunks + (if run.outcome.Success? then run.outcome.value else 0),
          t.sent + (if run.sent.Some? then [run.sent.value] else []))
  }

  /** The runs of a list of repository files, in list order. */
  function FileRuns(repo: string, ref: string, files: seq<RepoFile>, svc: Services): (runs: seq<SourceRun>)
    ensures |runs| == |files|
  {
    seq(|files|, i requires 0 <= i < |files| => FileRun(repo, ref, files[i], svc))
  }

  /** The runs of a list of web pages, in list order. */
  function PageRuns(urls: seq<string>, svc: Services, skipEmpty: bool): (runs: seq<SourceRun>)
    ensures |runs| == |urls|
  {
    seq(|urls|, i requires 0 <= i < |urls| => PageRun(urls[i], svc, skipEmpty))
  }

  predicate Succeeded(run: SourceRun) {
    run.outcome.Success?
  }

  /** The runs that completed, in order. */
  function Completed(runs: seq<SourceRun>): seq<SourceRun> {
    FilterBy(runs, Succeeded)
  }

  /** The chunks a run adds to the count: its chunk count if it completed, else none. */
  function ChunksAdded(run: SourceRun): nat {
    if run.outcome.Success? then run.outcome.value else 0
  }

  /** The chunk counts of the completed runs, summed. */
  function ChunkTotal(runs: seq<SourceRun>): nat
    decreases |runs|
  {
    if runs == [] then 0 else ChunksAdded(runs[0]) + ChunkTotal(runs[1..])
  }

  /** The batches the runs handed to `upsert`, in order. */
  function Batches(runs: seq<SourceRun>): (bs: seq<seq<IndexRecord>>)
    ensures |bs| <= |runs|
    decreases |runs|
  {
    if runs == [] then []
    else (if runs[0].sent.Some? then [runs[0].sent.value] else []) + Batches(runs[1..])
  }

  /**
   * The totals after `runs`, counted from `start`: one more completed source
   * per completed run, its chunks, and every batch sent.
   */
  function Summed(start: Tally, runs: seq<SourceRun>): (t: Tally)
    ensures start.done <= t.done <= start.done + |runs|
    ensures start.chunks <= t.chunks
    ensures |start.sent| <= |t.sent| <= |start.sent| + |runs| && t.sent[..|start.sent|] == start.sent
  {
    Tally(start.done + |Completed(runs)|, start.chunks + ChunkTotal(runs), start.sent + Batches(runs))
  }

  lemma {:induction false} ChunkTotalAppend(a: seq<SourceRun>, b: seq<SourceRun>)
    ensures ChunkTotal(a + b) == ChunkTotal(a) + ChunkTotal(b)
    decreases |a|
  {
    if a == [] {
      assert a + b == b;
    } else {
      assert (a + b)[0] == a[0] && (a + b)[1..] == a[1..] + b;
      ChunkTotalAppend(a[1..], b);
    }
  }

  lemma {:induction false} BatchesAppend(a: seq<SourceRun>, b: seq<SourceRun>)
    ensures Batches(a + b) == Batches(a) + Batches(b)
    decreases |a|
  {
    if a == [] {
      assert a + b == b;
    } else {
      assert (a + b)[0] == a[0] && (a + b)[1..] == a[1..] + b;
      BatchesAppend(a[1..], b);
    }
  }

  /** Counting two lists of runs one after the other is counting their concatenation. */
  lemma SummedAppend(start: Tally, a: seq<SourceRun>, b: seq<SourceRun>)
    ensures Summed(Summed(start, a), b) == Summed(start, a + b)
  {
    FilterByAppend(a, b, Succeeded);
    ChunkTotalAppend(a, b);
    BatchesAppend(a, b);
  }

  /** The loop adds one run to the totals exactly as counting it afresh does. */
  lemma AddRunSummed(start: Tally, runs: seq<SourceRun>, run: SourceRun)
    ensures AddRun(Summed(start, runs), run) == Summed(start, runs + [run])
  {
    SummedAppend(start, runs, [run]);
    assert [run][1..] == [];
    assert |Completed([run])| == if run.outcome.Success? then 1 else 0;
    assert ChunkTotal([run]) == ChunksAdded(run);
    assert Batches([run]) == if run.sent.Some? then [run.sent.value] else [];
  }

  /**
   * The totals of the file loop, starting from `start`: `done` counts the
   * files whose run completed, `chunks` adds their chunk counts and `sent`
   * lists every batch sent, in file order.
   */
  function FilesTally(start: Tally, repo: string, ref: string, files: seq<RepoFile>, svc: Services): (t: Tally)
    ensures t == Summed(start, FileRuns(repo, ref, files, svc))
    ensures start.done <= t.done <= start.done + |files|
    ensures |start.sent| <= |t.sent| <= |start.sent| + |files| && t.sent[..|start.sent|] == start.sent
    decreases |files|
  {
    if files == [] then
      assert FileRuns(repo, ref, files, svc) == [];
      start
    else
      var init := files[..|files| - 1];
      var last := FileRun(repo, ref, files[|files| - 1], svc);
      assert FileRuns(repo, ref, files, svc) == FileRuns(repo, ref, init, svc) + [last];
      AddRunSummed(start, FileRuns(repo, ref, init, svc), last);
      AddRun(FilesTally(start, repo, ref, init, svc), last)
  }

  /**
   * Failures are isolated: the files after a prefix are tallied the same way
   * whatever happened to the prefix, so a failed file costs only itself.
   */
  lemma {:induction false} FilesTallyAppend(start: Tally, repo: string, ref: string, a: seq<RepoFile>, b: seq<RepoFile>, svc: Services)
    ensures FilesTally(start, repo, ref, a + b, svc) == FilesTally(FilesTally(start, repo, ref, a, svc), repo, ref, b, svc)
    decreases |b|
  {
    if b == [] {
      assert a + b == a;
    } else {
      var b' := b[..|b| - 1];
      FilesTallyAppend(start, repo, ref, a, b', svc);
      assert (a + b)[..|a + b| - 1] == a + b';
      assert (a + b)[|a + b| - 1] == b[|b| - 1];
    }
  }

  /** Every batch the file loop sends is the full, non-empty batch of one file of the list. */
  lemma {:induction false} FilesTallySent(start: Tally, repo: string, ref: string, files: seq<RepoFile>, svc: Services)
    ensures forall k | |start.sent| <= k < |FilesTally(start, repo, ref, files, svc).sent| :: exists f | f in files ::
      FileRun(repo, ref, f, svc).sent == Some(FilesTally(start, repo, ref, files, svc).sent[k]) &&
      |FilesTally(start, repo, ref, files, svc).sent[k]| >= 1
    decreases |files|
  {
    if files != [] {
      var init := files[..|files| - 1];
      var f := files[|files| - 1];
      FilesTallySent(start, repo, ref, init, svc);
      var t0 := FilesTally(start, repo, ref, init, svc);
      var t := FilesTally(start, repo, ref, files, svc);
      forall k | |start.sent| <= k < |t.sent|
        ensures exists g | g in files :: FileRun(repo, ref, g, svc).sent == Some(t.sent[k]) && |t.sent[k]| >= 1
      {
        if k < |t0.sent| {
          assert t.sent == t0.sent + t.sent[|t0.sent|..];
          assert t.sent[k] == t0.sent[k];
          var g :| g in init && FileRun(repo, ref, g, svc).sent == Some(t0.sent[k]) && |t0.sent[k]| >= 1;
          assert g in files;
        } else {
          var run := FileRun(repo, ref, f, svc);
          assert run.sent.Some? && t.sent[k] == run.sent.value;
          SentBatchIsComplete(RepoPath(repo, ref, f.path), FetchFileContent(f.url, svc.gh), svc, true);
          assert f in files;
        }
      }
    } else {
      assert FilesTally(start, repo, ref, files, svc) == start;
    }
  }

  /** Every batch the files send is the full, non-empty batch of one of the files. */
  lemma BatchesOfFiles(repo: string, ref: string, files: seq<RepoFile>, svc: Services)
    ensures forall k | 0 <= k < |Batches(FileRuns(repo, ref, files, svc))| :: exists f | f in files ::
      FileRun(repo, ref, f, svc).sent == Some(Batches(FileRuns(repo, ref, files, svc))[k]) &&
      |Batches(FileRuns(repo, ref, files, svc))[k]| >= 1
  {
    FilesTallySent(NoTally, repo, ref, files, svc);
    assert FilesTally(NoTally, repo, ref, files, svc).sent == Batches(FileRuns(repo, ref, files, svc)) by {
      assert NoTally.sent + Batches(FileRuns(repo, ref, files, svc)) == Batches(FileRuns(repo, ref, files, svc));
    }
  }

  /** The per-file loop, in the source's imperative form: one `try` per file. */
  method IngestFiles(start: Tally, repo: string, ref: string, files: seq<RepoFile>, svc: Services) returns (t: Tally)
    ensures t == FilesTally(start, repo, ref, files, svc)
  {
    t := start;
    var i := 0;
    while i < |files|
      invariant 0 <= i <= |files|
      invariant t == FilesTally(start, repo, ref, files[..i], svc)
    {
      var file := files[i];
      var content := FetchFileContent(file.url, svc.gh);
      var sent, outcome := IngestSource(RepoPath(repo, ref, file.path), content, svc, true);
      assert files[..i + 1][..i] == files[..i];
      t := AddRun(t, SourceRun(sent, outcome));
      i := i + 1;
    }
    assert files[..i] == files;
  }
}
