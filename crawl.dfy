/**
 * POST /api/crawl (web/src/app/api/crawl/route.ts): ingest each given URL in
 * its own `try`, reporting one result per URL and the total number of chunks.
 * Unlike the other routes it upserts without checking for an empty batch.
 */
module Crawl {
  import opened Wrappers
  import opened IndexRecords
  import opened Ingestion
  import Chunker

  /** One entry of `results`: title and chunk count on success, the error message otherwise. */
  datatype CrawlResult =
    | PageCrawled(url: string, title: string, chunks: nat)
    | CrawlError(url: string, error: string)

  datatype CrawlResponse =
    | MissingUrls(error: string, status: nat)
    | Crawled(totalChunks: nat, results: seq<CrawlResult>)

  /** The route's response (a `Failure` escapes it) and the batches it sent to `upsert`. */
  datatype RouteRun = RouteRun(response: Result<CrawlResponse, string>, sent: seq<seq<IndexRecord>>)

  /** The entry for one URL, given how its `try` ended. */
  function ResultOf(url: string, svc: Services): (r: CrawlResult)
    ensures r.url == url
    ensures r.PageCrawled? <==> PageRun(url, svc, false).outcome.Success?
    ensures r.PageCrawled? ==> r.chunks == PageRun(url, svc, false).outcome.value && r.title == svc.fetchPage(url).value.title
    ensures r.CrawlError? ==> r.error == PageRun(url, svc, false).outcome.error
  {
    var run := PageRun(url, svc, false);
    match run.outcome
    case Success(n) => PageCrawled(url, svc.fetchPage(url).value.title, n)
    case Failure(e) => CrawlError(url, e)
  }

  /** The results: one entry per URL, in input order, each decided by that URL alone. */
  function Results(urls: seq<string>, svc: Services): (rs: seq<CrawlResult>)
    ensures |rs| == |urls|
    ensures forall i | 0 <= i < |urls| :: rs[i] == ResultOf(urls[i], svc)
  {
    seq(|urls|, i requires 0 <= i < |urls| => ResultOf(urls[i], svc))
  }

  /** The sum of the chunk counts of the successful entries. */
  function TotalChunks(rs: seq<CrawlResult>): nat
    decreases |rs|
  {
    if rs == [] then 0
    else TotalChunks(rs[..|rs| - 1]) + (if rs[|rs| - 1].PageCrawled? then rs[|rs| - 1].chunks else 0)
  }

  /** The batches sent, one per URL whose chunks were all embedded, in URL order. */
  function Sent(urls: seq<string>, svc: Services): seq<seq<IndexRecord>>
    decreases |urls|
  {
    if urls == [] then []
    else
      var run := PageRun(urls[|urls| - 1], svc, false);
      Sent(urls[..|urls| - 1], svc) + (if run.sent.Some? then [run.sent.value] else [])
  }

  /** The route; `urls` is `None` when the field is not an array. */
  function Crawl(urls: Option<seq<string>>, svc: Services): (run: RouteRun)
    ensures (urls.None? || urls.value == []) ==> run == RouteRun(Success(MissingUrls("MISSING_URLS", 400)), [])
    ensures run.response.Success? && run.response.value.Crawled? ==>
      urls.Some? && run.response.value.results == Results(urls.value, svc) &&
      run.response.value.totalChunks == TotalChunks(run.response.value.results)
    ensures urls.Some? && urls.value != [] && svc.index.available.Fail? ==>
      run == RouteRun(Failure(svc.index.available.error), [])
    ensures urls.Some? && urls.value != [] && svc.index.available.Pass? ==>
      run.response.Success? &&
      run.response.value == Crawled(TotalChunks(Results(urls.value, svc)), Results(urls.value, svc)) &&
      run.sent == Sent(urls.value, svc)
  {
    if urls.None? || urls.value == [] then RouteRun(Success(MissingUrls("MISSING_URLS", 400)), [])
    else
      match svc.index.available
      case Fail(e) => RouteRun(Failure(e), [])
      case Pass =>
        var rs := Results(urls.value, svc);
        RouteRun(Success(Crawled(TotalChunks(rs), rs)), Sent(urls.value, svc))
  }

  /** The route in the source's imperative form: one `try` per URL, pushing a result each time. */
  method Post(urls: Option<seq<string>>, svc: Services) returns (response: Result<CrawlResponse, string>, sent: seq<seq<IndexRecord>>)
    ensures RouteRun(response, sent) == Crawl(urls, svc)
  {
    if urls.None? || |urls.value| == 0 {
      return Success(MissingUrls("MISSING_URLS", 400)), [];
    }
    if svc.index.available.Fail? {
      return Failure(svc.index.available.error), [];
    }
    var us := urls.value;
    var totalChunks := 0;
    var results: seq<CrawlResult> := [];
    sent := [];
    var i := 0;
    while i < |us|
      invariant 0 <= i <= |us|
      invariant results == Results(us[..i], svc)
      invariant totalChunks == TotalChunks(results)
      invariant sent == Sent(us[..i], svc)
    {
      var r, batch := CrawlOne(us[i], svc);
      CrawlSnoc(us, svc, i);
      TotalChunksSnoc(results, r);
      sent := sent + batch;
      totalChunks := totalChunks + (if r.PageCrawled? then r.chunks else 0);
      results := results + [r];
      i := i + 1;
    }
    assert us[..i] == us;
    return Success(Crawled(totalChunks, results)), sent;
  }

  /** The `try` block for one URL: its entry, and its batch when one was sent. */
  method CrawlOne(url: string, svc: Services) returns (r: CrawlResult, batch: seq<seq<IndexRecord>>)
    ensures r == ResultOf(url, svc)
    ensures batch == if PageRun(url, svc, false).sent.Some? then [PageRun(url, svc, false).sent.value] else []
  {
    var run := IngestPage(url, svc, false);
    batch := if run.sent.Some? then [run.sent.value] else [];
    if run.outcome.Success? {
      r := PageCrawled(url, svc.fetchPage(url).value.title, run.outcome.value);
    } else {
      r := CrawlError(url, run.outcome.error);
    }
  }

  /** One more URL adds its own entry and, when its batch went out, that batch. */
  lemma CrawlSnoc(urls: seq<string>, svc: Services, i: nat)
    requires i < |urls|
    ensures Results(urls[..i + 1], svc) == Results(urls[..i], svc) + [ResultOf(urls[i], svc)]
    ensures Sent(urls[..i + 1], svc) == Sent(urls[..i], svc) +
      (if PageRun(urls[i], svc, false).sent.Some? then [PageRun(urls[i], svc, false).sent.value] else [])
  {
    assert urls[..i + 1][..i] == urls[..i];
  }

  lemma TotalChunksSnoc(rs: seq<CrawlResult>, r: CrawlResult)
    ensures TotalChunks(rs + [r]) == TotalChunks(rs) + (if r.PageCrawled? then r.chunks else 0)
  {
    assert (rs + [r])[..|rs|] == rs;
  }

  /** A URL whose page and embeddings succeed has its batch sent even when the upsert then fails. */
  lemma UpsertAlwaysAttempted(url: string, svc: Services)
    requires svc.fetchPage(url).Success?
    requires EmbedAll(Chunker.Chunks(svc.fetchPage(url).value.text, MaxLen, Overlap), svc.embed).Success?
    ensures PageRun(url, svc, false).sent.Some?
  {
  }

  /** The batches sent are exactly those of the URLs' runs, in URL order. */
  lemma {:induction false} SentIsBatches(urls: seq<string>, svc: Services)
    ensures Sent(urls, svc) == Batches(PageRuns(urls, svc, false))
    decreases |urls|
  {
    if urls == [] {
      assert PageRuns(urls, svc, false) == [];
    } else {
      var init := urls[..|urls| - 1];
      var last := PageRun(urls[|urls| - 1], svc, false);
      SentIsBatches(init, svc);
      assert PageRuns(urls, svc, false) == PageRuns(init, svc, false) + [last];
      BatchesAppend(PageRuns(init, svc, false), [last]);
      assert [last][1..] == [];
    }
  }

  /**
   * A URL's run touches only its own place: its entry in the results and its
   * batch, if any, between the batches of the URLs before and after it.
   */
  lemma FailureIsIsolated(urls: seq<string>, svc: Services, i: nat)
    requires i < |urls|
    ensures Results(urls, svc)[i] == ResultOf(urls[i], svc)
    ensures Sent(urls, svc) == Sent(urls[..i], svc) + Sent([urls[i]], svc) + Sent(urls[i + 1..], svc)
  {
    var a, b, c := urls[..i], [urls[i]], urls[i + 1..];
    assert urls == a + b + c;
    assert PageRuns(urls, svc, false) == PageRuns(a, svc, false) + PageRuns(b, svc, false) + PageRuns(c, svc, false);
    BatchesAppend(PageRuns(a, svc, false), PageRuns(b, svc, false));
    BatchesAppend(PageRuns(a, svc, false) + PageRuns(b, svc, false), PageRuns(c, svc, false));
    SentIsBatches(urls, svc);
    SentIsBatches(a, svc);
    SentIsBatches(b, svc);
    SentIsBatches(c, svc);
  }
}
