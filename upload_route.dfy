/**
 * The upload route (`POST /api/ingest`): every uploaded file of a supported
 * kind is summarised, chunked and embedded; all records of the request are
 * upserted in one batch at the end.
 */
module UploadRoute {
  import opened Wrappers
  import opened Strings
  import Chunker
  import opened IndexRecords
  import Ingestion

  /** Files above 2 MiB are skipped. */
  const MaxUpload: nat := 2 * 1024 * 1024
  /** At most this many lines appear in a summary's preview. */
  const PreviewLines: nat := 30
  const Summarized: set<string> := {"sh", "tf", "yaml", "yml", "groovy"}
  const TooLarge: string := "Skipped (file too large)"
  const Unsupported: string := "Unsupported file type"

  /** One entry of the multipart form: an uploaded file or a plain field. */
  datatype FormEntry = FileEntry(name: string, size: nat, text: string) | FieldEntry(value: string)

  datatype FileResult = FileResult(name: string, summary: string)

  datatype UploadResponse = Uploaded(results: seq<FileResult>, upserted: nat)

  /** What the route answers and the batches it handed to the index. */
  datatype RouteRun = RouteRun(response: Result<UploadResponse, string>, sent: seq<seq<IndexRecord>>)

  /** A line piece loses one trailing carriage return. */
  function DropCr(p: string): string {
    if |p| > 0 && p[|p| - 1] == '\r' then p[..|p| - 1] else p
  }

  /**
   * `content.split(/\r?\n/)`: split at every line feed, and drop a carriage
   * return that stands right before one.
   */
  function Lines(s: string): (r: seq<string>)
    ensures |r| == |Split(s, {'\n'})|
    ensures forall i | 0 <= i < |r| - 1 :: r[i] == DropCr(Split(s, {'\n'})[i])
    ensures r[|r| - 1] == Split(s, {'\n'})[|r| - 1]
  {
    var ps := Split(s, {'\n'});
    seq(|ps|, i requires 0 <= i < |ps| => if i < |ps| - 1 then DropCr(ps[i]) else ps[i])
  }

  /** The pieces between line feeds of lines joined with CRLF: every line but the last keeps its carriage return. */
  function CrPieces(ls: seq<string>): (ps: seq<string>)
    ensures |ps| == |ls|
    decreases |ls|
  {
    if |ls| <= 1 then ls else [ls[0] + "\r"] + CrPieces(ls[1..])
  }

  lemma {:induction false} JoinCrPieces(ls: seq<string>)
    ensures Join(CrPieces(ls), "\n") == Join(ls, "\r\n")
    decreases |ls|
  {
    if |ls| > 1 {
      JoinCrPieces(ls[1..]);
      assert CrPieces(ls)[1..] == CrPieces(ls[1..]);
    }
  }

  lemma {:induction false} CrPiecesAt(ls: seq<string>, i: nat)
    requires i < |ls|
    ensures CrPieces(ls)[i] == if i < |ls| - 1 then ls[i] + "\r" else ls[i]
    decreases |ls|
  {
    if |ls| > 1 && i > 0 {
      CrPiecesAt(ls[1..], i - 1);
    }
  }

  /**
   * CRLF text: lines holding neither a carriage return nor a line feed, joined
   * with `\r\n`, are split back into exactly those lines.
   */
  lemma CrlfRoundTrip(ls: seq<string>)
    requires ls != []
    requires forall k, c | 0 <= k < |ls| && c in ls[k] :: c != '\r' && c != '\n'
    ensures Lines(Join(ls, "\r\n")) == ls
  {
    var ps := CrPieces(ls);
    CrPiecesNoLf(ls);
    JoinCrPieces(ls);
    SplitJoin(ps, '\n', {'\n'});
    LinesOfCrPieces(ls, Join(ls, "\r\n"));
  }

  lemma LinesOfCrPieces(ls: seq<string>, s: string)
    requires ls != [] && Split(s, {'\n'}) == CrPieces(ls)
    ensures Lines(s) == ls
  {
    forall i | 0 <= i < |ls|
      ensures Lines(s)[i] == ls[i]
    {
      CrPiecesAt(ls, i);
      if i < |ls| - 1 {
        assert DropCr(ls[i] + "\r") == ls[i];
      }
    }
  }

  lemma CrPiecesNoLf(ls: seq<string>)
    requires forall k, c | 0 <= k < |ls| && c in ls[k] :: c != '\r' && c != '\n'
    ensures forall k, i | 0 <= k < |CrPieces(ls)| && 0 <= i < |CrPieces(ls)[k]| :: CrPieces(ls)[k][i] !in {'\n'}
  {
    var ps := CrPieces(ls);
    forall k, i | 0 <= k < |ps| && 0 <= i < |ps[k]|
      ensures ps[k][i] !in {'\n'}
    {
      CrPiecesAt(ls, k);
      if i < |ls[k]| {
        assert ps[k][i] == ls[k][i];
        assert ls[k][i] in ls[k];
      }
    }
  }

  /** A file's summary: its name, its line count and its first 30 lines. */
  function Summarize(name: string, content: string): string {
    var lines := Lines(content);
    var head := if |lines| <= PreviewLines then lines else lines[..PreviewLines];
    "File: " + name + "\nLines: " + NatToString(|lines|) + "\nPreview:\n" + Join(head, "\n")
  }

  /** Every character of a piece of a split comes from the split string. */
  lemma {:induction false} SplitChars(s: string, seps: set<char>)
    ensures forall p, c :: p in Split(s, seps) && c in p ==> c in s
    decreases |s|
  {
    if s != [] {
      SplitChars(s[1..], seps);
      var rest := Split(s[1..], seps);
      if s[0] !in seps {
        forall p, c | p in Split(s, seps) && c in p
          ensures c in s
        {
          if p == [s[0]] + rest[0] {
            assert c == s[0] || c in rest[0];
          } else {
            assert p in rest;
          }
        }
      }
    }
  }

  /**
   * Text without carriage returns: the lines are one more than the line
   * feeds, and joining them with line feeds gives the text back.
   */
  lemma LinesRoundTrip(s: string)
    requires '\r' !in s
    ensures |Lines(s)| == CountIn(s, {'\n'}) + 1
    ensures Join(Lines(s), "\n") == s
  {
    SplitLength(s, {'\n'});
    SplitChars(s, {'\n'});
    var ps := Split(s, {'\n'});
    forall i | 0 <= i < |ps|
      ensures Lines(s)[i] == ps[i]
    {
      if |ps[i]| > 0 {
        assert ps[i][|ps[i]| - 1] in ps[i];
      }
    }
    assert Lines(s) == ps;
    JoinSplit(s, '\n');
  }

  /** A text of fewer than 30 line feeds (and no carriage return) is previewed whole. */
  lemma ShortFilePreviewedWhole(name: string, content: string)
    requires '\r' !in content && CountIn(content, {'\n'}) < PreviewLines
    ensures Summarize(name, content)
      == "File: " + name + "\nLines: " + NatToString(CountIn(content, {'\n'}) + 1) + "\nPreview:\n" + content
  {
    LinesRoundTrip(content);
  }

  /** What the response says about one uploaded file. */
  function Verdict(name: string, size: nat, text: string): FileResult {
    if size > MaxUpload then FileResult(name, TooLarge)
    else if Ingestion.Ext(name) in Summarized then FileResult(name, Summarize(name, text))
    else FileResult(name, Unsupported)
  }

  /** The verdicts on the file entries of a form, in order; plain fields are skipped. */
  function Verdicts(entries: seq<FormEntry>): seq<FileResult>
    decreases |entries|
  {
    if entries == [] then []
    else
      (match entries[0]
       case FileEntry(name, size, text) => [Verdict(name, size, text)]
       case FieldEntry(_) => []) + Verdicts(entries[1..])
  }

  /** The results and records gathered so far. */
  datatype Collected = Collected(results: seq<FileResult>, vectors: seq<IndexRecord>)

  const NothingCollected: Collected := Collected([], [])

  /**
   * One more form entry. Only a small file of a supported kind adds records;
   * a failing embedding aborts the whole request.
   */
  function Step(c: Collected, e: FormEntry, embed: Embedder): (r: Result<Collected, string>)
    ensures r.Failure? ==> e.FileEntry? && e.size <= MaxUpload && Ingestion.Ext(e.name) in Summarized
    ensures r.Success? && e.FieldEntry? ==> r.value == c
    ensures r.Success? && e.FileEntry? ==> r.value.results == c.results + [Verdict(e.name, e.size, e.text)]
    ensures r.Success? && e.FileEntry? && (e.size > MaxUpload || Ingestion.Ext(e.name) !in Summarized)
      ==> r.value.vectors == c.vectors
    ensures r.Success? ==> |c.vectors| <= |r.value.vectors| && r.value.vectors[..|c.vectors|] == c.vectors
    ensures r.Success? ==> forall i | |c.vectors| <= i < |r.value.vectors| ::
      r.value.vectors[i].id == RecordId(Upload(e.name, Ingestion.Ext(e.name)), i - |c.vectors|)
  {
    match e
    case FieldEntry(_) => Success(c)
    case FileEntry(name, size, text) =>
      var verdict := Verdict(name, size, text);
      if size > MaxUpload || Ingestion.Ext(name) !in Summarized then
        Success(Collected(c.results + [verdict], c.vectors))
      else
        match EmbedAll(Chunker.Chunks(text, Ingestion.MaxLen, Ingestion.Overlap), embed)
        case Failure(err) => Failure(err)
        case Success(values) =>
          Success(Collected(c.results + [verdict], c.vectors + Records(Upload(name, Ingestion.Ext(name)), values)))
  }

  /**
   * The loop over the form's entries from `c`. On success, the results are
   * those gathered before followed by one verdict per file entry, and the
   * records gathered before are kept.
   */
  function Collect(c: Collected, entries: seq<FormEntry>, embed: Embedder): (r: Result<Collected, string>)
    ensures r.Success? ==> r.value.results == c.results + Verdicts(entries)
    ensures r.Success? ==> |c.vectors| <= |r.value.vectors| && r.value.vectors[..|c.vectors|] == c.vectors
    decreases |entries|
  {
    if entries == [] then Success(c)
    else
      match Step(c, entries[0], embed)
      case Failure(err) => Failure(err)
      case Success(c1) => Collect(c1, entries[1..], embed)
  }

  /** The loop over a concatenation runs over the first part, then the second. */
  lemma {:induction false} CollectAppend(c: Collected, a: seq<FormEntry>, b: seq<FormEntry>, embed: Embedder)
    ensures Collect(c, a, embed).Failure? ==> Collect(c, a + b, embed) == Collect(c, a, embed)
    ensures Collect(c, a, embed).Success? ==> Collect(c, a + b, embed) == Collect(Collect(c, a, embed).value, b, embed)
    decreases |a|
  {
    if a == [] {
      assert a + b == b;
    } else {
      assert (a + b)[0] == a[0];
      assert (a + b)[1..] == a[1..] + b;
      match Step(c, a[0], embed)
      case Failure(_) =>
      case Success(c1) => CollectAppend(c1, a[1..], b, embed);
    }
  }

  /** The route: gather everything, then upsert the records in one batch if there are any. */
  function UploadRun(entries: seq<FormEntry>, index: VectorIndex, embed: Embedder): (run: RouteRun)
    ensures |run.sent| <= 1
    ensures Collect(NothingCollected, entries, embed).Failure? ==>
      run == RouteRun(Failure(Collect(NothingCollected, entries, embed).error), [])
    ensures Collect(NothingCollected, entries, embed).Success? ==>
      var c := Collect(NothingCollected, entries, embed).value;
      (|c.vectors| == 0 ==> run == RouteRun(Success(Uploaded(c.results, 0)), [])) &&
      (|c.vectors| > 0 && index.available.Pass? && index.upsert(c.vectors).Pass? ==>
         run == RouteRun(Success(Uploaded(c.results, |c.vectors|)), [c.vectors])) &&
      (|c.vectors| > 0 && index.available.Fail? ==> run == RouteRun(Failure(index.available.error), [])) &&
      (|c.vectors| > 0 && index.available.Pass? && index.upsert(c.vectors).Fail? ==>
         run == RouteRun(Failure(index.upsert(c.vectors).error), [c.vectors]))
    ensures run.response.Success? ==> run.response.value.results == Verdicts(entries)
    ensures run.response.Success? && run.response.value.upserted == 0 ==> run.sent == []
    ensures run.response.Success? && run.response.value.upserted > 0
      ==> run.sent != [] && |run.sent[0]| == run.response.value.upserted
  {
    match Collect(NothingCollected, entries, embed)
    case Failure(err) => RouteRun(Failure(err), [])
    case Success(c) =>
      if |c.vectors| == 0 then RouteRun(Success(Uploaded(c.results, 0)), [])
      else if index.available.Fail? then RouteRun(Failure(index.available.error), [])
      else
        match index.upsert(c.vectors)
        case Fail(err) => RouteRun(Failure(err), [c.vectors])
        case Pass => RouteRun(Success(Uploaded(c.results, |c.vectors|)), [c.vectors])
  }

  /** A small file of a supported kind: the only kind of entry that is chunked and embedded. */
  predicate Embedded(e: FormEntry) {
    e.FileEntry? && e.size <= MaxUpload && Ingestion.Ext(e.name) in Summarized
  }

  /** An entry that cannot fail the request: it is not embedded, or all its chunks embed. */
  predicate EmbedsFine(e: FormEntry, embed: Embedder) {
    Embedded(e) ==> EmbedAll(Chunker.Chunks(e.text, Ingestion.MaxLen, Ingestion.Overlap), embed).Success?
  }

  /** The number of chunks of the embedded entries: what `upserted` should report. */
  function ChunksOf(entries: seq<FormEntry>): nat
    decreases |entries|
  {
    if entries == [] then 0
    else
      (if Embedded(entries[0]) then |Chunker.Chunks(entries[0].text, Ingestion.MaxLen, Ingestion.Overlap)| else 0)
      + ChunksOf(entries[1..])
  }

  /**
   * The loop succeeds exactly when every embedded entry embeds all its chunks,
   * and then it has added one record per chunk of those entries.
   */
  lemma {:induction false} CollectCount(c: Collected, entries: seq<FormEntry>, embed: Embedder)
    ensures Collect(c, entries, embed).Success? <==> forall e | e in entries :: EmbedsFine(e, embed)
    ensures Collect(c, entries, embed).Success? ==> |Collect(c, entries, embed).value.vectors| == |c.vectors| + ChunksOf(entries)
    decreases |entries|
  {
    if entries != [] {
      var e := entries[0];
      assert forall x | x in entries :: x == e || x in entries[1..];
      assert e in entries;
      if Embedded(e) {
        EmbedAllSpec(Chunker.Chunks(e.text, Ingestion.MaxLen, Ingestion.Overlap), embed);
      }
      match Step(c, e, embed)
      case Failure(_) =>
      case Success(c1) =>
        CollectCount(c1, entries[1..], embed);
    }
  }

  /**
   * The route answers with `upserted` equal to the chunks of the embedded
   * files whenever it answers, and it answers whenever every embedding and the
   * upsert (when there is something to upsert) succeed.
   */
  lemma UploadedCount(entries: seq<FormEntry>, index: VectorIndex, embed: Embedder)
    ensures UploadRun(entries, index, embed).response.Success? ==>
      UploadRun(entries, index, embed).response.value == Uploaded(Verdicts(entries), ChunksOf(entries))
    ensures (forall e | e in entries :: EmbedsFine(e, embed)) ==>
      Collect(NothingCollected, entries, embed).Success? &&
      (ChunksOf(entries) == 0 ||
       (index.available.Pass? && index.upsert(Collect(NothingCollected, entries, embed).value.vectors).Pass?)
       ==> UploadRun(entries, index, embed).response.Success?)
  {
    CollectCount(NothingCollected, entries, embed);
  }

  /** The loop fails as soon as one step fails. */
  lemma CollectFailsAt(entries: seq<FormEntry>, k: nat, embed: Embedder)
    requires k < |entries|
    requires Collect(NothingCollected, entries[..k], embed).Success?
    requires Step(Collect(NothingCollected, entries[..k], embed).value, entries[k], embed).Failure?
    ensures Collect(NothingCollected, entries, embed).Failure?
  {
    var rest := entries[k..];
    TakeDrop(entries, k);
    CollectAppend(NothingCollected, entries[..k], rest, embed);
    FirstStepFails(Collect(NothingCollected, entries[..k], embed).value, rest, embed);
  }

  lemma TakeDrop<T>(s: seq<T>, k: nat)
    requires k <= |s|
    ensures s == s[..k] + s[k..]
  {
  }

  lemma FirstStepFails(c: Collected, entries: seq<FormEntry>, embed: Embedder)
    requires entries != [] && Step(c, entries[0], embed).Failure?
    ensures Collect(c, entries, embed).Failure?
  {
  }

  /**
   * One file whose embedding fails loses the whole request: no batch is
   * sent and no result is reported, not even for the files before it.
   */
  lemma EmbedFailureDiscardsAll(entries: seq<FormEntry>, k: nat, index: VectorIndex, embed: Embedder)
    requires k < |entries|
    requires Collect(NothingCollected, entries[..k], embed).Success?
    requires Step(Collect(NothingCollected, entries[..k], embed).value, entries[k], embed).Failure?
    ensures UploadRun(entries, index, embed).response.Failure?
    ensures UploadRun(entries, index, embed).sent == []
  {
    CollectFailsAt(entries, k, embed);
  }

  /** A form with no file of a supported kind (or only oversized ones) never reaches the index. */
  lemma NoSupportedFileNoUpsert(entries: seq<FormEntry>, index: VectorIndex, embed: Embedder)
    requires forall e | e in entries && e.FileEntry? :: e.size > MaxUpload || Ingestion.Ext(e.name) !in Summarized
    ensures UploadRun(entries, index, embed) == RouteRun(Success(Uploaded(Verdicts(entries), 0)), [])
  {
    NothingAdded(NothingCollected, entries, embed);
  }

  lemma {:induction false} NothingAdded(c: Collected, entries: seq<FormEntry>, embed: Embedder)
    requires forall e | e in entries && e.FileEntry? :: e.size > MaxUpload || Ingestion.Ext(e.name) !in Summarized
    ensures Collect(c, entries, embed).Success?
    ensures Collect(c, entries, embed).value.vectors == c.vectors
    decreases |entries|
  {
    if entries != [] {
      assert entries[0] in entries;
      var c1 := Step(c, entries[0], embed).value;
      assert forall e | e in entries[1..] :: e in entries;
      NothingAdded(c1, entries[1..], embed);
    }
  }

  /** The route's handler, file by file, as it runs. */
  method Post(entries: seq<FormEntry>, index: VectorIndex, embed: Embedder)
    returns (response: Result<UploadResponse, string>, sent: seq<seq<IndexRecord>>)
    ensures RouteRun(response, sent) == UploadRun(entries, index, embed)
  {
    var results: seq<FileResult> := [];
    var vectors: seq<IndexRecord> := [];
    var i := 0;
    while i < |entries|
      invariant 0 <= i <= |entries|
      invariant Collect(Collected(results, vectors), entries[i..], embed) == Collect(NothingCollected, entries, embed)
    {
      assert entries[i..][0] == entries[i] && entries[i..][1..] == entries[i + 1..];
      var e := entries[i];
      if e.FileEntry? {
        if e.size > MaxUpload {
          results := results + [FileResult(e.name, TooLarge)];
        } else {
          var ext := Ingestion.Ext(e.name);
          if ext in Summarized {
            results := results + [FileResult(e.name, Summarize(e.name, e.text))];
            var chunks := Chunker.ChunkText(e.text, Ingestion.MaxLen, Ingestion.Overlap);
            var values := EmbedChunks(chunks, embed);
            if values.Failure? {
              return Failure(values.error), [];
            }
            vectors := vectors + Records(Upload(e.name, ext), values.value);
          } else {
            results := results + [FileResult(e.name, Unsupported)];
          }
        }
      }
      i := i + 1;
    }
    assert entries[i..] == [];
    if |vectors| == 0 {
      return Success(Uploaded(results, 0)), [];
    }
    if index.available.Fail? {
      return Failure(index.available.error), [];
    }
    var done := index.upsert(vectors);
    if done.Fail? {
      return Failure(done.error), [vectors];
    }
    return Success(Uploaded(results, |vectors|)), [vectors];
  }
}
