/**
 * The records the ingestion routes write to the Pinecone index: deterministic
 * ids and metadata per chunk, the embedding step shared by every route, and the
 * index itself as an oracle.  Embedding vectors are floats and stay opaque.
 */
module IndexRecords {
  import opened Wrappers
  import opened Strings

  /** An embedding vector; the model never computes with it. */
  type Embedding = seq<real>

  /** A metadata value: the routes write strings and chunk indexes. */
  datatype MetaValue = Str(s: string) | Num(n: nat)

  type Metadata = map<string, MetaValue>

  datatype IndexRecord = IndexRecord(id: string, values: Embedding, metadata: Metadata)

  /** A query hit; its score is a float and is left out. */
  datatype Match = Match(id: string, metadata: Option<Metadata>)

  /** `embedText`: the embedding provider, which may throw. */
  type Embedder = string -> Result<Embedding, string>

  /**
   * `getIndex()`, which throws when the API key is missing, and the index's
   * `upsert` and `query` (`Success(None)` is a response without `matches`).
   */
  datatype VectorIndex = VectorIndex(
    available: Outcome<string>,
    upsert: seq<IndexRecord> -> Outcome<string>,
    query: (Embedding, nat) -> Result<Option<seq<Match>>, string>)

  /** Where a chunk came from; it decides the chunk's id and metadata. */
  datatype Source =
    | RepoPath(repo: string, ref: string, path: string)   // github-ingest and bootstrap repos
    | Page(url: string, title: string)                    // crawl and bootstrap docs
    | Upload(name: string, ext: string)                   // uploaded files

  /** The text every id of a source starts with; the chunk index follows it. */
  function IdPrefix(src: Source): string {
    match src
    case RepoPath(repo, ref, path) => repo + "@" + ref + ":" + path + "#"
    case Page(url, _) => url + "#"
    case Upload(name, _) => name + "-"
  }

  /** `<repo>@<ref>:<path>#<i>`, `<url>#<i>` and `<name>-<i>`. */
  function RecordId(src: Source, i: nat): (id: string)
    ensures src.RepoPath? ==> id == src.repo + "@" + src.ref + ":" + src.path + "#" + NatToString(i)
    ensures src.Page? ==> id == src.url + "#" + NatToString(i)
    ensures src.Upload? ==> id == src.name + "-" + NatToString(i)
  {
    IdPrefix(src) + NatToString(i)
  }

  /** `{repo, ref, path, idx}`, `{url, title, idx}` and `{filename, chunk, ext}`. */
  function RecordMeta(src: Source, i: nat): Metadata {
    match src
    case RepoPath(repo, ref, path) => map["repo" := Str(repo), "ref" := Str(ref), "path" := Str(path), "idx" := Num(i)]
    case Page(url, title) => map["url" := Str(url), "title" := Str(title), "idx" := Num(i)]
    case Upload(name, ext) => map["filename" := Str(name), "chunk" := Num(i), "ext" := Str(ext)]
  }

  /** The records for the embedded chunks of one source, chunk `i` getting id and metadata for `i`. */
  function Records(src: Source, values: seq<Embedding>): (rs: seq<IndexRecord>)
    ensures |rs| == |values|
    ensures forall i | 0 <= i < |rs| :: rs[i] == IndexRecord(RecordId(src, i), values[i], RecordMeta(src, i))
  {
    seq(|values|, i requires 0 <= i < |values| => IndexRecord(RecordId(src, i), values[i], RecordMeta(src, i)))
  }

  /** Two chunks of one source never share an id. */
  lemma RecordIdInjective(src: Source, i: nat, j: nat)
    requires RecordId(src, i) == RecordId(src, j)
    ensures i == j
  {
    CancelPrefix(IdPrefix(src), NatToString(i), NatToString(j));
    NatToStringInjective(i, j);
  }

  /** The records written for one source have pairwise distinct ids. */
  lemma RecordIdsDistinct(src: Source, values: seq<Embedding>)
    ensures var rs := Records(src, values);
      forall i, j | 0 <= i < j < |rs| :: rs[i].id != rs[j].id
  {
    var rs := Records(src, values);
    forall i, j | 0 <= i < j < |rs|
      ensures rs[i].id != rs[j].id
    {
      if rs[i].id == rs[j].id {
        RecordIdInjective(src, i, j);
      }
    }
  }

  /** The chunk index a record stores can be read back from its metadata. */
  lemma MetaCarriesIndex(src: Source, i: nat)
    ensures src.Upload? ==> RecordMeta(src, i)["chunk"] == Num(i) && RecordMeta(src, i)["filename"] == Str(src.name)
    ensures !src.Upload? ==> RecordMeta(src, i)["idx"] == Num(i)
    ensures !src.Upload? ==> "filename" !in RecordMeta(src, i) && "chunk" !in RecordMeta(src, i)
  {
  }

  /**
   * Embedding the chunks one after another (`for (let i...) await embedText(chunks[i])`):
   * the first failure ends the loop with its error.
   */
  function EmbedAll(chunks: seq<string>, embed: Embedder): Result<seq<Embedding>, string>
    decreases |chunks|
  {
    if chunks == [] then Success([])
    else
      match EmbedAll(chunks[..|chunks| - 1], embed)
      case Failure(e) => Failure(e)
      case Success(vs) =>
        match embed(chunks[|chunks| - 1])
        case Failure(e) => Failure(e)
        case Success(v) => Success(vs + [v])
  }

  /** Embedding succeeds exactly when every chunk embeds, and then yields their vectors in order. */
  lemma {:induction false} EmbedAllSpec(chunks: seq<string>, embed: Embedder)
    ensures EmbedAll(chunks, embed).Success? <==> forall i | 0 <= i < |chunks| :: embed(chunks[i]).Success?
    ensures EmbedAll(chunks, embed).Success? ==>
      |EmbedAll(chunks, embed).value| == |chunks| &&
      forall i | 0 <= i < |chunks| :: EmbedAll(chunks, embed).value[i] == embed(chunks[i]).value
    ensures EmbedAll(chunks, embed).Failure? ==>
      exists i | 0 <= i < |chunks| :: embed(chunks[i]) == Failure(EmbedAll(chunks, embed).error) &&
        forall j | 0 <= j < i :: embed(chunks[j]).Success?
    decreases |chunks|
  {
    if chunks != [] {
      var init := chunks[..|chunks| - 1];
      EmbedAllSpec(init, embed);
      assert forall i | 0 <= i < |init| :: init[i] == chunks[i];
      if EmbedAll(init, embed).Failure? {
        var i :| 0 <= i < |init| && embed(init[i]) == Failure(EmbedAll(init, embed).error) &&
          forall j | 0 <= j < i :: embed(init[j]).Success?;
        assert embed(chunks[i]) == Failure(EmbedAll(chunks, embed).error);
      }
    }
  }

  /** The embedding loop, in the source's imperative form. */
  method EmbedChunks(chunks: seq<string>, embed: Embedder) returns (r: Result<seq<Embedding>, string>)
    ensures r == EmbedAll(chunks, embed)
  {
    var values: seq<Embedding> := [];
    var i := 0;
    while i < |chunks|
      invariant 0 <= i <= |chunks|
      invariant EmbedAll(chunks[..i], embed) == Success(values)
    {
      assert chunks[..i + 1][..i] == chunks[..i];
      match embed(chunks[i])
      case Failure(e) =>
        EmbedAbortsAt(chunks, embed, i);
        return Failure(e);
      case Success(v) =>
        values := values + [v];
      i := i + 1;
    }
    assert chunks[..i] == chunks;
    return Success(values);
  }

  /** A failure at chunk `i`, with all earlier chunks embedded, is the failure of the whole batch. */
  lemma {:induction false} EmbedAbortsAt(chunks: seq<string>, embed: Embedder, i: nat)
    requires i < |chunks| && EmbedAll(chunks[..i], embed).Success? && embed(chunks[i]).Failure?
    ensures EmbedAll(chunks, embed) == Failure(embed(chunks[i]).error)
    decreases |chunks| - i
  {
    if i + 1 == |chunks| {
      assert chunks[..|chunks| - 1] == chunks[..i];
    } else {
      var init := chunks[..|chunks| - 1];
      assert init[..i] == chunks[..i];
      EmbedAbortsAt(init, embed, i);
    }
  }
}
