/**
 * The GitHub helpers of web/src/lib/github.ts: request headers, listing a
 * repository tree (only blobs, each mapped to its contents URL) and reading a
 * file's contents.  HTTP, `encodeURIComponent` and base64 decoding are oracles.
 */
module GitHub {
  import opened Wrappers
  import opened Strings

  const GhApi: string := "https://api.github.com"

  type Headers = map<string, string>

  /** One entry of the `tree` array of a tree response. */
  datatype TreeNode = TreeNode(path: string, kind: string, size: Option<nat>)

  /** A tree response: status, and the `tree` field when present. */
  datatype TreeResponse = TreeResponse(ok: bool, status: nat, tree: Option<seq<TreeNode>>)

  /** A contents response: `encoding`, and `content` when it is a string. */
  datatype ContentResponse = ContentResponse(ok: bool, status: nat, encoding: Option<string>, content: Option<string>)

  /** A file listed by `fetchRepoTree`. */
  datatype RepoFile = RepoFile(path: string, url: string, size: Option<nat>)

  /**
   * The environment and the outside world: `GH_TOKEN`, `encodeURIComponent`, the
   * base64 decoder, and `fetch` of a tree or a contents URL with given headers
   * (a `Failure` is a network error).
   */
  datatype Client = Client(
    token: Option<string>,
    encode: string -> string,
    decodeBase64: string -> string,
    getTree: (string, Headers) -> Result<TreeResponse, string>,
    getContent: (string, Headers) -> Result<ContentResponse, string>)

  /** `authHeaders()`: the Accept header, plus a bearer token when `GH_TOKEN` is set and non-empty. */
  function AuthHeaders(token: Option<string>): (h: Headers)
    ensures "Accept" in h && h["Accept"] == "application/vnd.github+json"
    ensures "Authorization" in h <==> token.Some? && token.value != ""
    ensures "Authorization" in h ==> h["Authorization"] == "Bearer " + token.value
    ensures h.Keys <= {"Accept", "Authorization"}
  {
    var base := map["Accept" := "application/vnd.github+json"];
    if token.Some? && token.value != "" then base["Authorization" := "Bearer " + token.value] else base
  }

  /** The tree URL; here the ref is encoded. */
  function TreeUrl(repo: string, ref: string, encode: string -> string): string {
    GhApi + "/repos/" + repo + "/git/trees/" + encode(ref) + "?recursive=1"
  }

  /** A file's contents URL; here the path is encoded and the ref is not. */
  function ContentUrl(repo: string, ref: string, path: string, encode: string -> string): string {
    GhApi + "/repos/" + repo + "/contents/" + encode(path) + "?ref=" + ref
  }

  /** The blobs of a tree, in tree order, each with its contents URL. */
  function Blobs(repo: string, ref: string, nodes: seq<TreeNode>, encode: string -> string): (files: seq<RepoFile>)
    ensures |files| <= |nodes|
    decreases |nodes|
  {
    if nodes == [] then []
    else
      var rest := Blobs(repo, ref, nodes[1..], encode);
      if nodes[0].kind == "blob" then
        [RepoFile(nodes[0].path, ContentUrl(repo, ref, nodes[0].path, encode), nodes[0].size)] + rest
      else rest
  }

  /** Listing distributes over the tree: the blobs of `a + b` are those of `a`, then those of `b`. */
  lemma {:induction false} BlobsAppend(repo: string, ref: string, a: seq<TreeNode>, b: seq<TreeNode>, encode: string -> string)
    ensures Blobs(repo, ref, a + b, encode) == Blobs(repo, ref, a, encode) + Blobs(repo, ref, b, encode)
    decreases |a|
  {
    if a != [] {
      assert (a + b)[0] == a[0];
      assert (a + b)[1..] == a[1..] + b;
      BlobsAppend(repo, ref, a[1..], b, encode);
    } else {
      assert a + b == b;
    }
  }

  /** A file is listed exactly when a blob node with its path, size and contents URL is in the tree. */
  lemma {:induction false} BlobsMembership(repo: string, ref: string, nodes: seq<TreeNode>, encode: string -> string, f: RepoFile)
    ensures f in Blobs(repo, ref, nodes, encode) <==>
      exists n | n in nodes :: n.kind == "blob" && f == RepoFile(n.path, ContentUrl(repo, ref, n.path, encode), n.size)
    decreases |nodes|
  {
    if nodes != [] {
      BlobsMembership(repo, ref, nodes[1..], encode, f);
      assert forall n :: n in nodes <==> n == nodes[0] || n in nodes[1..];
    }
  }

  /** `fetchRepoTree(repo, ref)`. */
  function FetchRepoTree(repo: string, ref: string, gh: Client): (r: Result<seq<RepoFile>, string>)
    ensures gh.getTree(TreeUrl(repo, ref, gh.encode), AuthHeaders(gh.token)).Failure? ==> r.Failure?
    ensures r.Success? <==>
      (var res := gh.getTree(TreeUrl(repo, ref, gh.encode), AuthHeaders(gh.token)); res.Success? && res.value.ok)
    ensures r.Failure? && gh.getTree(TreeUrl(repo, ref, gh.encode), AuthHeaders(gh.token)).Success? ==>
      r.error == "GitHub tree failed: " + NatToString(gh.getTree(TreeUrl(repo, ref, gh.encode), AuthHeaders(gh.token)).value.status)
    ensures r.Success? && gh.getTree(TreeUrl(repo, ref, gh.encode), AuthHeaders(gh.token)).value.tree.None? ==> r.value == []
  {
    match gh.getTree(TreeUrl(repo, ref, gh.encode), AuthHeaders(gh.token))
    case Failure(e) => Failure(e)
    case Success(res) =>
      if !res.ok then Failure("GitHub tree failed: " + NatToString(res.status))
      else Success(Blobs(repo, ref, GetOr(res.tree, []), gh.encode))
  }

  /** `fetchFileContent(url)`: decoded base64 text, the raw string for other encodings, or "". */
  function FetchFileContent(url: string, gh: Client): (r: Result<string, string>)
    ensures r.Success? <==> (var res := gh.getContent(url, AuthHeaders(gh.token)); res.Success? && res.value.ok)
    ensures r.Success? ==> var res := gh.getContent(url, AuthHeaders(gh.token)).value;
      (res.content.None? ==> r.value == "") &&
      (res.content.Some? && res.encoding == Some("base64") ==> r.value == gh.decodeBase64(res.content.value)) &&
      (res.content.Some? && res.encoding != Some("base64") ==> r.value == res.content.value)
    ensures r.Failure? && gh.getContent(url, AuthHeaders(gh.token)).Success? ==>
      r.error == "GitHub content failed: " + NatToString(gh.getContent(url, AuthHeaders(gh.token)).value.status)
  {
    match gh.getContent(url, AuthHeaders(gh.token))
    case Failure(e) => Failure(e)
    case Success(res) =>
      if !res.ok then Failure("GitHub content failed: " + NatToString(res.status))
      else if res.encoding == Some("base64") && res.content.Some? then Success(gh.decodeBase64(res.content.value))
      else if res.content.Some? then Success(res.content.value)
      else Success("")
  }
}
