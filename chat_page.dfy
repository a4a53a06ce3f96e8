/**
 * The client-side logic of the chat page: which endpoint a message goes to,
 * how Mermaid blocks are cut out of an answer, how the crawler's URL box is
 * split, and how upload results are summarised.
 */
module ChatPage {
  import opened Wrappers
  import opened Strings

  /** Keywords (matched case-insensitively) that route a message to the diagram endpoint. */
  const DiagramWords: seq<string> := ["diagram", "mermaid", "flowchart", "sequence diagram"]

  /** `wantsDiagram`: the lower-cased message contains one of the keywords. */
  predicate WantsDiagram(text: string) {
    exists w | w in DiagramWords :: Contains(Lower(text), w)
  }

  /**
   * "sequence diagram" adds nothing to the list: the message wants a diagram
   * exactly when it contains "diagram", "mermaid" or "flowchart", in any case.
   */
  lemma WantsDiagramSpec(text: string)
    ensures WantsDiagram(text)
      <==> Contains(Lower(text), "diagram") || Contains(Lower(text), "mermaid") || Contains(Lower(text), "flowchart")
  {
    var t := Lower(text);
    if Contains(t, "sequence diagram") {
      var w := "sequence diagram";
      assert w[9..16] == "diagram";
      assert OccursAt(w, "diagram", 9);
      ContainsTransitive(t, w, "diagram");
    }
    assert DiagramWords[0] == "diagram" && DiagramWords[1] == "mermaid" && DiagramWords[2] == "flowchart";
  }

  /** What the page ends up showing for a message, or `None` when it sends nothing. */
  function Send(message: string,
                diagram: string -> Option<string>,
                search: string -> Result<Option<string>, string>,
                chat: string -> Option<string>): (shown: Option<string>)
    ensures Trim(message) == [] <==> shown.None?
    ensures shown.Some? && WantsDiagram(message) ==> shown.value == GetOr(diagram(message), "")
    ensures shown.Some? && !WantsDiagram(message) && search(message).Success?
            && search(message).value.Some? && search(message).value.value != ""
      ==> shown.value == search(message).value.value
    ensures shown.Some? && !WantsDiagram(message)
            && (search(message).Failure? || search(message).value.None? || search(message).value.value == "")
      ==> shown.value == GetOr(chat(message), "")
  {
    if Trim(message) == [] then None
    else if WantsDiagram(message) then Some(GetOr(diagram(message), ""))
    else match search(message)
      case Success(Some(answer)) =>
        if answer != "" then Some(answer) else Some(GetOr(chat(message), ""))
      case _ => Some(GetOr(chat(message), ""))
  }

  /** A blank message reaches no endpoint: what the endpoints would say does not matter. */
  lemma BlankSendsNothing(message: string,
                          d1: string -> Option<string>, s1: string -> Result<Option<string>, string>, c1: string -> Option<string>,
                          d2: string -> Option<string>, s2: string -> Result<Option<string>, string>, c2: string -> Option<string>)
    requires forall i | 0 <= i < |message| :: IsSpace(message[i])
    ensures Send(message, d1, s1, c1) == Send(message, d2, s2, c2) == None
  {
  }

  /** A diagram request never consults the search or chat endpoints. */
  lemma DiagramBypassesSearch(message: string, diagram: string -> Option<string>,
                              s1: string -> Result<Option<string>, string>, c1: string -> Option<string>,
                              s2: string -> Result<Option<string>, string>, c2: string -> Option<string>)
    requires WantsDiagram(message)
    ensures Send(message, diagram, s1, c1) == Send(message, diagram, s2, c2)
  {
  }

  /*
   * Mermaid extraction: the answer is cut at every non-overlapping
   * "```mermaid" ... "```" (leftmost opener, nearest closing fence). The
   * regular expression's search is a parameter `find`: the cut is defined for
   * any search that stays in bounds and its properties are proved for any
   * leftmost search; the page's search is `IndexFrom`.
   */

  const Opener: string := "```mermaid"
  const Fence: string := "```"
  const DiagramMark: string := "\n[Mermaid Diagram]\n"

  /** A substring search: `find(s, sub, from)` is a position in `s`, or -1. */
  type Search = (string, string, nat) -> int

  /** The search answers -1, or a position at or after `from` where `sub` fits in `s`. */
  ghost predicate InBounds(find: Search) {
    forall s: string, sub: string, from: nat :: find(s, sub, from) == -1 || (from <= find(s, sub, from) && find(s, sub, from) + |sub| <= |s|)
  }

  /** A position the search answers is an occurrence. */
  ghost predicate Finds(find: Search) {
    forall s: string, sub: string, from: nat :: find(s, sub, from) != -1 ==> OccursAt(s, sub, find(s, sub, from))
  }

  /** The search answers the leftmost occurrence at or after `from`, and -1 only when there is none. */
  ghost predicate Leftmost(find: Search) {
    Finds(find) &&
    forall s: string, sub: string, from: nat ::
      forall k :: from <= k && (find(s, sub, from) == -1 || k < find(s, sub, from)) ==> !OccursAt(s, sub, k)
  }

  /** `IndexFrom` (JavaScript's `indexOf`) is a leftmost search. */
  lemma IndexFromIsLeftmost()
    ensures InBounds(IndexFrom) && Leftmost(IndexFrom)
  {
    forall s: string, sub: string, from: nat
      ensures (IndexFrom(s, sub, from) != -1 ==> OccursAt(s, sub, IndexFrom(s, sub, from)))
        && forall k :: from <= k && (IndexFrom(s, sub, from) == -1 || k < IndexFrom(s, sub, from)) ==> !OccursAt(s, sub, k)
    {
      IndexFromSpec(s, sub, from);
    }
    assert Finds(IndexFrom);
  }

  /**
   * A text cut at its blocks: the text between blocks (one more piece than
   * there are blocks) and each block's raw body.
   */
  datatype Cut = Cut(segs: seq<string>, raws: seq<string>)

  /** The cut of `s` from position `from` on, at blocks opened by `op` and closed by `fe`. */
  function Scan(s: string, from: nat, op: string, fe: string, find: Search): (r: Cut)
    requires from <= |s| && fe != [] && InBounds(find)
    ensures |r.segs| == |r.raws| + 1
    decreases |s| - from
  {
    var i := find(s, op, from);
    if i < 0 then Cut([s[from..]], [])
    else
      var j := find(s, fe, i + |op|);
      if j < 0 then Cut([s[from..]], [])
      else
        var rest := Scan(s, j + |fe|, op, fe, find);
        Cut([s[from..i]] + rest.segs, [s[i + |op|..j]] + rest.raws)
  }

  /** No block found from `from`: the rest of the text is the last piece. */
  lemma ScanStop(s: string, from: nat, op: string, fe: string, find: Search, i: int, j: int)
    requires from <= |s| && fe != [] && InBounds(find) && i == find(s, op, from)
    requires i < 0 || (j == find(s, fe, i + |op|) && j < 0)
    ensures Scan(s, from, op, fe, find) == Cut([s[from..]], [])
  {
  }

  /** One block found from `from`: the cut starts with the text before it and its body. */
  lemma ScanCons(s: string, from: nat, op: string, fe: string, find: Search, i: int, j: int,
                 a: string, b: string, rest: Cut)
    requires from <= |s| && fe != [] && InBounds(find)
    requires i == find(s, op, from) && i >= 0 && j == find(s, fe, i + |op|) && j >= 0
    requires a == s[from..i] && b == s[i + |op|..j] && rest == Scan(s, j + |fe|, op, fe, find)
    ensures Scan(s, from, op, fe, find) == Cut([a] + rest.segs, [b] + rest.raws)
  {
  }

  /** A slice with no occurrence of `sub` starting inside it holds no occurrence of `sub`. */
  lemma NoneInside(s: string, a: nat, b: nat, sub: string)
    requires sub != [] && a <= b <= |s| && forall k :: a <= k < b ==> !OccursAt(s, sub, k)
    ensures !Contains(s[a..b], sub)
  {
    forall m
      ensures !OccursAt(s[a..b], sub, m)
    {
      if OccursAt(s[a..b], sub, m) {
        SliceOccurs(s, a, b, sub, m);
      }
    }
  }

  /**
   * Appending `sub` to `t` gives its first occurrence: no occurrence of `sub`
   * starts inside `t`, not even one that runs past its end.
   */
  predicate FirstAtEnd(t: string, sub: string) {
    forall q | 0 <= q < |t| :: !OccursAt(t + sub, sub, q)
  }

  /** A slice ending where `sub` occurs, with no occurrence starting inside it, is followed by its first `sub`. */
  lemma FirstInside(s: string, a: nat, b: nat, sub: string)
    requires a <= b && OccursAt(s, sub, b) && forall k :: a <= k < b ==> !OccursAt(s, sub, k)
    ensures FirstAtEnd(s[a..b], sub)
  {
    assert s[a..b] + sub == s[a..b + |sub|];
    forall q | 0 <= q < b - a
      ensures !OccursAt(s[a..b] + sub, sub, q)
    {
      if OccursAt(s[a..b + |sub|], sub, q) {
        SliceOccurs(s, a, b + |sub|, sub, q);
      }
    }
  }

  /**
   * The cut takes the leftmost opener and the nearest closing fence: the
   * piece before the `k`-th block holds no opener, and the block's body holds
   * no fence; neither does an opener (or fence) start inside the piece (or
   * body) and run into the marker that follows it.
   */
  lemma ScanLeftmostShortest(s: string, from: nat, op: string, fe: string, find: Search, k: nat)
    requires from <= |s| && op != [] && fe != [] && InBounds(find) && Leftmost(find)
    requires k < |Scan(s, from, op, fe, find).raws|
    ensures !Contains(Scan(s, from, op, fe, find).segs[k], op)
    ensures !Contains(Scan(s, from, op, fe, find).raws[k], fe)
    ensures FirstAtEnd(Scan(s, from, op, fe, find).segs[k], op)
    ensures FirstAtEnd(Scan(s, from, op, fe, find).raws[k], fe)
  {
    forall f: nat | f <= |s|
      ensures BlockClean(s, f, op, fe, find)
    {
      var i := find(s, op, f);
      if i >= 0 {
        var j := find(s, fe, i + |op|);
        if j >= 0 {
          FirstBlockClean(s, f, op, fe, find, i, j);
        }
      }
    }
    ScanCleanFrom(s, from, op, fe, find, k);
  }

  /** If a block starts the search from `f`, the text before it holds no opener and its body no fence. */
  ghost predicate BlockClean(s: string, f: nat, op: string, fe: string, find: Search)
    requires f <= |s| && InBounds(find)
  {
    var i := find(s, op, f);
    i >= 0 ==>
      var j := find(s, fe, i + |op|);
      j >= 0 ==> !Contains(s[f..i], op) && !Contains(s[i + |op|..j], fe) &&
                 FirstAtEnd(s[f..i], op) && FirstAtEnd(s[i + |op|..j], fe)
  }

  /** Every block of the cut is clean when the search is clean from every position. */
  lemma {:induction false} ScanCleanFrom(s: string, from: nat, op: string, fe: string, find: Search, k: nat)
    requires from <= |s| && fe != [] && InBounds(find)
    requires forall f: nat | f <= |s| :: BlockClean(s, f, op, fe, find)
    requires k < |Scan(s, from, op, fe, find).raws|
    ensures !Contains(Scan(s, from, op, fe, find).segs[k], op)
    ensures !Contains(Scan(s, from, op, fe, find).raws[k], fe)
    ensures FirstAtEnd(Scan(s, from, op, fe, find).segs[k], op)
    ensures FirstAtEnd(Scan(s, from, op, fe, find).raws[k], fe)
    decreases k
  {
    var i, j := ScanFirst(s, from, op, fe, find);
    var rest := Scan(s, j + |fe|, op, fe, find);
    if k == 0 {
      assert BlockClean(s, from, op, fe, find);
      CleanHead(Scan(s, from, op, fe, find), rest, s[from..i], s[i + |op|..j], op, fe);
    } else {
      ScanCleanFrom(s, j + |fe|, op, fe, find, k - 1);
      CleanShift(Scan(s, from, op, fe, find), rest, s[from..i], s[i + |op|..j], k, op, fe);
    }
  }

  /** A cut with a block starts with the text before the first opener and the first body. */
  lemma ScanFirst(s: string, from: nat, op: string, fe: string, find: Search) returns (i: int, j: int)
    requires from <= |s| && fe != [] && InBounds(find) && |Scan(s, from, op, fe, find).raws| > 0
    ensures i == find(s, op, from) && i >= 0 && j == find(s, fe, i + |op|) && j >= 0
    ensures Scan(s, from, op, fe, find).segs == [s[from..i]] + Scan(s, j + |fe|, op, fe, find).segs
    ensures Scan(s, from, op, fe, find).raws == [s[i + |op|..j]] + Scan(s, j + |fe|, op, fe, find).raws
  {
    i := find(s, op, from);
    j := find(s, fe, i + |op|);
  }

  /** The first piece and body of a cut are the ones put in front. */
  lemma CleanHead(c: Cut, rest: Cut, a: string, b: string, op: string, fe: string)
    requires c.segs == [a] + rest.segs && c.raws == [b] + rest.raws
    requires !Contains(a, op) && !Contains(b, fe) && FirstAtEnd(a, op) && FirstAtEnd(b, fe)
    ensures !Contains(c.segs[0], op) && !Contains(c.raws[0], fe)
    ensures FirstAtEnd(c.segs[0], op) && FirstAtEnd(c.raws[0], fe)
  {
    assert c.segs[0] == a && c.raws[0] == b;
  }

  /** Piece and body `k` of a cut are piece and body `k - 1` of the rest. */
  lemma CleanShift(c: Cut, rest: Cut, a: string, b: string, k: nat, op: string, fe: string)
    requires c.segs == [a] + rest.segs && c.raws == [b] + rest.raws && 0 < k < |c.raws| && |c.raws| < |c.segs|
    requires !Contains(rest.segs[k - 1], op) && !Contains(rest.raws[k - 1], fe)
    requires FirstAtEnd(rest.segs[k - 1], op) && FirstAtEnd(rest.raws[k - 1], fe)
    ensures !Contains(c.segs[k], op) && !Contains(c.raws[k], fe)
    ensures FirstAtEnd(c.segs[k], op) && FirstAtEnd(c.raws[k], fe)
  {
    assert c.segs[k] == rest.segs[k - 1] && c.raws[k] == rest.raws[k - 1];
  }

  /** With a leftmost search, the text before the first block holds no opener and its body no fence. */
  lemma FirstBlockClean(s: string, from: nat, op: string, fe: string, find: Search, i: int, j: int)
    requires from <= |s| && op != [] && fe != [] && InBounds(find) && Leftmost(find)
    requires i == find(s, op, from) && i >= 0 && j == find(s, fe, i + |op|) && j >= 0
    ensures !Contains(s[from..i], op)
    ensures !Contains(s[i + |op|..j], fe)
    ensures FirstAtEnd(s[from..i], op) && FirstAtEnd(s[i + |op|..j], fe)
  {
    NoneInside(s, from, i, op);
    NoneInside(s, i + |op|, j, fe);
    FirstInside(s, from, i, op);
    FirstInside(s, i + |op|, j, fe);
  }

  /** No opener in `t` is followed by a closing fence: nothing in `t` is left to cut. */
  predicate NoBlock(t: string, op: string, fe: string) {
    forall p, q | 0 <= p <= |t| && 0 <= q <= |t| && OccursAt(t, op, p) && OccursAt(t, fe, q) :: q < p + |op|
  }

  /** The cut stops only once the rest of the text holds no complete block. */
  lemma {:induction false} ScanLastClean(s: string, from: nat, op: string, fe: string, find: Search)
    requires from <= |s| && fe != [] && InBounds(find) && Leftmost(find)
    ensures var segs := Scan(s, from, op, fe, find).segs; NoBlock(segs[|segs| - 1], op, fe)
    decreases |s| - from
  {
    var i := find(s, op, from);
    var j := if i < 0 then -1 else find(s, fe, i + |op|);
    if i >= 0 && j >= 0 {
      var rest := Scan(s, j + |fe|, op, fe, find);
      ScanLastClean(s, j + |fe|, op, fe, find);
      assert Scan(s, from, op, fe, find).segs == [s[from..i]] + rest.segs;
    } else {
      ScanStop(s, from, op, fe, find, i, j);
      assert s[from..] == s[from..|s|];
      forall p, q | 0 <= p <= |s| - from && 0 <= q <= |s| - from && OccursAt(s[from..|s|], op, p) && OccursAt(s[from..|s|], fe, q)
        ensures q < p + |op|
      {
        TailNoBlock(s, from, op, fe, find, p, q);
      }
    }
  }

  /** Where the search finds no opener, or no fence after it, the tail holds no complete block. */
  lemma TailNoBlock(s: string, from: nat, op: string, fe: string, find: Search, p: nat, q: nat)
    requires from <= |s| && fe != [] && InBounds(find) && Leftmost(find)
    requires var i := find(s, op, from); i < 0 || find(s, fe, i + |op|) < 0
    requires OccursAt(s[from..|s|], op, p) && OccursAt(s[from..|s|], fe, q)
    ensures q < p + |op|
  {
    SliceOccurs(s, from, |s|, op, p);
    SliceOccurs(s, from, |s|, fe, q);
    var i := find(s, op, from);
    assert i >= 0 ==> from + p >= i;
  }

  /** Puts the blocks back between the pieces, with their opener and fence. */
  function Rebuild(segs: seq<string>, raws: seq<string>, op: string, fe: string): string
    requires |segs| == |raws| + 1
    decreases |raws|
  {
    if raws == [] then segs[0]
    else segs[0] + op + raws[0] + fe + Rebuild(segs[1..], raws[1..], op, fe)
  }

  lemma RebuildStep(a: string, b: string, rest: Cut, t: string, op: string, fe: string)
    requires |rest.segs| == |rest.raws| + 1 && Rebuild(rest.segs, rest.raws, op, fe) == t
    ensures Rebuild([a] + rest.segs, [b] + rest.raws, op, fe) == a + op + b + fe + t
  {
    assert ([a] + rest.segs)[1..] == rest.segs && ([b] + rest.raws)[1..] == rest.raws;
  }

  /** A text with `op` at `i` and then `fe` at `j` splits around them. */
  lemma Decompose(s: string, from: nat, i: nat, j: nat, op: string, fe: string)
    requires from <= i && OccursAt(s, op, i) && i + |op| <= j && OccursAt(s, fe, j)
    ensures s[from..] == s[from..i] + op + s[i + |op|..j] + fe + s[j + |fe|..]
  {
    DropSplit(s, from, i);
    DropSplit(s, i, i + |op|);
    DropSplit(s, i + |op|, j);
    DropSplit(s, j, j + |fe|);
    var a, b, r := s[from..i], s[i + |op|..j], s[j + |fe|..];
    assert s[from..] == a + (op + (b + (fe + r)));
    Regroup(a, op, b, fe, r);
  }

  lemma Regroup<T>(a: seq<T>, b: seq<T>, c: seq<T>, d: seq<T>, e: seq<T>)
    ensures a + (b + (c + (d + e))) == a + b + c + d + e
  {
  }

  /** The cut loses nothing: the pieces and the blocks rebuild the text they came from. */
  lemma {:induction false} ScanRebuild(s: string, from: nat, op: string, fe: string, find: Search)
    requires from <= |s| && fe != [] && InBounds(find) && Finds(find)
    ensures Rebuild(Scan(s, from, op, fe, find).segs, Scan(s, from, op, fe, find).raws, op, fe) == s[from..]
    decreases |s| - from
  {
    var i := find(s, op, from);
    var j := if i < 0 then -1 else find(s, fe, i + |op|);
    if i < 0 || j < 0 {
      ScanStop(s, from, op, fe, find, i, j);
    } else {
      ScanRebuild(s, j + |fe|, op, fe, find);
      assert OccursAt(s, op, i) && OccursAt(s, fe, j);
      RebuildFrom(s, from, op, fe, find, i, j);
    }
  }

  /** The step of the rebuild: the first block put back in front of the rebuilt rest. */
  lemma RebuildFrom(s: string, from: nat, op: string, fe: string, find: Search, i: int, j: int)
    requires from <= |s| && fe != [] && InBounds(find)
    requires i == find(s, op, from) && i >= 0 && j == find(s, fe, i + |op|) && j >= 0
    requires OccursAt(s, op, i) && OccursAt(s, fe, j)
    requires Rebuild(Scan(s, j + |fe|, op, fe, find).segs, Scan(s, j + |fe|, op, fe, find).raws, op, fe) == s[j + |fe|..]
    ensures Rebuild(Scan(s, from, op, fe, find).segs, Scan(s, from, op, fe, find).raws, op, fe) == s[from..]
  {
    var a, b, rest := s[from..i], s[i + |op|..j], Scan(s, j + |fe|, op, fe, find);
    ScanCons(s, from, op, fe, find, i, j, a, b, rest);
    Decompose(s, from, i, j, op, fe);
    RebuildStep(a, b, rest, s[j + |fe|..], op, fe);
  }

  /** The blocks handed to the renderer: each raw body after `tidy` (the page trims them). */
  function Tidied(raws: seq<string>, tidy: string -> string): (r: seq<string>)
    ensures |r| == |raws|
  {
    if raws == [] then [] else [tidy(raws[0])] + Tidied(raws[1..], tidy)
  }

  /** Block `k` handed to the renderer is body `k`, tidied. */
  lemma {:induction false} TidiedAt(raws: seq<string>, tidy: string -> string, k: nat)
    requires k < |raws|
    ensures Tidied(raws, tidy)[k] == tidy(raws[k])
  {
    if k > 0 {
      TidiedAt(raws[1..], tidy, k - 1);
    }
  }

  /**
   * What the `replace` loop leaves behind once it has reached `from` with
   * output `md` and block list `blocks`: each further block is replaced by
   * `mark` and its tidied body pushed, the text after the last block is
   * copied.
   */
  function ReplaceFrom(s: string, from: nat, op: string, fe: string, find: Search, mark: string,
                       tidy: string -> string, md: string, blocks: seq<string>): (string, seq<string>)
    requires from <= |s| && fe != [] && InBounds(find)
    decreases |s| - from
  {
    var i := find(s, op, from);
    if i < 0 then (md + s[from..], blocks)
    else
      var j := find(s, fe, i + |op|);
      if j < 0 then (md + s[from..], blocks)
      else ReplaceFrom(s, j + |fe|, op, fe, find, mark, tidy, md + s[from..i] + mark, blocks + [tidy(s[i + |op|..j])])
  }

  /**
   * The loop agrees with the cut: the output is the pieces joined by the
   * marker, the block list the tidied bodies.
   */
  lemma {:induction false} ReplaceFromCut(s: string, from: nat, op: string, fe: string, find: Search, mark: string,
                                          tidy: string -> string, md: string, blocks: seq<string>)
    requires from <= |s| && fe != [] && InBounds(find)
    ensures ReplaceFrom(s, from, op, fe, find, mark, tidy, md, blocks)
      == (md + Join(Scan(s, from, op, fe, find).segs, mark), blocks + Tidied(Scan(s, from, op, fe, find).raws, tidy))
    decreases |s| - from
  {
    var i := find(s, op, from);
    var j := if i < 0 then -1 else find(s, fe, i + |op|);
    if i < 0 || j < 0 {
      ScanStop(s, from, op, fe, find, i, j);
      assert blocks + [] == blocks;
    } else {
      var a, b := s[from..i], s[i + |op|..j];
      ReplaceFromCut(s, j + |fe|, op, fe, find, mark, tidy, md + a + mark, blocks + [tidy(b)]);
      ReplaceCutStep(s, from, op, fe, find, mark, tidy, md, blocks, i, j, a, b, Scan(s, j + |fe|, op, fe, find));
    }
  }

  /** The step of `ReplaceFromCut`: the first piece and block in front of the rest. */
  lemma ReplaceCutStep(s: string, from: nat, op: string, fe: string, find: Search, mark: string,
                       tidy: string -> string, md: string, blocks: seq<string>, i: int, j: int,
                       a: string, b: string, rest: Cut)
    requires from <= |s| && fe != [] && InBounds(find)
    requires i == find(s, op, from) && i >= 0 && j == find(s, fe, i + |op|) && j >= 0
    requires a == s[from..i] && b == s[i + |op|..j] && rest == Scan(s, j + |fe|, op, fe, find)
    requires ReplaceFrom(s, j + |fe|, op, fe, find, mark, tidy, md + a + mark, blocks + [tidy(b)])
      == (md + a + mark + Join(rest.segs, mark), blocks + [tidy(b)] + Tidied(rest.raws, tidy))
    ensures ReplaceFrom(s, from, op, fe, find, mark, tidy, md, blocks)
      == (md + Join(Scan(s, from, op, fe, find).segs, mark), blocks + Tidied(Scan(s, from, op, fe, find).raws, tidy))
  {
    ScanCons(s, from, op, fe, find, i, j, a, b, rest);
    ReplaceStep(s, from, op, fe, find, mark, tidy, md, blocks, i, j, j + |fe|, md + a + mark, blocks + [tidy(b)]);
    Regather(md, blocks, a, b, rest, mark, tidy);
  }

  lemma Regather(md: string, blocks: seq<string>, a: string, b: string, rest: Cut, mark: string, tidy: string -> string)
    requires rest.segs != []
    ensures (md + a + mark + Join(rest.segs, mark), blocks + [tidy(b)] + Tidied(rest.raws, tidy))
      == (md + Join([a] + rest.segs, mark), blocks + Tidied([b] + rest.raws, tidy))
  {
    JoinCons(a, rest.segs, mark);
    TidiedCons(b, rest.raws, tidy);
    assert md + a + mark + Join(rest.segs, mark) == md + (a + mark + Join(rest.segs, mark));
    assert blocks + [tidy(b)] + Tidied(rest.raws, tidy) == blocks + ([tidy(b)] + Tidied(rest.raws, tidy));
  }

  lemma JoinCons(a: string, rest: seq<string>, mark: string)
    requires rest != []
    ensures Join([a] + rest, mark) == a + mark + Join(rest, mark)
  {
    assert ([a] + rest)[1..] == rest;
  }

  lemma TidiedCons(b: string, rest: seq<string>, tidy: string -> string)
    ensures Tidied([b] + rest, tidy) == [tidy(b)] + Tidied(rest, tidy)
  {
    assert ([b] + rest)[1..] == rest;
  }

  /** One block found from `from`: the loop moves past it. */
  lemma ReplaceStep(s: string, from: nat, op: string, fe: string, find: Search, mark: string, tidy: string -> string,
                    md: string, blocks: seq<string>, i: int, j: int, from': nat, md': string, blocks': seq<string>)
    requires from <= |s| && fe != [] && InBounds(find) && i == find(s, op, from) && i >= 0
    requires j == find(s, fe, i + |op|) && j >= 0
    requires from' == j + |fe| && from <= i && i + |op| <= j && j + |fe| <= |s|
    requires md' == md + s[from..i] + mark && blocks' == blocks + [tidy(s[i + |op|..j])]
    ensures ReplaceFrom(s, from, op, fe, find, mark, tidy, md, blocks)
      == ReplaceFrom(s, from', op, fe, find, mark, tidy, md', blocks')
  {
  }

  /** No block found from `from`: the loop copies the rest and stops. */
  lemma ReplaceStop(s: string, from: nat, op: string, fe: string, find: Search, mark: string, tidy: string -> string,
                    md: string, blocks: seq<string>, i: int, j: int)
    requires from <= |s| && fe != [] && InBounds(find) && i == find(s, op, from)
    requires i < 0 || (j == find(s, fe, i + |op|) && j < 0)
    ensures ReplaceFrom(s, from, op, fe, find, mark, tidy, md, blocks) == (md + s[from..], blocks)
  {
  }

  /**
   * The `replace` loop: every block of `text` is replaced by `mark`, and its
   * tidied body is pushed onto `blocks`.
   */
  method CutOut(text: string, op: string, fe: string, find: Search, mark: string, tidy: string -> string)
    returns (md: string, blocks: seq<string>)
    requires fe != [] && InBounds(find)
    ensures (md, blocks) == ReplaceFrom(text, 0, op, fe, find, mark, tidy, "", [])
  {
    var pos: nat := 0;
    md := "";
    blocks := [];
    while true
      invariant pos <= |text|
      invariant ReplaceFrom(text, pos, op, fe, find, mark, tidy, md, blocks)
        == ReplaceFrom(text, 0, op, fe, find, mark, tidy, "", [])
      decreases |text| - pos
    {
      var i := find(text, op, pos);
      if i < 0 {
        ReplaceStop(text, pos, op, fe, find, mark, tidy, md, blocks, i, -1);
        md := md + text[pos..];
        return;
      }
      var j := find(text, fe, i + |op|);
      if j < 0 {
        ReplaceStop(text, pos, op, fe, find, mark, tidy, md, blocks, i, j);
        md := md + text[pos..];
        return;
      }
      var md', blocks', pos' := md + text[pos..i] + mark, blocks + [tidy(text[i + |op|..j])], j + |fe|;
      ReplaceStep(text, pos, op, fe, find, mark, tidy, md, blocks, i, j, pos', md', blocks');
      md, blocks, pos := md', blocks', pos';
    }
  }

  /** The page's cut of an answer: Mermaid blocks found with `indexOf`. */
  function MermaidCut(answer: string): Cut
  {
    IndexFromIsLeftmost();
    Scan(answer, 0, Opener, Fence, IndexFrom)
  }

  /**
   * The page's cut loses nothing, takes the leftmost opener each time,
   * closes each block at the nearest fence, and leaves no complete block behind.
   */
  lemma MermaidCutSpec(answer: string)
    ensures Rebuild(MermaidCut(answer).segs, MermaidCut(answer).raws, Opener, Fence) == answer
    ensures forall k | 0 <= k < |MermaidCut(answer).raws| ::
      !Contains(MermaidCut(answer).segs[k], Opener) && !Contains(MermaidCut(answer).raws[k], Fence)
    ensures forall k | 0 <= k < |MermaidCut(answer).raws| ::
      FirstAtEnd(MermaidCut(answer).segs[k], Opener) && FirstAtEnd(MermaidCut(answer).raws[k], Fence)
    ensures NoBlock(MermaidCut(answer).segs[|MermaidCut(answer).segs| - 1], Opener, Fence)
  {
    IndexFromIsLeftmost();
    ScanLastClean(answer, 0, Opener, Fence, IndexFrom);
    ScanRebuild(answer, 0, Opener, Fence, IndexFrom);
    forall k | 0 <= k < |MermaidCut(answer).raws|
      ensures !Contains(MermaidCut(answer).segs[k], Opener) && !Contains(MermaidCut(answer).raws[k], Fence)
      ensures FirstAtEnd(MermaidCut(answer).segs[k], Opener) && FirstAtEnd(MermaidCut(answer).raws[k], Fence)
    {
      ScanLeftmostShortest(answer, 0, Opener, Fence, IndexFrom, k);
    }
  }

  /**
   * A body may not end in a backquote that, with the two that follow, would be
   * an earlier closing fence: in "```mermaid x````" the block closes after " x".
   */
  lemma StraddlingFenceIsNotNearest()
    ensures !FirstAtEnd(" x`", Fence)
    ensures FirstAtEnd(" x", Fence)
  {
    assert (" x`" + Fence)[2..2 + |Fence|] == Fence;
    assert OccursAt(" x`" + Fence, Fence, 2);
    var t := " x" + Fence;
    assert t[0] == ' ' && t[1] == 'x';
    forall q | 0 <= q < 2
      ensures !OccursAt(t, Fence, q)
    {
      assert t[q] != '`';
    }
  }

  /**
   * The page's `useMemo`: the answer with each Mermaid block replaced by the
   * marker, and the trimmed block bodies in order.
   */
  method ExtractMermaid(answer: string) returns (md: string, blocks: seq<string>)
    ensures md == Join(MermaidCut(answer).segs, DiagramMark)
    ensures blocks == Tidied(MermaidCut(answer).raws, Trim)
  {
    IndexFromIsLeftmost();
    md, blocks := CutOut(answer, Opener, Fence, IndexFrom, DiagramMark, Trim);
    ReplaceFromCut(answer, 0, Opener, Fence, IndexFrom, DiagramMark, Trim, "", []);
  }

  /** An answer without a Mermaid opener is shown as it is, with no blocks. */
  lemma NoOpenerUnchanged(answer: string)
    requires !Contains(answer, Opener)
    ensures Join(MermaidCut(answer).segs, DiagramMark) == answer
    ensures Tidied(MermaidCut(answer).raws, Trim) == []
  {
    IndexFromIsLeftmost();
    IndexFromSpec(answer, Opener, 0);
    ScanStop(answer, 0, Opener, Fence, IndexFrom, IndexFrom(answer, Opener, 0), -1);
  }

  /*
   * The crawler's URL box.
   */

  /** Trims every piece and drops the empty ones (`map(trim).filter(Boolean)`). */
  function Clean(pieces: seq<string>): (r: seq<string>)
    ensures forall k | 0 <= k < |r| :: r[k] != [] && Trim(r[k]) == r[k]
    decreases |pieces|
  {
    if pieces == [] then []
    else
      var t := Trim(pieces[0]);
      if t == [] then Clean(pieces[1..])
      else
        TrimIdempotent(pieces[0]);
        [t] + Clean(pieces[1..])
  }

  /** Nothing is left exactly when every piece is blank. */
  lemma {:induction false} CleanEmpty(pieces: seq<string>)
    ensures Clean(pieces) == [] <==> forall k | 0 <= k < |pieces| :: Trim(pieces[k]) == []
    decreases |pieces|
  {
    if pieces != [] {
      var rest := pieces[1..];
      CleanEmpty(rest);
      assert forall k | 1 <= k < |pieces| :: pieces[k] == rest[k - 1];
      if Trim(pieces[0]) == [] {
        assert Clean(pieces) == Clean(rest);
      } else {
        assert Clean(pieces) != [];
      }
    }
  }

  /** `urls.split(/\n|,/).map(s => s.trim()).filter(Boolean)`. */
  function SplitUrls(text: string): seq<string> {
    Clean(Split(text, {'\n', ','}))
  }

  /** The crawl request the box sends: none when it holds no URL. */
  function CrawlRequest(text: string): (r: Option<seq<string>>)
    ensures r.Some? ==> r.value != [] && forall k | 0 <= k < |r.value| :: r.value[k] != [] && Trim(r.value[k]) == r.value[k]
    ensures r.None? <==> forall k | 0 <= k < |Split(text, {'\n', ','})| :: Trim(Split(text, {'\n', ','})[k]) == []
  {
    var list := SplitUrls(text);
    CleanEmpty(Split(text, {'\n', ','}));
    if list == [] then None else Some(list)
  }

  lemma {:induction false} CleanKeepsClean(pieces: seq<string>)
    requires forall k | 0 <= k < |pieces| :: pieces[k] != [] && Trim(pieces[k]) == pieces[k]
    ensures Clean(pieces) == pieces
    decreases |pieces|
  {
    if pieces != [] {
      var rest := pieces[1..];
      assert forall k | 0 <= k < |rest| :: rest[k] == pieces[k + 1];
      CleanKeepsClean(rest);
      assert Trim(pieces[0]) == pieces[0] != [];
      assert Clean(pieces) == [pieces[0]] + Clean(rest);
      assert [pieces[0]] + rest == pieces;
    }
  }

  /**
   * URLs typed one per line (or comma-separated), already trimmed, none
   * holding a comma or a line feed, come back exactly as typed.
   */
  lemma UrlsRoundTrip(urls: seq<string>, sep: char)
    requires sep == '\n' || sep == ','
    requires urls != []
    requires forall k | 0 <= k < |urls| :: urls[k] != [] && Trim(urls[k]) == urls[k]
    requires forall k, i | 0 <= k < |urls| && 0 <= i < |urls[k]| :: urls[k][i] != '\n' && urls[k][i] != ','
    ensures SplitUrls(Join(urls, [sep])) == urls
  {
    SplitJoin(urls, sep, {'\n', ','});
    CleanKeepsClean(urls);
  }

  /*
   * Upload results.
   */

  datatype IngestItem = IngestItem(name: string, summary: string)

  function Entry(item: IngestItem): string {
    "- " + item.name + "\n\n" + item.summary
  }

  /** Every item as "- name", a blank line and its summary, items separated by a blank line. */
  function UploadSummary(items: seq<IngestItem>): string {
    Join(seq(|items|, k requires 0 <= k < |items| => Entry(items[k])), "\n\n")
  }

  /** One more uploaded file adds a blank line and its entry to the summary. */
  lemma UploadSummarySnoc(items: seq<IngestItem>, x: IngestItem)
    requires items != []
    ensures UploadSummary(items + [x]) == UploadSummary(items) + "\n\n" + Entry(x)
  {
    var es := seq(|items|, k requires 0 <= k < |items| => Entry(items[k]));
    assert seq(|items + [x]|, k requires 0 <= k < |items + [x]| => Entry((items + [x])[k])) == es + [Entry(x)];
    JoinSnoc(es, Entry(x), "\n\n");
  }
}
