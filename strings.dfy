/**
 * Character and string helpers shared by the model.  Strings are `seq<char>`;
 * case folding is ASCII only and whitespace is the ASCII whitespace class, which
 * stands in for JavaScript's `\s` and Python's `str.isspace`.
 */
module Strings {

  /** ASCII whitespace: space, tab, line feed, carriage return, vertical tab, form feed. */
  predicate IsSpace(c: char) {
    c == ' ' || c == '\t' || c == '\n' || c == '\r' || c as int == 11 || c as int == 12
  }

  predicate IsDigit(c: char) { '0' <= c <= '9' }

  predicate IsUpper(c: char) { 'A' <= c <= 'Z' }

  /** A regular-expression word character (`\w`): letter, digit or underscore. */
  predicate IsWordChar(c: char) { 'a' <= c <= 'z' || 'A' <= c <= 'Z' || IsDigit(c) || c == '_' }

  function LowerChar(c: char): char {
    if IsUpper(c) then (c as int + 32) as char else c
  }

  /** A character that lower-cases to a letter is not whitespace. */
  lemma LowerLetterNotSpace(c: char)
    requires 'a' <= LowerChar(c) <= 'z'
    ensures !IsSpace(c)
  {
  }

  /** ASCII lower-casing, standing in for `toLowerCase()` / `str.lower()`. */
  function Lower(s: string): (r: string)
    ensures |r| == |s|
    ensures forall i :: 0 <= i < |s| ==> r[i] == LowerChar(s[i])
  {
    seq(|s|, i requires 0 <= i < |s| => LowerChar(s[i]))
  }

  lemma LowerIdempotent(s: string)
    ensures Lower(Lower(s)) == Lower(s)
  {
  }

  lemma LowerSlice(s: string, a: int, b: int)
    requires 0 <= a <= b <= |s|
    ensures Lower(s)[a..b] == Lower(s[a..b])
  {
  }

  lemma LowerAppend(s: string, t: string)
    ensures Lower(s + t) == Lower(s) + Lower(t)
  {
  }

  predicate StartsWith(s: string, prefix: string) {
    |prefix| <= |s| && s[..|prefix|] == prefix
  }

  /** `sub` occurs in `s` starting at index `k`. */
  predicate OccursAt(s: string, sub: string, k: int) {
    0 <= k && k + |sub| <= |s| && s[k..k + |sub|] == sub
  }

  /** Substring membership: JavaScript `includes`, Python `in`. */
  predicate Contains(s: string, sub: string) {
    exists k | 0 <= k <= |s| - |sub| :: OccursAt(s, sub, k)
  }

  /** Containment is transitive: a substring of a substring is a substring. */
  lemma ContainsTransitive(a: string, b: string, c: string)
    requires Contains(a, b) && Contains(b, c)
    ensures Contains(a, c)
  {
    var i :| 0 <= i <= |a| - |b| && OccursAt(a, b, i);
    var j :| 0 <= j <= |b| - |c| && OccursAt(b, c, j);
    assert a[i..i + |b|] == b;
    forall t | 0 <= t < |c|
      ensures a[i + j + t] == c[t]
    {
      assert a[i + j + t] == a[i..i + |b|][j + t];
      assert b[j..j + |c|][t] == b[j + t];
    }
    assert a[i + j..i + j + |c|] == c;
    assert OccursAt(a, c, i + j);
  }

  /** A string containing `sub` still contains it in lower case, as the lower case of `sub`. */
  lemma LowerPreservesContains(s: string, sub: string)
    requires Contains(s, sub)
    ensures Contains(Lower(s), Lower(sub))
  {
    var k :| 0 <= k <= |s| - |sub| && OccursAt(s, sub, k);
    LowerSlice(s, k, k + |sub|);
    assert OccursAt(Lower(s), Lower(sub), k);
  }

  /** Every string contains itself, and a string is contained in any string built around it. */
  lemma ContainsInfix(pre: string, mid: string, post: string)
    ensures Contains(pre + mid + post, mid)
  {
    var s := pre + mid + post;
    assert s[|pre|..|pre| + |mid|] == mid;
    assert OccursAt(s, mid, |pre|);
  }

  /**
   * The leftmost occurrence of `sub` at or after `from`, or -1 when there is none
   * (`indexOf(sub, from)`; also the leftmost-match rule of a regular expression).
   */
  function IndexFrom(s: string, sub: string, from: nat): (r: int)
    ensures r == -1 || (from <= r && r + |sub| <= |s|)
    decreases |s| - from
  {
    if from + |sub| > |s| then -1
    else if OccursAt(s, sub, from) then from
    else IndexFrom(s, sub, from + 1)
  }

  /**
   * The search finds an occurrence, misses no earlier one, and finds none
   * only when there is none.
   */
  lemma {:induction false} IndexFromSpec(s: string, sub: string, from: nat)
    ensures IndexFrom(s, sub, from) != -1 ==> OccursAt(s, sub, IndexFrom(s, sub, from))
    ensures IndexFrom(s, sub, from) == -1 ==> forall k :: from <= k ==> !OccursAt(s, sub, k)
    ensures IndexFrom(s, sub, from) != -1 ==> forall k :: from <= k < IndexFrom(s, sub, from) ==> !OccursAt(s, sub, k)
    decreases |s| - from
  {
    if from + |sub| <= |s| && !OccursAt(s, sub, from) {
      IndexFromSpec(s, sub, from + 1);
    }
  }

  /** A search that succeeds stops at an occurrence. */
  lemma IndexFromFound(s: string, sub: string, from: nat, r: int)
    requires r == IndexFrom(s, sub, from) && r >= 0
    ensures OccursAt(s, sub, r)
  {
    IndexFromSpec(s, sub, from);
  }

  /** A suffix splits at any point inside it. */
  lemma DropSplit<T>(s: seq<T>, a: nat, b: nat)
    requires a <= b <= |s|
    ensures s[a..] == s[a..b] + s[b..]
  {
  }

  /** Removes leading whitespace (`trimStart`, `lstrip`). */
  function TrimLeft(s: string): (r: string)
    ensures |r| <= |s| && r == s[|s| - |r|..]
    ensures r == [] || !IsSpace(r[0])
    ensures forall i :: 0 <= i < |s| - |r| ==> IsSpace(s[i])
  {
    if s != [] && IsSpace(s[0]) then TrimLeft(s[1..]) else s
  }

  /** The index of the first non-whitespace character at or after `from`, or `|s|`. */
  function SkipSpaces(s: string, from: nat): (k: nat)
    requires from <= |s|
    ensures from <= k <= |s|
    ensures forall j | from <= j < k :: IsSpace(s[j])
    ensures k == |s| || !IsSpace(s[k])
    decreases |s| - from
  {
    if from < |s| && IsSpace(s[from]) then SkipSpaces(s, from + 1) else from
  }

  /** Any index preceded by whitespace only and not itself whitespace is where skipping stops. */
  lemma {:induction false} SkipSpacesAt(s: string, from: nat, k: nat)
    requires from <= k <= |s|
    requires forall j | from <= j < k :: IsSpace(s[j])
    requires k == |s| || !IsSpace(s[k])
    ensures SkipSpaces(s, from) == k
    decreases k - from
  {
    if from < k {
      SkipSpacesAt(s, from + 1, k);
    }
  }

  /** Removes trailing whitespace (`trimEnd`, `rstrip`). */
  function TrimRight(s: string): (r: string)
    ensures |r| <= |s| && r == s[..|r|]
    ensures r == [] || !IsSpace(r[|r| - 1])
    ensures forall i :: |r| <= i < |s| ==> IsSpace(s[i])
  {
    if s != [] && IsSpace(s[|s| - 1]) then TrimRight(s[..|s| - 1]) else s
  }

  /** Removes whitespace at both ends (`trim()`, `strip()`). */
  function Trim(s: string): (r: string)
    ensures r == [] || (!IsSpace(r[0]) && !IsSpace(r[|r| - 1]))
    ensures r == [] <==> forall i :: 0 <= i < |s| ==> IsSpace(s[i])
  {
    var l := TrimLeft(s);
    var r := TrimRight(l);
    assert r != [] ==> r[0] == l[0];
    r
  }

  /** What `Trim` keeps is one slice of the input, with only whitespace cut on either side. */
  lemma TrimIsSlice(s: string)
    ensures exists lo, hi ::
              0 <= lo <= hi <= |s| && Trim(s) == s[lo..hi] &&
              (forall i :: 0 <= i < lo ==> IsSpace(s[i])) && (forall i :: hi <= i < |s| ==> IsSpace(s[i]))
  {
    var l := TrimLeft(s);
    var r := TrimRight(l);
    var lo := |s| - |l|;
    var hi := lo + |r|;
    assert l == s[lo..];
    assert r == l[..|r|];
    assert r == s[lo..hi];
    forall i | hi <= i < |s|
      ensures IsSpace(s[i])
    {
      assert s[i] == l[i - lo];
    }
    assert Trim(s) == s[lo..hi];
  }

  /** Trimming twice is trimming once. */
  lemma TrimIdempotent(s: string)
    ensures Trim(Trim(s)) == Trim(s)
  {
    var t := Trim(s);
    assert TrimLeft(t) == t;
    assert TrimRight(t) == t;
  }

  /** `parts.join(sep)` / `sep.join(parts)`. */
  function Join(parts: seq<string>, sep: string): string
    decreases |parts|
  {
    if |parts| == 0 then ""
    else if |parts| == 1 then parts[0]
    else parts[0] + sep + Join(parts[1..], sep)
  }

  /** Appending one part to a joined list adds one separator and the part. */
  lemma {:induction false} JoinSnoc(parts: seq<string>, x: string, sep: string)
    requires parts != []
    ensures Join(parts + [x], sep) == Join(parts, sep) + sep + x
    decreases |parts|
  {
    if |parts| == 1 {
      assert (parts + [x])[1..] == [x];
    } else {
      assert (parts + [x])[1..] == parts[1..] + [x];
      JoinSnoc(parts[1..], x, sep);
    }
  }

  /**
   * Splits `s` at every character of `seps` (a string `split` on a character class);
   * there is always at least one piece, and no piece holds a separator.
   */
  function Split(s: string, seps: set<char>): (r: seq<string>)
    ensures |r| >= 1
    ensures forall p, c :: p in r && c in p ==> c !in seps
    decreases |s|
  {
    if s == [] then [""]
    else
      var rest := Split(s[1..], seps);
      if s[0] in seps then [""] + rest
      else [[s[0]] + rest[0]] + rest[1..]
  }

  /** Splitting at one separator and joining with it gives back the string. */
  lemma {:induction false} JoinSplit(s: string, c: char)
    ensures Join(Split(s, {c}), [c]) == s
    decreases |s|
  {
    if s != [] {
      var rest := Split(s[1..], {c});
      JoinSplit(s[1..], c);
      if s[0] == c {
        assert Split(s, {c}) == [""] + rest;
        assert ([""] + rest)[1..] == rest;
      } else {
        var pieces := [[s[0]] + rest[0]] + rest[1..];
        assert Split(s, {c}) == pieces;
        if |rest| == 1 {
          assert Join(pieces, [c]) == [s[0]] + rest[0];
        } else {
          assert pieces[1..] == rest[1..];
          assert Join(rest, [c]) == rest[0] + [c] + Join(rest[1..], [c]);
        }
      }
    }
  }

  /** A piece free of separators, followed by more text, becomes the head of the first piece. */
  lemma {:induction false} SplitPiece(a: string, rest: string, seps: set<char>)
    requires forall i | 0 <= i < |a| :: a[i] !in seps
    ensures Split(a + rest, seps) == [a + Split(rest, seps)[0]] + Split(rest, seps)[1..]
    decreases |a|
  {
    var r := Split(rest, seps);
    if a == [] {
      assert a + rest == rest;
      assert a + r[0] == r[0];
      assert [r[0]] + r[1..] == r;
    } else {
      assert (a + rest)[0] == a[0];
      assert (a + rest)[1..] == a[1..] + rest;
      SplitPiece(a[1..], rest, seps);
      assert [a[0]] + (a[1..] + Split(rest, seps)[0]) == a + Split(rest, seps)[0];
    }
  }

  /**
   * Joining pieces free of separators with a separator and splitting again
   * gives the pieces back.
   */
  lemma {:induction false} SplitJoin(parts: seq<string>, c: char, seps: set<char>)
    requires c in seps && parts != []
    requires forall k, i | 0 <= k < |parts| && 0 <= i < |parts[k]| :: parts[k][i] !in seps
    ensures Split(Join(parts, [c]), seps) == parts
    decreases |parts|
  {
    if |parts| == 1 {
      SplitPiece(parts[0], "", seps);
      assert parts[0] + "" == parts[0];
    } else {
      var tail := Join(parts[1..], [c]);
      SplitJoin(parts[1..], c, seps);
      assert Join(parts, [c]) == parts[0] + ([c] + tail);
      SplitPiece(parts[0], [c] + tail, seps);
      assert ([c] + tail)[0] == c && ([c] + tail)[1..] == tail;
      assert Split([c] + tail, seps) == [""] + parts[1..];
      assert parts[0] + "" == parts[0];
      assert [parts[0]] + parts[1..] == parts;
    }
  }

  /** An occurrence inside a slice is an occurrence in the whole string. */
  lemma SliceOccurs(s: string, a: nat, b: nat, sub: string, m: nat)
    requires a <= b <= |s| && OccursAt(s[a..b], sub, m)
    ensures OccursAt(s, sub, a + m) && a + m + |sub| <= b
  {
    forall t | 0 <= t < |sub|
      ensures s[a + m + t] == sub[t]
    {
      assert s[a..b][m..m + |sub|][t] == s[a..b][m + t];
    }
    assert s[a + m..a + m + |sub|] == sub;
  }

  /** Counts the characters of `s` that are in `cs`. */
  function CountIn(s: string, cs: set<char>): nat {
    if s == [] then 0 else (if s[0] in cs then 1 else 0) + CountIn(s[1..], cs)
  }

  /** There is one piece more than there are separators. */
  lemma {:induction false} SplitLength(s: string, seps: set<char>)
    ensures |Split(s, seps)| == CountIn(s, seps) + 1
    decreases |s|
  {
    if s != [] {
      SplitLength(s[1..], seps);
    }
  }

  /**
   * The text after the last `sep`, or the whole string when there is none
   * (`s.split(sep).pop()`).
   */
  function LastSegment(s: string, sep: char): (r: string)
    ensures |r| <= |s| && r == s[|s| - |r|..]
    ensures sep !in r
    ensures |r| < |s| ==> s[|s| - |r| - 1] == sep
  {
    if s == [] then []
    else if s[|s| - 1] == sep then []
    else
      var r := LastSegment(s[..|s| - 1], sep);
      assert s[..|s| - 1][|s| - 1 - |r|..] == s[|s| - 1 - |r|..|s| - 1];
      r + [s[|s| - 1]]
  }

  /** Python `s.replace(pat, "")`: deletes every non-overlapping occurrence, scanning left to right. */
  function RemoveAll(s: string, pat: string): (r: string)
    requires pat != []
    ensures |r| <= |s|
    decreases |s|
  {
    if |s| < |pat| then s
    else if s[..|pat|] == pat then RemoveAll(s[|pat|..], pat)
    else [s[0]] + RemoveAll(s[1..], pat)
  }

  /** A string that does not contain `pat` is left unchanged by deleting `pat`. */
  lemma {:induction false} RemoveAllAbsent(s: string, pat: string)
    requires pat != [] && !Contains(s, pat)
    ensures RemoveAll(s, pat) == s
    decreases |s|
  {
    if |s| >= |pat| {
      assert !OccursAt(s, pat, 0);
      assert !Contains(s[1..], pat) by {
        if Contains(s[1..], pat) {
          var k :| 0 <= k <= |s[1..]| - |pat| && OccursAt(s[1..], pat, k);
          assert s[k + 1..k + 1 + |pat|] == s[1..][k..k + |pat|];
          assert OccursAt(s, pat, k + 1);
        }
      }
      RemoveAllAbsent(s[1..], pat);
    }
  }

  function DigitChar(d: nat): (c: char)
    requires d < 10
    ensures IsDigit(c)
  {
    ('0' as int + d) as char
  }

  function DigitValue(c: char): (d: nat)
    requires IsDigit(c)
    ensures d < 10
  {
    c as int - '0' as int
  }

  /** Decimal rendering of a natural number, as template literals and `String(n)` produce it. */
  function NatToString(n: nat): (r: string)
    ensures |r| >= 1
    ensures forall i :: 0 <= i < |r| ==> IsDigit(r[i])
    decreases n
  {
    if n < 10 then [DigitChar(n)] else NatToString(n / 10) + [DigitChar(n % 10)]
  }

  predicate AllDigits(s: string) { forall i :: 0 <= i < |s| ==> IsDigit(s[i]) }

  /** The value of a string of decimal digits. */
  function DigitsValue(s: string): nat
    requires AllDigits(s)
  {
    if s == [] then 0 else DigitsValue(s[..|s| - 1]) * 10 + DigitValue(s[|s| - 1])
  }

  /** Reading back a rendered number gives the number. */
  lemma {:induction false} NatToStringRoundTrip(n: nat)
    ensures DigitsValue(NatToString(n)) == n
    decreases n
  {
    if n >= 10 {
      NatToStringRoundTrip(n / 10);
      var s := NatToString(n);
      assert s[..|s| - 1] == NatToString(n / 10);
    }
  }

  /** Distinct numbers render as distinct strings. */
  lemma NatToStringInjective(m: nat, n: nat)
    requires NatToString(m) == NatToString(n)
    ensures m == n
  {
    NatToStringRoundTrip(m);
    NatToStringRoundTrip(n);
  }

  /** Two strings with the same prefix are equal only if their suffixes are. */
  lemma CancelPrefix(p: string, s: string, t: string)
    requires p + s == p + t
    ensures s == t
  {
    assert s == (p + s)[|p|..];
    assert t == (p + t)[|p|..];
  }
}
