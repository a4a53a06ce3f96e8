/**
 * The Slack helpers of web/src/lib/slack.ts: the request-signature check with
 * its five-minute replay window, recognising a channel id, and resolving a
 * channel name through at most ten pages of `conversations.list`.  The clock,
 * the HMAC digest and the HTTP requests are parameters.
 */
module Slack {
  import opened Wrappers
  import opened Strings

  /** `60 * 5`: the replay window, in seconds. */
  const WindowSeconds: int := 60 * 5

  /** `for (let i = 0; i < 10; i++)`: how many pages the lookup may request. */
  const MaxPages: nat := 10

  const MissingToken: string := "SLACK_BOT_TOKEN not set"
  const NotFoundPrefix: string := "Channel not found: "
  const ListFailedPrefix: string := "conversations.list failed: "

  // ---------------------------------------------------------------------------
  // verifySlackSignature
  // ---------------------------------------------------------------------------

  function Abs(x: int): nat { if x < 0 then -x else x }

  /** The end of the run of decimal digits starting at `from`. */
  function DigitRun(s: string, from: nat): (k: nat)
    requires from <= |s|
    ensures from <= k <= |s|
    ensures AllDigits(s[from..k])
    ensures k == |s| || !IsDigit(s[k])
    decreases |s| - from
  {
    if from < |s| && IsDigit(s[from]) then
      var k := DigitRun(s, from + 1);
      assert s[from..k] == [s[from]] + s[from + 1..k];
      k
    else from
  }

  /**
   * `parseInt(s, 10)`: leading whitespace, an optional sign, then the longest run
   * of digits; `None` stands for `NaN`, which is what a string without leading
   * digits gives.
   */
  function ParseInt(s: string): (r: Option<int>)
  {
    var k := SkipSpaces(s, 0);
    var start := if k < |s| && (s[k] == '-' || s[k] == '+') then k + 1 else k;
    var n := DigitRun(s, start);
    if n == start then None
    else if k < |s| && s[k] == '-' then Some(-(DigitsValue(s[start..n]) as int))
    else Some(DigitsValue(s[start..n]))
  }

  /** Decimal renderings read back as the number they render. */
  lemma ParseIntDecimal(n: nat)
    ensures ParseInt(NatToString(n)) == Some(n)
  {
    var s := NatToString(n);
    SkipSpacesAt(s, 0, 0);
    assert DigitRun(s, 0) == |s|;
    assert s[0..|s|] == s;
    NatToStringRoundTrip(n);
  }

  /**
   * `Math.abs(now - parseInt(ts, 10)) > 60 * 5`.  With `NaN` every comparison is
   * false, so a timestamp without leading digits is never stale.
   */
  predicate Stale(now: int, ts: string) {
    var t := ParseInt(ts);
    t.Some? && Abs(now - t.value) > WindowSeconds
  }

  /** `"v0=" + hex(HMAC-SHA256(secret, "v0:" + ts + ":" + body))`; `hmacHex` is the digest. */
  function Expected(secret: string, ts: string, rawBody: string, hmacHex: (string, string) -> string): string {
    "v0=" + hmacHex(secret, "v0:" + ts + ":" + rawBody)
  }

  /** `crypto.timingSafeEqual`: throws on a length mismatch, otherwise compares. */
  function TimingSafeEqual(a: string, b: string): (r: Result<bool, string>)
    ensures r.Failure? <==> |a| != |b|
    ensures r.Success? ==> (r.value <==> a == b)
  {
    if |a| != |b| then Failure("Input buffers must have the same byte length")
    else Success(a == b)
  }

  /**
   * `verifySlackSignature(req, rawBody)`: the signing secret from the environment,
   * the two headers (`None` when absent), the body, the clock in whole seconds and
   * the HMAC digest.  Only the expected signature of a non-stale request passes.
   */
  function VerifySignature(secretEnv: Option<string>, tsHeader: Option<string>, sigHeader: Option<string>,
                           rawBody: string, now: int, hmacHex: (string, string) -> string): (ok: bool)
    ensures ok ==> GetOr(secretEnv, "") != "" && GetOr(tsHeader, "") != "" && GetOr(sigHeader, "") != ""
    ensures ok ==> !Stale(now, GetOr(tsHeader, ""))
    ensures ok ==> GetOr(sigHeader, "") == Expected(GetOr(secretEnv, ""), GetOr(tsHeader, ""), rawBody, hmacHex)
    ensures (GetOr(secretEnv, "") != "" && GetOr(tsHeader, "") != "" && GetOr(sigHeader, "") != "" &&
             !Stale(now, GetOr(tsHeader, "")) &&
             GetOr(sigHeader, "") == Expected(GetOr(secretEnv, ""), GetOr(tsHeader, ""), rawBody, hmacHex)) ==> ok
  {
    var secret := GetOr(secretEnv, "");
    var ts := GetOr(tsHeader, "");
    var sig := GetOr(sigHeader, "");
    if secret == "" then false
    else if ts == "" || sig == "" then false
    else if Stale(now, ts) then false
    else
      match TimingSafeEqual(Expected(secret, ts, rawBody, hmacHex), sig)
      case Failure(_) => false
      case Success(equal) => equal
  }

  /** A request signed with the secret and at most five minutes away from the clock passes, even exactly 300 s away. */
  lemma FreshSignedRequestPasses(secret: string, t: nat, rawBody: string, now: int, hmacHex: (string, string) -> string)
    requires secret != "" && Abs(now - t) <= WindowSeconds
    ensures VerifySignature(Some(secret), Some(NatToString(t)), Some(Expected(secret, NatToString(t), rawBody, hmacHex)),
                            rawBody, now, hmacHex)
  {
    ParseIntDecimal(t);
  }

  /** A timestamp more than five minutes away from the clock fails, whatever the signature. */
  lemma StaleRequestFails(secretEnv: Option<string>, t: nat, sigHeader: Option<string>, rawBody: string, now: int,
                          hmacHex: (string, string) -> string)
    requires Abs(now - t) > WindowSeconds
    ensures !VerifySignature(secretEnv, Some(NatToString(t)), sigHeader, rawBody, now, hmacHex)
  {
    ParseIntDecimal(t);
  }

  /** A missing or empty secret, timestamp or signature fails. */
  lemma MissingPartFails(secretEnv: Option<string>, tsHeader: Option<string>, sigHeader: Option<string>,
                         rawBody: string, now: int, hmacHex: (string, string) -> string)
    requires GetOr(secretEnv, "") == "" || GetOr(tsHeader, "") == "" || GetOr(sigHeader, "") == ""
    ensures !VerifySignature(secretEnv, tsHeader, sigHeader, rawBody, now, hmacHex)
  {
  }

  /** A signature whose length differs from the expected one fails (the comparison throws). */
  lemma LengthMismatchFails(secretEnv: Option<string>, tsHeader: Option<string>, sigHeader: Option<string>,
                            rawBody: string, now: int, hmacHex: (string, string) -> string)
    requires |GetOr(sigHeader, "")| != |Expected(GetOr(secretEnv, ""), GetOr(tsHeader, ""), rawBody, hmacHex)|
    ensures !VerifySignature(secretEnv, tsHeader, sigHeader, rawBody, now, hmacHex)
  {
  }

  /**
   * A timestamp without leading digits (`parseInt` gives `NaN`) is never stale:
   * with a correct signature over it the check passes whatever the clock says.
   */
  lemma NonNumericTimestampSkipsWindow(secret: string, ts: string, rawBody: string, now: int,
                                       hmacHex: (string, string) -> string)
    requires secret != "" && ts != "" && ParseInt(ts) == None
    ensures VerifySignature(Some(secret), Some(ts), Some(Expected(secret, ts, rawBody, hmacHex)), rawBody, now, hmacHex)
  {
  }

  /** `parseInt` skips leading whitespace, reads a sign and stops at the first non-digit. */
  lemma ParseIntExamples()
    ensures ParseInt(" 42s") == Some(42)
    ensures ParseInt("-7") == Some(-7)
    ensures ParseInt("now") == None
  {
    var a := " 42s";
    SkipSpacesAt(a, 0, 1);
    assert DigitRun(a, 1) == 3;
    assert a[1..3] == "42";
    assert DigitsValue("42") == 42 by { assert "42"[..1] == "4"; }
    var b := "-7";
    SkipSpacesAt(b, 0, 0);
    assert DigitRun(b, 1) == 2;
    assert b[1..2] == "7";
    var c := "now";
    SkipSpacesAt(c, 0, 0);
    assert DigitRun(c, 0) == 0;
  }

  // ---------------------------------------------------------------------------
  // slackResolveChannelId and slackFindChannelId
  // ---------------------------------------------------------------------------

  predicate IsIdChar(c: char) { IsUpper(c) || IsDigit(c) }

  /** `/^[CD][A-Z0-9]+$/`: a channel or direct-message id. */
  predicate IsChannelId(s: string) {
    |s| >= 2 && (s[0] == 'C' || s[0] == 'D') && forall i | 1 <= i < |s| :: IsIdChar(s[i])
  }

  /** `replace(/^#/, "").trim()`: drop one leading `#`, then the surrounding whitespace. */
  function NormaliseName(s: string): (r: string)
    ensures r == [] || (!IsSpace(r[0]) && !IsSpace(r[|r| - 1]))
    ensures s != [] && s[0] == '#' ==> r == Trim(s[1..])
    ensures (s == [] || s[0] != '#') ==> r == Trim(s)
  {
    Trim(if s != [] && s[0] == '#' then s[1..] else s)
  }

  /** One element of `channels`: either field may be missing. */
  datatype Channel = Channel(id: Option<string>, name: Option<string>)

  /** The JSON body of one `conversations.list` response. */
  datatype ListPage = ListPage(ok: bool, error: Option<string>, channels: Option<seq<Channel>>, nextCursor: Option<string>)

  /**
   * One `conversations.list` request with the bot token and, when there is one,
   * the cursor; a `Failure` is an error thrown by `fetch` or `res.json()`.
   */
  type Lister = (string, Option<string>) -> Result<ListPage, string>

  /** `(c.name || "").toLowerCase() === name.toLowerCase()`. */
  predicate NameMatches(c: Channel, name: string) {
    Lower(GetOr(c.name, "")) == Lower(name)
  }

  /** `(data.channels || []).find(...)`: the first channel whose name matches. */
  function FirstMatch(cs: seq<Channel>, name: string): (r: Option<nat>)
    ensures r.Some? ==> r.value < |cs| && NameMatches(cs[r.value], name)
    ensures r.Some? ==> forall j | 0 <= j < r.value :: !NameMatches(cs[j], name)
    ensures r.None? ==> forall j | 0 <= j < |cs| :: !NameMatches(cs[j], name)
    decreases |cs|
  {
    if cs == [] then None
    else if NameMatches(cs[0], name) then Some(0)
    else
      match FirstMatch(cs[1..], name)
      case None => None
      case Some(k) => Some(k + 1)
  }

  /** `match?.id` when it is a non-empty string: what the lookup returns from this page. */
  function MatchedId(page: ListPage, name: string): (r: Option<string>)
    ensures r.Some? ==> r.value != ""
  {
    var cs := GetOr(page.channels, []);
    match FirstMatch(cs, name)
    case None => None
    case Some(k) => if cs[k].id.Some? && cs[k].id.value != "" then cs[k].id else None
  }

  /** `data.response_metadata?.next_cursor || undefined`. */
  function NextCursor(page: ListPage): (r: Option<string>)
    ensures r.Some? ==> r.value != ""
  {
    if page.nextCursor.Some? && page.nextCursor.value != "" then page.nextCursor else None
  }

  /** What a lookup returned (or threw), and the cursors of the requests it made, in order. */
  datatype Lookup = Lookup(result: Result<Option<string>, string>, asked: seq<Option<string>>)

  /** The loop of `slackFindChannelId` entered with `cursor`, allowed `pages` more requests. */
  function FindFrom(token: string, name: string, list: Lister, cursor: Option<string>, pages: nat): Lookup
    decreases pages
  {
    if pages == 0 then Lookup(Success(None), [])
    else
      match list(token, cursor)
      case Failure(e) => Lookup(Failure(e), [cursor])
      case Success(page) =>
        if !page.ok then Lookup(Failure(ListFailedPrefix + GetOr(page.error, "undefined")), [cursor])
        else if MatchedId(page, name).Some? then Lookup(Success(MatchedId(page, name)), [cursor])
        else if NextCursor(page).None? then Lookup(Success(None), [cursor])
        else
          var rest := FindFrom(token, name, list, NextCursor(page), pages - 1);
          Lookup(rest.result, [cursor] + rest.asked)
  }

  /** `slackFindChannelId(name)` with the bot token (`""` when unset). */
  function Find(token: string, name: string, list: Lister): Lookup {
    if token == "" then Lookup(Failure(MissingToken), []) else FindFrom(token, name, list, None, MaxPages)
  }

  /** The source's bounded `for` loop, updating `cursor` page by page. */
  method FindChannelId(token: string, name: string, list: Lister) returns (r: Result<Option<string>, string>, asked: seq<Option<string>>)
    ensures Lookup(r, asked) == Find(token, name, list)
  {
    if token == "" {
      return Failure(MissingToken), [];
    }
    var cursor: Option<string> := None;
    asked := [];
    for i := 0 to MaxPages
      invariant Find(token, name, list) == Lookup(FindFrom(token, name, list, cursor, MaxPages - i).result,
                                                  asked + FindFrom(token, name, list, cursor, MaxPages - i).asked)
    {
      var asked' := asked + [cursor];
      var res := list(token, cursor);
      if res.Failure? {
        return Failure(res.error), asked';
      }
      var page := res.value;
      if !page.ok {
        return Failure(ListFailedPrefix + GetOr(page.error, "undefined")), asked';
      }
      var found := MatchedId(page, name);
      if found.Some? {
        return Success(found), asked';
      }
      var next := NextCursor(page);
      FindStep(token, name, list, cursor, MaxPages - i, page, asked, asked');
      asked, cursor := asked', next;
      if next.None? {
        break;
      }
    }
    r := Success(None);
  }

  /** One page that neither matched nor failed: its cursor joins the requests and the lookup goes on from its `next_cursor`. */
  lemma FindStep(token: string, name: string, list: Lister, cursor: Option<string>, pages: nat, page: ListPage,
                 asked: seq<Option<string>>, asked': seq<Option<string>>)
    requires pages > 0 && list(token, cursor) == Success(page) && page.ok && MatchedId(page, name).None?
    requires asked' == asked + [cursor]
    ensures NextCursor(page).None? ==> asked + FindFrom(token, name, list, cursor, pages).asked == asked'
    ensures NextCursor(page).None? ==> FindFrom(token, name, list, cursor, pages).result == Success(None)
    ensures var rest := FindFrom(token, name, list, NextCursor(page), pages - 1);
      NextCursor(page).Some? ==>
        FindFrom(token, name, list, cursor, pages).result == rest.result &&
        asked + FindFrom(token, name, list, cursor, pages).asked == asked' + rest.asked
  {
  }

  /** At most `pages` requests are made. */
  lemma {:induction false} FindFromBounded(token: string, name: string, list: Lister, cursor: Option<string>, pages: nat)
    ensures |FindFrom(token, name, list, cursor, pages).asked| <= pages
    ensures pages > 0 ==> |FindFrom(token, name, list, cursor, pages).asked| >= 1
    ensures pages > 0 ==> FindFrom(token, name, list, cursor, pages).asked[0] == cursor
    ensures forall k | 1 <= k < |FindFrom(token, name, list, cursor, pages).asked| ::
      FindFrom(token, name, list, cursor, pages).asked[k].Some? && FindFrom(token, name, list, cursor, pages).asked[k].value != ""
    decreases pages
  {
    if pages > 0 && list(token, cursor).Success? && list(token, cursor).value.ok {
      var page := list(token, cursor).value;
      if MatchedId(page, name).None? && NextCursor(page).Some? {
        FindFromBounded(token, name, list, NextCursor(page), pages - 1);
      }
    }
  }

  /**
   * The lookup makes at most ten requests; the first carries no cursor and every
   * later one the non-empty `next_cursor` of the page before it.
   */
  lemma AtMostTenRequests(token: string, name: string, list: Lister)
    ensures var l := Find(token, name, list);
      |l.asked| <= MaxPages &&
      (token != "" ==> l.asked != [] && l.asked[0] == None) &&
      forall k | 1 <= k < |l.asked| :: l.asked[k].Some? && l.asked[k].value != ""
  {
    FindFromBounded(token, name, list, None, MaxPages);
  }

  /**
   * An id is found only on the last page requested, as the id of the first channel
   * there whose name equals `name` ignoring case.
   */
  lemma {:induction false} FoundOnLastRequest(token: string, name: string, list: Lister, cursor: Option<string>, pages: nat)
    requires FindFrom(token, name, list, cursor, pages).result.Success?
    requires FindFrom(token, name, list, cursor, pages).result.value.Some?
    ensures var l := FindFrom(token, name, list, cursor, pages);
      l.asked != [] &&
      var res := list(token, l.asked[|l.asked| - 1]);
      res.Success? && res.value.ok &&
      var cs := GetOr(res.value.channels, []);
      FirstMatch(cs, name).Some? &&
      cs[FirstMatch(cs, name).value].id == l.result.value && l.result.value.value != ""
    decreases pages
  {
    var page := list(token, cursor).value;
    if MatchedId(page, name).None? {
      var rest := FindFrom(token, name, list, NextCursor(page), pages - 1);
      FoundOnLastRequest(token, name, list, NextCursor(page), pages - 1);
      assert FindFrom(token, name, list, cursor, pages).asked == [cursor] + rest.asked;
      assert ([cursor] + rest.asked)[|rest.asked|] == rest.asked[|rest.asked| - 1];
    }
  }

  /**
   * Nothing found means every page requested came back `ok` with no usable match,
   * and the lookup stopped because the last page had no cursor or ten pages were read.
   */
  lemma {:induction false} NotFoundMeansNoMatch(token: string, name: string, list: Lister, cursor: Option<string>, pages: nat)
    requires FindFrom(token, name, list, cursor, pages).result == Success(None)
    ensures var l := FindFrom(token, name, list, cursor, pages);
      (forall k | 0 <= k < |l.asked| ::
        list(token, l.asked[k]).Success? && list(token, l.asked[k]).value.ok &&
        MatchedId(list(token, l.asked[k]).value, name).None?) &&
      (|l.asked| == pages || NextCursor(list(token, l.asked[|l.asked| - 1]).value).None?)
    decreases pages
  {
    if pages > 0 {
      var page := list(token, cursor).value;
      if NextCursor(page).Some? {
        var rest := FindFrom(token, name, list, NextCursor(page), pages - 1);
        NotFoundMeansNoMatch(token, name, list, NextCursor(page), pages - 1);
        var l := FindFrom(token, name, list, cursor, pages);
        assert l.asked == [cursor] + rest.asked;
        forall k | 1 <= k < |l.asked|
          ensures l.asked[k] == rest.asked[k - 1]
        {
        }
      }
    }
  }

  /**
   * `slackResolveChannelId(channelOrName)`: an id is returned as it is; otherwise
   * the normalised name is looked up, and a name nobody has is an error naming the
   * original input.
   */
  function ResolveChannelId(channelOrName: string, token: string, list: Lister): Result<string, string> {
    if IsChannelId(channelOrName) then Success(channelOrName)
    else FromLookup(channelOrName, Find(token, NormaliseName(channelOrName), list).result)
  }

  /** `if (!found) throw ...; return found;`, with a thrown lookup error passed on. */
  function FromLookup(channelOrName: string, found: Result<Option<string>, string>): Result<string, string> {
    match found
    case Failure(e) => Failure(e)
    case Success(None) => Failure(NotFoundPrefix + channelOrName)
    case Success(Some(id)) => Success(id)
  }

  /** A name that no page lists is an error quoting the input as given, `#` and spaces included. */
  lemma NotFoundQuotesInput(channelOrName: string, token: string, list: Lister)
    requires !IsChannelId(channelOrName) && Find(token, NormaliseName(channelOrName), list).result == Success(None)
    ensures ResolveChannelId(channelOrName, token, list) == Failure(NotFoundPrefix + channelOrName)
  {
  }

  /** An id needs no token and no request: any two listers give the same answer. */
  lemma IdNeedsNoLookup(channel: string, t1: string, t2: string, l1: Lister, l2: Lister)
    requires IsChannelId(channel)
    ensures ResolveChannelId(channel, t1, l1) == ResolveChannelId(channel, t2, l2) == Success(channel)
  {
  }

  /** `id` belongs to a channel named `name` (ignoring case) on the last page the lookup read. */
  ghost predicate FoundOnLastPage(token: string, name: string, list: Lister, id: string) {
    var l := Find(token, name, list);
    l.asked != [] && list(token, l.asked[|l.asked| - 1]).Success? &&
    var cs := GetOr(list(token, l.asked[|l.asked| - 1]).value.channels, []);
    exists k | 0 <= k < |cs| :: NameMatches(cs[k], name) && cs[k].id == Some(id)
  }

  /**
   * A resolved name is the non-empty id of a channel, on the last page read, whose
   * name equals the input without its leading `#` and surrounding whitespace,
   * ignoring case.
   */
  lemma ResolvedNameMatches(channelOrName: string, token: string, list: Lister, id: string)
    requires !IsChannelId(channelOrName) && ResolveChannelId(channelOrName, token, list) == Success(id)
    ensures id != "" && FoundOnLastPage(token, NormaliseName(channelOrName), list, id)
  {
    var name := NormaliseName(channelOrName);
    FromLookupFound(channelOrName, Find(token, name, list).result, id);
    FoundMatch(token, name, list, id);
  }

  lemma FromLookupFound(channelOrName: string, found: Result<Option<string>, string>, id: string)
    requires FromLookup(channelOrName, found) == Success(id)
    ensures found == Success(Some(id))
  {
  }

  /** What `Find` returns is the non-empty id of a channel named `name` on the last page it read. */
  lemma FoundMatch(token: string, name: string, list: Lister, id: string)
    requires Find(token, name, list).result == Success(Some(id))
    ensures id != "" && FoundOnLastPage(token, name, list, id)
  {
    FoundOnLastRequest(token, name, list, None, MaxPages);
    var l := Find(token, name, list);
    var cs := GetOr(list(token, l.asked[|l.asked| - 1]).value.channels, []);
    var k := FirstMatch(cs, name).value;
    assert NameMatches(cs[k], name);
  }

  /** Examples of the id test: an upper-case `C` or `D`, then upper-case letters and digits. */
  lemma ChannelIdExamples()
    ensures IsChannelId("C0123ABC") && IsChannelId("D42")
    ensures !IsChannelId("general") && !IsChannelId("C") && !IsChannelId("c0123")
  {
  }

  /** Only one leading `#` is removed. */
  lemma NormaliseExample()
    ensures NormaliseName("##dev ") == "#dev"
  {
    var s := "##dev ";
    var t := s[1..];
    assert t == "#dev ";
    assert TrimLeft(t) == t;
    assert t[..4] == "#dev";
    assert TrimRight(t) == TrimRight("#dev");
    assert TrimRight("#dev") == "#dev";
  }
}
