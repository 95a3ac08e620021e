/**
 * The YouTube side of the backend: extracting the 11-character video id from a URL,
 * checking the metadata response for a title, and the proxy / language fallback loop
 * that fetches the transcript. The metadata API and the transcript API are parameters.
 */
module YoutubeUtils {
  import opened Wrappers
  import opened Strings

  const IdLength: nat := 11

  /** `[0-9A-Za-z_-]` */
  predicate IsIdChar(c: char) {
    ('0' <= c <= '9') || ('A' <= c <= 'Z') || ('a' <= c <= 'z') || c == '_' || c == '-'
  }

  predicate AllIdChars(s: string) {
    forall i :: 0 <= i < |s| ==> IsIdChar(s[i])
  }

  /** Where the captured group begins when the pattern's prefix `/` or `v=` begins at p. */
  function GroupStart(url: string, p: nat): (start: nat)
    requires p < |url|
  {
    if url[p] == '/' then p + 1 else p + 2
  }

  /** The pattern `(?:v=|\/)([0-9A-Za-z_-]{11})` matches at position p (the trailing `.*` always does). */
  predicate MatchesAt(url: string, p: nat) {
    p < |url|
    && (url[p] == '/' || (url[p] == 'v' && p + 1 < |url| && url[p + 1] == '='))
    && GroupStart(url, p) + IdLength <= |url|
    && AllIdChars(url[GroupStart(url, p) .. GroupStart(url, p) + IdLength])
  }

  /** p is where `re.search` finds its match: the pattern matches there and nowhere earlier. */
  predicate IsFirstMatch(url: string, p: nat) {
    MatchesAt(url, p) && forall q :: 0 <= q < p ==> !MatchesAt(url, q)
  }

  /** `match.group(1)` of a match at p. */
  function GroupAt(url: string, p: nat): (group: string)
    requires MatchesAt(url, p)
  {
    url[GroupStart(url, p) .. GroupStart(url, p) + IdLength]
  }

  /** The scan `re.search` performs: the first position at or after `from` where the pattern matches. */
  function SearchFrom(url: string, from: nat): (r: Option<nat>)
    ensures r.Some? ==> (from <= r.value && MatchesAt(url, r.value)
      && forall q :: from <= q < r.value ==> !MatchesAt(url, q))
    ensures r.None? ==> forall q :: from <= q ==> !MatchesAt(url, q)
    decreases |url| - from
  {
    if from >= |url| then None
    else if MatchesAt(url, from) then Some(from)
    else SearchFrom(url, from + 1)
  }

  /** `get_video_id(url)`: the group of the leftmost match, or None when the pattern matches nowhere. */
  function GetVideoId(url: string): (id: Option<string>)
    ensures id.Some? ==> |id.value| == IdLength && AllIdChars(id.value)
    ensures id.None? <==> forall p :: 0 <= p < |url| ==> !MatchesAt(url, p)
    ensures forall p :: IsFirstMatch(url, p) ==> id == Some(GroupAt(url, p))
  {
    match SearchFrom(url, 0)
    case None => None
    case Some(p) => Some(GroupAt(url, p))
  }

  /** A returned id sits right after `/` or `v=`, at the leftmost place where one can. */
  lemma VideoIdLocated(url: string)
    requires GetVideoId(url).Some?
    ensures exists p: nat :: (IsFirstMatch(url, p) && GetVideoId(url).value == GroupAt(url, p)
      && (url[p] == '/' || url[p .. p + 2] == "v="))
  {
    var p := SearchFrom(url, 0).value;
    assert IsFirstMatch(url, p);
  }

  /** No boundary follows the 11 characters: a longer run of id characters is cut to its first 11. */
  lemma LongerRunIsTruncated()
    ensures GetVideoId("/abcdefghijkLMNOP") == Some("abcdefghijk")
  {
    var url := "/abcdefghijkLMNOP";
    assert url[1 .. 12] == "abcdefghijk";
    assert MatchesAt(url, 0);
    assert IsFirstMatch(url, 0);
  }

  /** A watch URL: the slashes before `watch?v=` are not followed by 11 id characters. */
  lemma WatchUrl()
    ensures GetVideoId("https://www.youtube.com/watch?v=dQw4w9WgXcQ") == Some("dQw4w9WgXcQ")
  {
    var url := "https://www.youtube.com/watch?v=dQw4w9WgXcQ";
    forall q | 0 <= q < 30 ensures !MatchesAt(url, q) {
      if q == 6 {
        assert url[7 .. 18][0] == url[7] == '/';
      } else if q == 7 {
        assert url[8 .. 19][3] == url[11] == '.';
      } else if q == 23 {
        assert url[24 .. 35][5] == url[29] == '?';
      } else {
        assert url[q] != '/' && url[q] != 'v';
      }
    }
    assert url[32 .. 43] == "dQw4w9WgXcQ";
    assert IsFirstMatch(url, 30);
  }

  /** One entry of the metadata response's `items`: `items[i]["snippet"]["title"]`. */
  datatype Item = Item(title: string)

  /** The metadata response: `items` absent (None) or present. */
  datatype TitleResponse = TitleResponse(items: Option<seq<Item>>)

  /** The exceptions `get_video_data` lets escape. */
  datatype VideoError = InvalidUrl | ApiKeyUnset | VideoNotFound(videoId: string)

  /** `not api_key` is false: the variable is set and non-empty. */
  predicate ApiKeySet(apiKey: Option<string>) {
    apiKey.Some? && apiKey.value != ""
  }

  /**
   * `get_video_title(video_id)`. `lookup(id, key)` is the metadata API's response;
   * it is consulted only when the key is set.
   */
  function GetVideoTitle(videoId: string, apiKey: Option<string>, lookup: (string, string) -> TitleResponse)
    : (r: Result<string, VideoError>)
    ensures !ApiKeySet(apiKey) ==> r == Failure(ApiKeyUnset)
    ensures ApiKeySet(apiKey) ==> var items := lookup(videoId, apiKey.value).items;
      (r.Failure? <==> items.None? || items.value == [])
      && (r.Failure? ==> r.error == VideoNotFound(videoId))
      && (r.Success? ==> r.value == items.value[0].title)
  {
    if !ApiKeySet(apiKey) then Failure(ApiKeyUnset)
    else
      var data := lookup(videoId, apiKey.value);
      if data.items.None? || |data.items.value| == 0 then Failure(VideoNotFound(videoId))
      else Success(data.items.value[0].title)
  }

  /**
   * The language request of one `get_transcript` call: `languages=['en']`, or no
   * `languages` argument at all, so the library's default list applies.
   */
  datatype Language = English | DefaultLanguages

  /** One call of `get_transcript`: through proxy number `proxy`, asking for `language`. */
  datatype Attempt = Attempt(proxy: nat, language: Language)

  /** The outside calls `get_video_data` makes, in order. */
  datatype Call = TitleLookup(videoId: string) | TranscriptFetch(videoId: string, attempt: Attempt)

  /** `len(PROXIES)` */
  const ProxyCount: nat := 2
  const NoTranscript := "[No transcript available]"

  /** The order the loop tries: for each proxy, English first, then a call without a language argument. */
  function AttemptOrder(): (order: seq<Attempt>)
    ensures |order| == 2 * ProxyCount
  {
    seq(2 * ProxyCount, j requires 0 <= j < 2 * ProxyCount =>
      Attempt(j / 2, if j % 2 == 0 then English else DefaultLanguages))
  }

  /** `fetch(id, a)`: the segment texts of attempt a, or None when the call or the join of its entries' text raises. */
  type Fetcher = (string, Attempt) -> Option<seq<string>>

  predicate Failed(videoId: string, fetch: Fetcher, j: nat)
    requires j < 2 * ProxyCount
  {
    fetch(videoId, AttemptOrder()[j]).None?
  }

  /** Attempt j is the first in the order that returns segments. */
  predicate IsFirstSuccess(videoId: string, fetch: Fetcher, j: nat) {
    j < 2 * ProxyCount && !Failed(videoId, fetch, j)
    && forall i :: 0 <= i < j ==> Failed(videoId, fetch, i)
  }

  predicate AllFailed(videoId: string, fetch: Fetcher) {
    forall j :: 0 <= j < 2 * ProxyCount ==> Failed(videoId, fetch, j)
  }

  /** The first attempt at or after `from` that succeeds. */
  function FirstSuccess(videoId: string, fetch: Fetcher, from: nat): (r: Option<nat>)
    requires from <= 2 * ProxyCount
    ensures r.Some? ==> (from <= r.value < 2 * ProxyCount && !Failed(videoId, fetch, r.value)
      && forall i :: from <= i < r.value ==> Failed(videoId, fetch, i))
    ensures r.None? ==> forall i :: from <= i < 2 * ProxyCount ==> Failed(videoId, fetch, i)
    decreases 2 * ProxyCount - from
  {
    if from == 2 * ProxyCount then None
    else if !Failed(videoId, fetch, from) then Some(from)
    else FirstSuccess(videoId, fetch, from + 1)
  }

  /** The transcript `get_video_data` returns: the sentinel, or the first success's segments joined. */
  function FetchedTranscript(videoId: string, fetch: Fetcher): (t: string)
    ensures AllFailed(videoId, fetch) ==> t == NoTranscript
    ensures forall j: nat :: IsFirstSuccess(videoId, fetch, j) ==> t == Join(fetch(videoId, AttemptOrder()[j]).value)
  {
    match FirstSuccess(videoId, fetch, 0)
    case None => NoTranscript
    case Some(j) => Join(fetch(videoId, AttemptOrder()[j]).value)
  }

  /** The attempts the loop makes: the order up to and including the first success. */
  function AttemptsMade(videoId: string, fetch: Fetcher): (made: seq<Attempt>)
    ensures 1 <= |made| <= 2 * ProxyCount && made == AttemptOrder()[..|made|]
    ensures forall i :: 0 <= i < |made| - 1 ==> Failed(videoId, fetch, i)
    ensures AllFailed(videoId, fetch) ==> made == AttemptOrder()
    ensures forall j: nat :: IsFirstSuccess(videoId, fetch, j) ==> |made| == j + 1
  {
    match FirstSuccess(videoId, fetch, 0)
    case None => AttemptOrder()
    case Some(j) => AttemptOrder()[..j + 1]
  }

  function FetchCalls(videoId: string, attempts: seq<Attempt>): (calls: seq<Call>) {
    seq(|attempts|, j requires 0 <= j < |attempts| => TranscriptFetch(videoId, attempts[j]))
  }

  lemma FetchCallsAppend(videoId: string, attempts: seq<Attempt>, a: Attempt)
    ensures FetchCalls(videoId, attempts + [a]) == FetchCalls(videoId, attempts) + [TranscriptFetch(videoId, a)]
  {
  }

  /**
   * `get_video_data(url)`. Returns the result (the pair, or the exception raised) and the
   * outside calls made, in order.
   */
  method GetVideoData(url: string, apiKey: Option<string>, lookup: (string, string) -> TitleResponse, fetch: Fetcher)
    returns (r: Result<(string, string), VideoError>, calls: seq<Call>)
    ensures GetVideoId(url).None? ==> r == Failure(InvalidUrl) && calls == []
    ensures GetVideoId(url).Some? ==>
      var id := GetVideoId(url).value;
      match GetVideoTitle(id, apiKey, lookup)
      case Failure(e) => r == Failure(e) && calls == (if ApiKeySet(apiKey) then [TitleLookup(id)] else [])
      case Success(title) => (r == Success((title, FetchedTranscript(id, fetch)))
        && calls == [TitleLookup(id)] + FetchCalls(id, AttemptsMade(id, fetch)))
  {
    calls := [];
    var videoId := GetVideoId(url);
    if videoId.None? {
      return Failure(InvalidUrl), [];
    }
    var id := videoId.value;
    if ApiKeySet(apiKey) {
      calls := [TitleLookup(id)];
    }
    var title := GetVideoTitle(id, apiKey, lookup);
    if title.Failure? {
      return Failure(title.error), calls;
    }
    var transcript := NoTranscript;
    ghost var order := AttemptOrder();
    var p := 0;
    while p < ProxyCount
      invariant 0 <= p <= ProxyCount
      invariant forall j :: 0 <= j < 2 * p ==> Failed(id, fetch, j)
      invariant calls == [TitleLookup(id)] + FetchCalls(id, order[..2 * p])
      invariant transcript == NoTranscript
    {
      var english := Attempt(p, English);
      assert english == order[2 * p];
      FetchCallsAppend(id, order[..2 * p], english);
      assert order[..2 * p + 1] == order[..2 * p] + [english];
      calls := calls + [TranscriptFetch(id, english)];
      var segments := fetch(id, english);
      if segments.Some? {
        transcript := Join(segments.value);
        assert IsFirstSuccess(id, fetch, 2 * p);
        assert AttemptsMade(id, fetch) == order[..2 * p + 1];
        break;
      }
      var fallback := Attempt(p, DefaultLanguages);
      assert fallback == order[2 * p + 1];
      FetchCallsAppend(id, order[..2 * p + 1], fallback);
      assert order[..2 * p + 2] == order[..2 * p + 1] + [fallback];
      calls := calls + [TranscriptFetch(id, fallback)];
      segments := fetch(id, fallback);
      if segments.Some? {
        transcript := Join(segments.value);
        assert IsFirstSuccess(id, fetch, 2 * p + 1);
        assert AttemptsMade(id, fetch) == order[..2 * p + 2];
        break;
      }
      p := p + 1;
    }
    assert transcript == FetchedTranscript(id, fetch);
    assert calls == [TitleLookup(id)] + FetchCalls(id, AttemptsMade(id, fetch));
    r := Success((title.value, transcript));
  }

  /** The sentinel comes back exactly when every attempt failed, or the first transcript's text is the sentinel itself. */
  lemma SentinelIff(videoId: string, fetch: Fetcher)
    ensures FetchedTranscript(videoId, fetch) == NoTranscript <==>
      AllFailed(videoId, fetch)
      || (exists j: nat :: IsFirstSuccess(videoId, fetch, j) && Join(fetch(videoId, AttemptOrder()[j]).value) == NoTranscript)
  {
    match FirstSuccess(videoId, fetch, 0)
    case None =>
    case Some(j) =>
      assert IsFirstSuccess(videoId, fetch, j) && !Failed(videoId, fetch, j);
  }

  /** The call without a language argument is made only right after English failed through the same proxy. */
  lemma FallbackOnlyAfterEnglishFailed(videoId: string, fetch: Fetcher, k: nat)
    requires k < |AttemptsMade(videoId, fetch)| && AttemptsMade(videoId, fetch)[k].language == DefaultLanguages
    ensures var made := AttemptsMade(videoId, fetch);
      k > 0 && made[k - 1] == Attempt(made[k].proxy, English) && fetch(videoId, made[k - 1]).None?
  {
    var made := AttemptsMade(videoId, fetch);
    assert made[k] == AttemptOrder()[k];
    assert k % 2 == 1;
    assert made[k - 1] == AttemptOrder()[k - 1];
  }

  /** An empty segment list is a success: it yields "" and stops the loop, not the sentinel. */
  lemma EmptyTranscriptIsNotSentinel(videoId: string, fetch: Fetcher, j: nat)
    requires IsFirstSuccess(videoId, fetch, j) && fetch(videoId, AttemptOrder()[j]) == Some([])
    ensures FetchedTranscript(videoId, fetch) == "" != NoTranscript
    ensures |AttemptsMade(videoId, fetch)| == j + 1
  {
  }
}
