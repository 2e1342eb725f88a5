/**
 * `extract_video_id_from_url`: `re.search(r'watch\?v=([^&]+)', url)` and its
 * first group. The search takes the leftmost index at which the marker is
 * followed by a character other than `&`; the group is then the whole run of
 * non-`&` characters from there.
 */
module VideoId {
  import opened Wrappers

  const WatchMarker := "watch?v="

  /** The pattern matches at index `i`: the marker, then at least one character other than `&`. */
  predicate MatchAt(url: string, i: int) {
    && 0 <= i
    && i + |WatchMarker| < |url|
    && url[i..i + |WatchMarker|] == WatchMarker
    && url[i + |WatchMarker|] != '&'
  }

  /** `i` is the leftmost index at which the pattern matches. */
  ghost predicate FirstMatch(url: string, i: int) {
    MatchAt(url, i) && forall j :: 0 <= j < i ==> !MatchAt(url, j)
  }

  /** `id` is a maximal `&`-free run of `url` starting at index `start`. */
  ghost predicate RunAt(url: string, start: int, id: string) {
    && 0 <= start
    && start + |id| <= |url|
    && url[start..start + |id|] == id
    && (forall k :: 0 <= k < |id| ==> id[k] != '&')
    && (start + |id| == |url| || url[start + |id|] == '&')
  }

  /** The greedy `[^&]+` group: the longest prefix of `s` with no `&`. */
  function UntilAmpersand(s: string): (r: string)
    ensures |r| <= |s| && r == s[..|r|]
    ensures forall k :: 0 <= k < |r| ==> r[k] != '&'
    ensures |r| == |s| || s[|r|] == '&'
  {
    if s == [] || s[0] == '&' then [] else [s[0]] + UntilAmpersand(s[1..])
  }

  /** The leftmost match at index `k` or later. */
  function FirstMatchFrom(url: string, k: nat): (r: Option<nat>)
    ensures r.Some? ==> k <= r.value && MatchAt(url, r.value)
    ensures r.Some? ==> forall j :: k <= j < r.value ==> !MatchAt(url, j)
    ensures r.None? ==> forall j :: k <= j ==> !MatchAt(url, j)
    decreases |url| - k
  {
    if k + |WatchMarker| >= |url| then None
    else if MatchAt(url, k) then Some(k)
    else FirstMatchFrom(url, k + 1)
  }

  /**
   * The video id of `url`: `None` exactly when the pattern matches nowhere;
   * otherwise the non-empty, `&`-free run that follows the marker at the
   * leftmost match.
   */
  function ExtractVideoId(url: string): (id: Option<string>)
    ensures id.None? <==> forall i :: !MatchAt(url, i)
    ensures id.Some? ==> id.value != []
    ensures id.Some? ==> exists i :: FirstMatch(url, i) && RunAt(url, i + |WatchMarker|, id.value)
  {
    match FirstMatchFrom(url, 0)
    case None => None
    case Some(i) =>
      var start := i + |WatchMarker|;
      var run := UntilAmpersand(url[start..]);
      assert url[start..][0] == url[start];
      assert url[start..start + |run|] == run;
      assert FirstMatch(url, i) && RunAt(url, start, run);
      Some(run)
  }

  const Site := "https://www.youtube.com/"
  const WatchPage := Site + WatchMarker

  /** Before the marker, a watch-page link holds no `a` right after any index, so no match starts there. */
  lemma NoSecondLetterInSite(url: string, j: int)
    requires |WatchPage| <= |url| && url[..|WatchPage|] == WatchPage
    requires 0 <= j < |Site|
    ensures url[j + 1] != WatchMarker[1]
  {
    assert 'a' !in Site;
    if j + 1 < |Site| {
      assert url[j + 1] == Site[j + 1];
    } else {
      assert url[j + 1] == WatchMarker[0];
    }
  }

  /** Two maximal `&`-free runs from the same index are the same run. */
  lemma RunIsUnique(url: string, start: int, a: string, b: string)
    requires RunAt(url, start, a) && RunAt(url, start, b)
    ensures a == b
  {
    assert |a| == |b|;
  }

  /** The id of a link is the run after its first match. */
  lemma ExtractedRun(url: string, i: int, id: string)
    requires FirstMatch(url, i) && RunAt(url, i + |WatchMarker|, id)
    ensures ExtractVideoId(url) == Some(id)
  {
    var r := ExtractVideoId(url).value;
    var i' :| FirstMatch(url, i') && RunAt(url, i' + |WatchMarker|, r);
    assert i' == i;
    RunIsUnique(url, i + |WatchMarker|, r, id);
  }

  /**
   * A watch-page link for `id`, with an optional further query after an `&`,
   * yields `id` back: the id extraction inverts the watch-page link format.
   */
  lemma WatchLinkRoundTrip(id: string, query: string)
    requires id != [] && forall k :: 0 <= k < |id| ==> id[k] != '&'
    requires query == [] || query[0] == '&'
    ensures ExtractVideoId(WatchPage + (id + query)) == Some(id)
  {
    var url := WatchPage + (id + query);
    var i := |Site|;
    var start := |WatchPage|;
    assert url[..start] == WatchPage;
    assert url[i..start] == WatchMarker;
    assert url[start] == id[0];
    forall j | 0 <= j < i
      ensures !MatchAt(url, j)
    {
      NoSecondLetterInSite(url, j);
    }
    assert FirstMatch(url, i);
    assert url[start..start + |id|] == id;
    assert RunAt(url, start, id);
    ExtractedRun(url, i, id);
  }
}
