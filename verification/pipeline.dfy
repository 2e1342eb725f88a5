/**
 * The script end to end: read the limit and the channel identifier from the
 * environment, fetch the feed at the resolved URL, run the filter loop, and
 * save a snapshot of the records when there is at least one. The fetch and
 * the clock are parameters: `fetch` stands for the feed parser applied to a
 * URL, `now` for the timestamp the snapshot records.
 */
module Pipeline {
  import opened Wrappers
  import opened Text
  import opened IntParse
  import opened IntParseFacts
  import opened Resolver
  import opened Feed
  import opened Normalize
  import opened FilterProperties

  /**
   * `get_latest_videos_from_rss`: fetch the feed for the identifier and run
   * the loop; an exception anywhere inside the `try` yields the empty list.
   * A feed with no entries yields the empty list on either branch of the
   * source's early return.
   */
  function LatestVideos(identifier: string, maxResults: int, fetch: string -> FetchResult): (vs: seq<VideoRecord>)
    ensures |vs| <= Cap(maxResults)
    ensures forall k :: 0 <= k < |vs| ==> WellFormedRecord(vs[k])
    ensures fetch(FeedUrl(identifier)).FetchRaised? ==> vs == []
    ensures fetch(FeedUrl(identifier)).Fetched? ==>
      var es := fetch(FeedUrl(identifier)).entries;
      && (RaisesWithin(Outcomes(es), Cap(maxResults)) ==> vs == [])
      && (!RaisesWithin(Outcomes(es), Cap(maxResults)) ==> vs == Take(Qualifying(Outcomes(es)), Cap(maxResults)))
  {
    match fetch(FeedUrl(identifier))
    case FetchRaised => []
    case Fetched(es) =>
      GatherTakesQualifying(Outcomes(es), maxResults);
      CollectedWellFormed(es, maxResults);
      RaisedIffEarlyFailure(Outcomes(es), maxResults);
      match Collect(es, maxResults)
      case Raised => []
      case Completed(videos, _) => videos
  }

  /**
   * The function as written: resolve the URL, fetch, return early on an
   * empty feed, run the loop, and turn an exception into the empty list.
   */
  method GetLatestVideos(identifier: string, maxResults: int, fetch: string -> FetchResult) returns (vs: seq<VideoRecord>)
    ensures vs == LatestVideos(identifier, maxResults, fetch)
  {
    var query := QueryOf(identifier);
    var name := if query.ChannelQuery? then query.channelId else query.user;
    var feed := fetch(Render(query));
    if feed.FetchRaised? {
      return [];
    }
    if feed.entries == [] && !StartsWith(name, ChannelIdPrefix) {
      return [];
    }
    var collected := FilterEntries(feed.entries, maxResults);
    if collected.Raised? {
      return [];
    }
    return collected.videos;
  }

  /** The number of standard videos the feed offers, whatever the limit: the list is that many, or the limit. */
  lemma ListLength(identifier: string, maxResults: int, fetch: string -> FetchResult)
    requires fetch(FeedUrl(identifier)).Fetched?
    requires !RaisesWithin(Outcomes(fetch(FeedUrl(identifier)).entries), Cap(maxResults))
    ensures var q := Qualifying(Outcomes(fetch(FeedUrl(identifier)).entries));
      |LatestVideos(identifier, maxResults, fetch)| == if |q| < Cap(maxResults) then |q| else Cap(maxResults)
  {
  }

  /** The file written by `save_videos_to_json`. */
  datatype Snapshot = Snapshot(recentVideos: seq<VideoRecord>, lastUpdated: string, totalVideos: int, source: string)

  const SourceTag := "rss_feed"

  /** The count matches the list and the source names the feed. */
  predicate Consistent(s: Snapshot) {
    s.totalVideos == |s.recentVideos| && s.source == SourceTag
  }

  function BuildSnapshot(videos: seq<VideoRecord>, now: string): (s: Snapshot)
    ensures Consistent(s)
    ensures s.recentVideos == videos && s.lastUpdated == now
  {
    Snapshot(videos, now, |videos|, SourceTag)
  }

  /** A setting is used when it is present and not empty, as Python's truth test reads a string. */
  predicate Configured(setting: Option<string>) {
    setting.Some? && setting.value != []
  }

  /** The channel id wins over the handle; with neither configured there is no identifier. */
  function ChooseIdentifier(channelId: Option<string>, username: Option<string>): (r: Option<string>)
    ensures r.Some? <==> Configured(channelId) || Configured(username)
    ensures r.Some? ==> r.value != []
    ensures Configured(channelId) ==> r == channelId
    ensures !Configured(channelId) && Configured(username) ==> r == username
  {
    if Configured(channelId) then channelId
    else if Configured(username) then username
    else None
  }

  const DefaultMaxVideos := 2

  /** The text the script falls back on when the limit is not set. */
  const DefaultLimitText := "2"

  /** The default text reads as the default limit. */
  lemma DefaultLimit()
    ensures ParseInt(DefaultLimitText) == Some(DefaultMaxVideos)
  {
    ParseNumeral(DefaultMaxVideos);
    assert FormatInt(DefaultMaxVideos) == DefaultLimitText;
  }

  /** The limit: the setting read by `int()`, the default when it is absent; `None` when `int()` refuses it. */
  function LimitSetting(setting: Option<string>): (r: Option<int>)
    ensures setting.None? ==> r == Some(DefaultMaxVideos)
    ensures setting.Some? ==> r == ParseInt(setting.value)
  {
    DefaultLimit();
    ParseInt(setting.GetOr(DefaultLimitText))
  }

  /** How a run of the script ends. */
  datatype RunOutcome =
    | BadLimit              // `int()` raises while the module loads
    | MissingIdentifier     // neither setting is configured
    | NoVideos              // the call returned an empty list
    | Saved(snapshot: Snapshot)

  /** `main`, preceded by the module-level read of the limit. */
  function Run(channelId: Option<string>, username: Option<string>, limit: Option<string>,
               fetch: string -> FetchResult, now: string): (r: RunOutcome)
    ensures r.BadLimit? <==> LimitSetting(limit).None?
    ensures r.MissingIdentifier? <==> LimitSetting(limit).Some? && !Configured(channelId) && !Configured(username)
    ensures r.Saved? <==>
      && LimitSetting(limit).Some?
      && ChooseIdentifier(channelId, username).Some?
      && LatestVideos(ChooseIdentifier(channelId, username).value, LimitSetting(limit).value, fetch) != []
    ensures r.NoVideos? <==>
      && LimitSetting(limit).Some?
      && ChooseIdentifier(channelId, username).Some?
      && LatestVideos(ChooseIdentifier(channelId, username).value, LimitSetting(limit).value, fetch) == []
    ensures r.Saved? ==>
      && Consistent(r.snapshot)
      && 1 <= r.snapshot.totalVideos <= Cap(LimitSetting(limit).value)
      && r.snapshot.lastUpdated == now
      && r.snapshot.recentVideos ==
           LatestVideos(ChooseIdentifier(channelId, username).value, LimitSetting(limit).value, fetch)
  {
    match LimitSetting(limit)
    case None => BadLimit
    case Some(maxVideos) =>
      match ChooseIdentifier(channelId, username)
      case None => MissingIdentifier
      case Some(identifier) =>
        var videos := LatestVideos(identifier, maxVideos, fetch);
        if videos == [] then NoVideos else Saved(BuildSnapshot(videos, now))
  }

  /** The process exit status: only a saved snapshot ends with status 0. */
  function ExitStatus(r: RunOutcome): (code: int)
    ensures code == 0 <==> r.Saved?
    ensures code == 0 || code == 1
  {
    if r.Saved? then 0 else 1
  }

  /**
   * With the channel id configured, the handle is never consulted: the run
   * ends the same whatever the handle is.
   */
  lemma ChannelIdTakesPriority(channelId: Option<string>, u1: Option<string>, u2: Option<string>,
                               limit: Option<string>, fetch: string -> FetchResult, now: string)
    requires Configured(channelId)
    ensures Run(channelId, u1, limit, fetch, now) == Run(channelId, u2, limit, fetch, now)
  {
  }

  /**
   * A run over a feed in which no entry fails before the limit is reached
   * saves exactly the first standard videos, up to the limit, when there is
   * at least one.
   */
  lemma RunSavesFirstVideos(channelId: Option<string>, username: Option<string>, limit: Option<string>,
                            fetch: string -> FetchResult, now: string)
    requires LimitSetting(limit).Some? && (Configured(channelId) || Configured(username))
    requires var url := FeedUrl(ChooseIdentifier(channelId, username).value);
      && fetch(url).Fetched?
      && !RaisesWithin(Outcomes(fetch(url).entries), Cap(LimitSetting(limit).value))
      && Qualifying(Outcomes(fetch(url).entries)) != []
    ensures var url := FeedUrl(ChooseIdentifier(channelId, username).value);
      Run(channelId, username, limit, fetch, now) ==
        Saved(BuildSnapshot(Take(Qualifying(Outcomes(fetch(url).entries)), Cap(LimitSetting(limit).value)), now))
  {
    var es := fetch(FeedUrl(ChooseIdentifier(channelId, username).value)).entries;
    var cap := Cap(LimitSetting(limit).value);
    var os := Outcomes(es);
    assert Take(Qualifying(os), cap) != [] by {
      assert |Take(Qualifying(os), cap)| >= 1;
    }
  }
}
