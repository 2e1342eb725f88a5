/**
 * The feed-URL resolver of `get_latest_videos_from_rss` and the handle
 * normalisation of `get_channel_id_from_username`: an identifier that begins
 * with `UC` is a channel id and is queried as `channel_id`; anything else is
 * taken as a handle, loses its leading `@`s and is queried as `user`.
 */
module Resolver {
  import opened Wrappers
  import opened Text

  const ChannelIdPrefix := "UC"
  const HandleMarker := '@'
  const FeedBase := "https://www.youtube.com/feeds/videos.xml?"
  const ChannelParameter := "channel_id="
  const UserParameter := "user="

  /** Which query the feed URL carries. */
  datatype FeedQuery = ChannelQuery(channelId: string) | UserQuery(user: string)

  /** A handle without its `@` markers: `@name`, `@@name` and `name` all give `name`. */
  function HandleName(username: string): (name: string)
    ensures |name| <= |username|
    ensures username == Repeat(HandleMarker, |username| - |name|) + name
    ensures name == [] || name[0] != HandleMarker
  {
    LStrip(username, HandleMarker)
  }

  /** The query the resolver chooses for an identifier. */
  function QueryOf(identifier: string): (q: FeedQuery)
    ensures q.ChannelQuery? <==> StartsWith(identifier, ChannelIdPrefix)
    ensures q.ChannelQuery? ==> q.channelId == identifier
    ensures q.UserQuery? ==> q.user == HandleName(identifier)
  {
    if StartsWith(identifier, ChannelIdPrefix) then ChannelQuery(identifier)
    else UserQuery(HandleName(identifier))
  }

  function Render(q: FeedQuery): string {
    match q
    case ChannelQuery(id) => FeedBase + ChannelParameter + id
    case UserQuery(name) => FeedBase + UserParameter + name
  }

  /**
   * The feed URL for a channel identifier; the identifier is inserted as it
   * is, without escaping, and the query it encodes reads back off the URL.
   */
  function FeedUrl(identifier: string): (url: string)
    ensures StartsWith(url, FeedBase)
    ensures ParseFeedUrl(url) == Some(QueryOf(identifier))
  {
    ParseRender(QueryOf(identifier));
    Render(QueryOf(identifier))
  }

  /** Reads the query back off a feed URL; `None` for any other text. */
  function ParseFeedUrl(url: string): Option<FeedQuery> {
    if StartsWith(url, FeedBase + ChannelParameter) then Some(ChannelQuery(url[|FeedBase + ChannelParameter|..]))
    else if StartsWith(url, FeedBase + UserParameter) then Some(UserQuery(url[|FeedBase + UserParameter|..]))
    else None
  }

  /** Every feed URL the resolver builds can be read back to the query it was built from. */
  lemma {:induction false} ParseRender(q: FeedQuery)
    ensures ParseFeedUrl(Render(q)) == Some(q)
  {
    var channel := FeedBase + ChannelParameter;
    var user := FeedBase + UserParameter;
    match q
    case ChannelQuery(id) =>
      assert (channel + id)[..|channel|] == channel;
      assert (channel + id)[|channel|..] == id;
    case UserQuery(name) =>
      var url := user + name;
      assert url[|FeedBase|] == 'u';
      assert channel[|FeedBase|] == 'c';
      assert !StartsWith(url, channel) by {
        if |channel| <= |url| {
          assert url[..|channel|][|FeedBase|] == url[|FeedBase|];
        }
      }
      assert url[..|user|] == user;
      assert url[|user|..] == name;
  }

  /**
   * The resolver's two cases, stated on the URL: a `UC` identifier appears
   * verbatim as the channel id; any other identifier appears as the user name
   * left after its leading `@`s, which no longer begins with `@`.
   */
  lemma ResolvedQuery(identifier: string)
    ensures StartsWith(identifier, ChannelIdPrefix) ==>
      ParseFeedUrl(FeedUrl(identifier)) == Some(ChannelQuery(identifier))
    ensures !StartsWith(identifier, ChannelIdPrefix) ==>
      exists name, markers: nat ::
        && ParseFeedUrl(FeedUrl(identifier)) == Some(UserQuery(name))
        && identifier == Repeat(HandleMarker, markers) + name
        && (name == [] || name[0] != HandleMarker)
  {
    ParseRender(QueryOf(identifier));
    if !StartsWith(identifier, ChannelIdPrefix) {
      var name := HandleName(identifier);
      assert ParseFeedUrl(FeedUrl(identifier)) == Some(UserQuery(name));
      assert identifier == Repeat(HandleMarker, |identifier| - |name|) + name;
    }
  }

  /**
   * The `UC` test comes before the `@` is stripped, so a handle written
   * `@UC...` is still queried as a user, never as a channel id.
   */
  lemma MarkedChannelIdIsUser(rest: string)
    ensures QueryOf("@" + ChannelIdPrefix + rest) == UserQuery(ChannelIdPrefix + rest)
  {
    var identifier := "@" + ChannelIdPrefix + rest;
    assert identifier[0] == '@';
    assert identifier[1..] == ChannelIdPrefix + rest;
    assert HandleName(ChannelIdPrefix + rest) == ChannelIdPrefix + rest;
  }
}
