# YouTube RSS video updater — a Dafny model

The script `scripts/update-youtube-videos-rss.py` refreshes a site's list of
recent YouTube videos. It:

1. turns a channel identifier into the channel's RSS feed URL;
2. fetches and parses the feed;
3. drops short-form videos ("Shorts");
4. turns each remaining entry into a record with its id, title, trimmed
   description, date and three derived URLs;
5. keeps the first few records;
6. writes them, with a count, a timestamp and a source tag, to a JSON
   snapshot.

This project models the pure core of that script in Dafny and proves what it
does. The modules are:

- `Wrappers`: the `Option` type.
- `Text`: Python's `startswith`, `in` and `lstrip` on strings.
- `IntParse` and `IntParseFacts`: Python's `int()` applied to a string.
  The parser accepts surrounding ASCII whitespace, one optional sign, and
  digits with single underscores between them. The facts are that it reads
  back what `str()` writes, with or without padding, and that it refuses
  text without a digit. `int()` itself carries no contract. Its properties
  are stated as lemmas, because the classifier unfolds it in many proofs.
- `TagStrip`: the substitution `re.sub('<[^<]+?>', '', s)`, modelled exactly.
  It is a left-to-right scan. At each `<` it looks for the first `>` that
  leaves at least one character between the two and has no `<` before it.
  It is not "delete everything between angle brackets".
- `VideoId`: `re.search(r'watch\?v=([^&]+)', url)`. The result is the
  leftmost `watch?v=` that is followed by a character other than `&`,
  together with the longest `&`-free run after it.
- `Resolver`: the feed URL, either `...videos.xml?channel_id=<id>` or
  `...videos.xml?user=<name>`. The second form strips the leading `@`s.
- `Feed`: a parsed feed entry and the Shorts classifier `is_short_video`,
  proved equal to the disjunction of its four signals.
- `Normalize`: what the loop body does with one entry, and the loop itself.
  The loop is given two ways: a recursive description over the per-entry
  outcomes, and the loop as written, which is proved equal to it.
- `FilterProperties`: what the loop returns, described without the loop.
  That is the emitted records in feed order, cut to the limit. The loop
  raises exactly when a failing entry is reached before the limit.
- `Pipeline`: `get_latest_videos_from_rss`, the snapshot, and `main`. The
  choice of identifier, the limit read from the environment, and the exit
  status are all part of it.

Several behaviours of the code are modelled as written:

- **The limit check follows the append.** A limit below one still lets
  one record through, so the bound is `max(max_results, 1)` (`Cap`).
- **A missing attribute raises.** Three kinds of entry raise:
  - a Short with no title, because its skip notice prints the title;
  - a non-Short with no link;
  - a non-Short whose link holds a video id but that has no title, or has
    neither `published` nor `updated`.

  A Short with no link is skipped without raising. So is a non-Short whose
  link holds no id. The exception is caught by the function's `try`, so the
  whole call returns the empty list.
- **`@UC...` is queried as a user.** The `UC` test runs before the `@`s are
  stripped.
- **The id follows the first usable marker.** It comes after the first
  `watch?v=` that is followed by a non-`&` character, not necessarily the
  first `watch?v=`.

## Model

| member | source | states |
|---|---|---|
| `Text.Contains` | scripts/update-youtube-videos-rss.py:85 | substring test: true exactly when the needle occurs at some position |
| `Text.LStrip` | scripts/update-youtube-videos-rss.py:56 | `lstrip(c)`: the input is a run of `c` followed by the result, and the result does not begin with `c` |
| `Resolver.HandleName` | scripts/update-youtube-videos-rss.py:50-57 | the handle minus every leading `@`: what was removed is only `@`s, and no `@` is left in front |
| `Resolver.QueryOf` | scripts/update-youtube-videos-rss.py:131-138 | a channel-id query exactly when the identifier starts with `UC`, carrying it verbatim; otherwise a user query on the stripped handle |
| `Resolver.FeedUrl` | scripts/update-youtube-videos-rss.py:131-138 | the URL starts with the feed base and reads back to the query chosen for the identifier |
| `Resolver.ParseRender` | scripts/update-youtube-videos-rss.py:131-138 | every feed URL built can be read back to the query it was built from, so the two URL forms never collide |
| `Resolver.ResolvedQuery` | scripts/update-youtube-videos-rss.py:131-138 | stated on the URL itself: a `UC` identifier appears as the `channel_id`; any other appears as the `user` left after removing its leading `@`s |
| `Resolver.MarkedChannelIdIsUser` | scripts/update-youtube-videos-rss.py:133-137 | `@UC...` is resolved as a user name `UC...`, because the `UC` test runs before the strip |
| `VideoId.ExtractVideoId` | scripts/update-youtube-videos-rss.py:60-66 | none exactly when no `watch?v=` is followed by a non-`&` character; otherwise a non-empty, maximal `&`-free run after the leftmost such marker |
| `VideoId.WatchLinkRoundTrip` | scripts/update-youtube-videos-rss.py:60-66 | a watch URL built from an `&`-free id, with any `&`-query after it, yields that id back |
| `IntParse.ParsedEndsInDigit` | scripts/update-youtube-videos-rss.py:105 | whatever `int()` accepts, once trimmed, begins with a digit or a sign and ends with a digit |
| `IntParseFacts.ParseNumeral` | scripts/update-youtube-videos-rss.py:105 | `int()` reads back the numeral `str()` writes for every integer, with no limit on the number of digits |
| `IntParseFacts.ParseFormatted` | scripts/update-youtube-videos-rss.py:105 | the same with whitespace around the numeral |
| `IntParseFacts.NoDigitNoValue` | scripts/update-youtube-videos-rss.py:104-109 | text without a decimal digit never parses, so it contributes no duration |
| `TagStrip.TagEnd` | scripts/update-youtube-videos-rss.py:174 | the lazy `[^<]+?>`: some when a closing `>` follows at least one non-`<` character, and then the first such one |
| `TagStrip.StripTags` | scripts/update-youtube-videos-rss.py:174 | the substitution never lengthens the text |
| `TagStrip.StripOnlyDeletes` | scripts/update-youtube-videos-rss.py:174 | every character of the result comes from the input (multiset inclusion) |
| `TagStrip.NoTagKeepsText` | scripts/update-youtube-videos-rss.py:174 | with no match anywhere, the text is unchanged |
| `TagStrip.TagShortensText` | scripts/update-youtube-videos-rss.py:174 | with a match somewhere, the text gets strictly shorter |
| `TagStrip.StripIsIdentityIffNoTag` | scripts/update-youtube-videos-rss.py:174 | the text is unchanged if and only if the pattern matches nowhere |
| `TagStrip.StripTextThenTag` | scripts/update-youtube-videos-rss.py:174 | `<`-free text before a tag is kept, the tag is removed, and the rest is processed on its own |
| `TagStrip.StripsElement` | scripts/update-youtube-videos-rss.py:174 | `<t>inner</t>` with `<`-free inner text becomes `inner` |
| `Feed.ClassifyShort` | scripts/update-youtube-videos-rss.py:69-111 | the classifier, checks in the source's order with early returns, answers true exactly when at least one of the four signals holds |
| `Feed.UnreadableDurationIgnored` | scripts/update-youtube-videos-rss.py:101-109 | adding a media item whose duration is absent or refused by `int()` never changes the classification |
| `Feed.DurationDecides` | scripts/update-youtube-videos-rss.py:101-111 | an entry with no link, alternate-link or title signal is a Short exactly when some media duration parses to at most 60 |
| `Normalize.Describe` | scripts/update-youtube-videos-rss.py:172-177 | the tag-stripped summary (empty when absent) when at most 200 long; otherwise its first 200 characters plus `...`, 203 in all |
| `Normalize.MakeRecord` | scripts/update-youtube-videos-rss.py:179-187 | the record passes the id, title and date through unchanged; its description is the tag-stripped, truncated summary, at most 203 characters; its three URLs are the thumbnail, embed and share templates of the id, whatever the id; and it is well formed whenever the id is non-empty and `&`-free |
| `Normalize.Process` | scripts/update-youtube-videos-rss.py:156-188 | each outcome of one entry with the exact condition leading to it; an emitted record carries the entry's title, the date from `published` or else `updated`, the id from the link and the id's three URLs |
| `Normalize.ProcessEntry` | scripts/update-youtube-videos-rss.py:156-188 | the loop body as written, with the classifier's early returns in place of the four-signal test, ends with the same outcome as `Process` |
| `Normalize.Gather` | scripts/update-youtube-videos-rss.py:153-192 | the loop's result: at most `max(limit, 1)` records, and records plus skipped Shorts never exceed the entries read |
| `Normalize.FilterEntries` | scripts/update-youtube-videos-rss.py:153-197 | the loop as written, with its `continue`s and `break`, ends with exactly the recursive description's result |
| `FilterProperties.GatherTakesQualifying` | scripts/update-youtube-videos-rss.py:153-192 | a completed loop returns the records of all emitting entries, in feed order, cut to `max(limit, 1)` |
| `FilterProperties.EmitIndices` | scripts/update-youtube-videos-rss.py:156-188 | the positions of the emitting entries, strictly increasing, each carrying the matching record, none missing |
| `FilterProperties.CollectedInFeedOrder` | scripts/update-youtube-videos-rss.py:156-188 | the returned records come from strictly later and later entries, each a non-Short whose link holds the record's id and whose title the record carries |
| `FilterProperties.RaisedIffEarlyFailure` | scripts/update-youtube-videos-rss.py:156-201 | the loop raises if and only if a failing entry comes before the limit is reached |
| `FilterProperties.NoFailureCompletes` | scripts/update-youtube-videos-rss.py:153-197 | a feed with no failing entry always yields a list |
| `FilterProperties.GatherCountsShorts` | scripts/update-youtube-videos-rss.py:154-166 | when the limit is never reached, the Shorts counter equals the number of Shorts; entries without an id are not counted |
| `FilterProperties.LimitReachedIgnoresRest` | scripts/update-youtube-videos-rss.py:188-192 | once the limit is reached, appending any entries to the feed changes nothing: they are neither classified nor counted |
| `FilterProperties.QualifyingWellFormed` | scripts/update-youtube-videos-rss.py:179-187 | records drawn from well-formed outcomes are well formed |
| `FilterProperties.CollectedWellFormed` | scripts/update-youtube-videos-rss.py:179-187 | every returned record has a non-empty `&`-free id, the three URL templates of that id and a description of at most 203 characters |
| `Pipeline.LatestVideos` | scripts/update-youtube-videos-rss.py:131-201 | the feed is fetched at the resolved URL; a fetch error or an early failing entry gives the empty list; otherwise the first `max(limit, 1)` emitted records; always well formed and within the bound |
| `Pipeline.GetLatestVideos` | scripts/update-youtube-videos-rss.py:131-201 | the function as written, with its early return on an empty feed, agrees with that description |
| `Pipeline.ListLength` | scripts/update-youtube-videos-rss.py:188-197 | when nothing fails, the list has as many records as the feed offers, or the limit if fewer |
| `Pipeline.BuildSnapshot` | scripts/update-youtube-videos-rss.py:206-211 | the snapshot holds the list as given, the timestamp, a count equal to the list's length, and the source `rss_feed` |
| `Pipeline.ChooseIdentifier` | scripts/update-youtube-videos-rss.py:230-237 | the channel id when set and non-empty, else the handle when so, else none |
| `Pipeline.DefaultLimit` | scripts/update-youtube-videos-rss.py:41 | the default text `'2'` parses to the limit 2 |
| `Pipeline.LimitSetting` | scripts/update-youtube-videos-rss.py:41 | with no setting the limit is 2; with a setting it is whatever `int()` makes of that text, and none when `int()` refuses it |
| `Pipeline.Run` | scripts/update-youtube-videos-rss.py:223-281 | a refused limit ends the run before `main`; with a limit, no identifier ends it with an error; otherwise a snapshot is saved exactly when the list for the chosen identifier is non-empty, and the run ends with no videos exactly when it is empty; a saved snapshot is consistent, holds 1 to `max(limit, 1)` records, and holds exactly that list |
| `Pipeline.ExitStatus` | scripts/update-youtube-videos-rss.py:248-261 | status 0 exactly when a snapshot was saved, 1 otherwise |
| `Pipeline.ChannelIdTakesPriority` | scripts/update-youtube-videos-rss.py:232-237 | with a channel id set, the handle has no effect on the run |
| `Pipeline.RunSavesFirstVideos` | scripts/update-youtube-videos-rss.py:223-281 | over a feed with no failing entry before the limit is reached and at least one video, the run saves exactly the first `max(limit, 1)` of them |

## Left out

- Fetching and parsing the feed (`feedparser.parse`) is a foreign library
  call. It is the parameter `fetch`, from a URL to parsed entries or an
  exception.
- The entry model drops some of `feedparser`'s own behaviour. Its entries
  are given as already-parsed fields, so key aliasing and date
  normalisation are not modelled. A missing `links` or `media_group`
  behaves as an empty list, as it does in the code.
- Durations are modelled as strings only, so the `TypeError` branch at
  line 108 is left out. `int()` is modelled on ASCII digits and ASCII
  whitespace. Unicode digits and Unicode spaces, which Python also
  accepts, are left out.
- ParseInt: accepts numerals of any length. CPython 3.11 and later (and
  the security releases 3.7.14, 3.8.14, 3.9.14 and 3.10.7) refuse more
  than 4300 digits by default (`sys.get_int_max_str_digits`). The limit
  is configurable at run time and is not modelled. Under it, a duration
  such as `"-" + "1" * 4301` is refused, so the entry stays standard. In
  the model that duration parses to a number below 60, and the entry is a
  Short.
- JSON serialisation, the `mkdir`, and the file write are file I/O. The
  snapshot is the data that would be written.
- `datetime.now().isoformat()` reads the clock. It is the parameter `now`.
- `load_dotenv` and `os.getenv` read the environment. Their values are
  the parameters of `Run`.
- The import-time exit when a dependency is missing is left out.
- Every `print` is left out. That covers the skip notices, the Shorts
  total, the 80-character preview in `main`, and the help text. The one
  exception is the title read at line 160: it can raise, so it is kept.
- Which exception type is raised is not modelled: the `try` catches all
  of them alike.
- `Run` treats a limit that `int()` refuses as an exit with status 1. In
  Python this is an uncaught `ValueError` at import time, and the
  traceback is not modelled.
- `shortsSkipped` is modelled as part of the loop's result. The code only
  prints it.
