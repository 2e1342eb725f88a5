/**
 * The filter/normaliser loop of `get_latest_videos_from_rss`: entries are
 * taken in feed order; shorts are skipped and counted; entries without a
 * video id are dropped silently; every other entry becomes a record, and the
 * loop stops once the list reaches the requested size. An attribute read on
 * an entry that lacks it raises, and the enclosing `try` turns that into an
 * empty result; here that is `Raised`.
 */
module Normalize {
  import opened Wrappers
  import opened TagStrip
  import opened VideoId
  import opened Feed

  /** The record kept for one standard video. */
  datatype VideoRecord = VideoRecord(
    id: string,
    title: string,
    description: string,
    publishedAt: string,
    thumbnail: string,
    embedUrl: string,
    watchUrl: string)

  const MaxDescription := 200
  const Ellipsis := "..."

  function ThumbnailUrl(id: string): string {
    "https://i.ytimg.com/vi/" + id + "/hqdefault.jpg"
  }

  function EmbedUrl(id: string): string {
    "https://www.youtube.com/embed/" + id
  }

  function ShareUrl(id: string): string {
    "https://youtu.be/" + id
  }

  /**
   * The description: the summary (empty when absent) with its tags removed,
   * cut to its first 200 characters plus an ellipsis when longer than that.
   * A result longer than 200 characters is always such a cut one.
   */
  function Describe(summary: Option<string>): (d: string)
    ensures var text := StripTags(summary.GetOr(""));
      && |d| <= MaxDescription + |Ellipsis|
      && (|d| > MaxDescription <==> |text| > MaxDescription)
      && (|d| <= MaxDescription ==> d == text)
      && (|d| > MaxDescription ==> |d| == MaxDescription + |Ellipsis| && d[..MaxDescription] == text[..MaxDescription] && d[MaxDescription..] == Ellipsis)
  {
    var text := StripTags(summary.GetOr(""));
    if |text| > MaxDescription then text[..MaxDescription] + Ellipsis else text
  }

  /** The fields of a record that follow from its id, and the id's own shape. */
  predicate WellFormedRecord(v: VideoRecord) {
    && v.id != []
    && (forall k :: 0 <= k < |v.id| ==> v.id[k] != '&')
    && v.thumbnail == ThumbnailUrl(v.id)
    && v.embedUrl == EmbedUrl(v.id)
    && v.watchUrl == ShareUrl(v.id)
    && |v.description| <= MaxDescription + |Ellipsis|
  }

  /**
   * The record built from one entry: id, title and date are passed through
   * as they are, the description is the cleaned summary, the three URLs are
   * those of the id, and a well-formed id gives a well-formed record.
   */
  function MakeRecord(id: string, title: string, summary: Option<string>, publishedAt: string): (v: VideoRecord)
    ensures v.id == id && v.title == title && v.publishedAt == publishedAt
    ensures v.description == Describe(summary)
    ensures v.thumbnail == ThumbnailUrl(id) && v.embedUrl == EmbedUrl(id) && v.watchUrl == ShareUrl(id)
    ensures |v.description| <= MaxDescription + |Ellipsis|
    ensures id != [] && (forall k :: 0 <= k < |id| ==> id[k] != '&') ==> WellFormedRecord(v)
  {
    VideoRecord(id, title, Describe(summary), publishedAt, ThumbnailUrl(id), EmbedUrl(id), ShareUrl(id))
  }

  /** What the loop does with one entry. */
  datatype EntryOutcome = SkipShort | SkipNoId | Emit(video: VideoRecord) | Raise

  /**
   * One pass of the loop body, with the condition that leads to each
   * outcome. A short is skipped, but the skip notice reads its title, so a
   * short without a title raises. A standard entry must have a link; without
   * a video id in it the entry is dropped; otherwise it needs `published` or
   * else `updated`, and a title. An emitted record carries the entry's title
   * and date and the id's URLs.
   */
  function Process(e: Entry): (o: EntryOutcome)
    ensures o.SkipShort? <==> IsShort(e) && e.title.Some?
    ensures o.SkipNoId? <==> !IsShort(e) && e.link.Some? && ExtractVideoId(e.link.value).None?
    ensures o.Raise? <==>
      || (IsShort(e) && e.title.None?)
      || (!IsShort(e) && e.link.None?)
      || (!IsShort(e) && e.link.Some? && ExtractVideoId(e.link.value).Some? &&
          (e.title.None? || (e.published.None? && e.updated.None?)))
    ensures o.Emit? ==>
      && !IsShort(e)
      && e.link.Some? && ExtractVideoId(e.link.value) == Some(o.video.id)
      && e.title == Some(o.video.title)
      && o.video.publishedAt == (if e.published.Some? then e.published.value else e.updated.value)
      && o.video.description == Describe(e.summary)
      && WellFormedRecord(o.video)
  {
    if IsShort(e) then
      if e.title.None? then Raise else SkipShort
    else if e.link.None? then Raise
    else match ExtractVideoId(e.link.value)
      case None => SkipNoId
      case Some(id) =>
        if e.published.None? && e.updated.None? then Raise
        else if e.title.None? then Raise
        else
          var publishedAt := if e.published.Some? then e.published.value else e.updated.value;
          Emit(MakeRecord(id, e.title.value, e.summary, publishedAt))
  }

  /** The most records one call returns: the size check follows the append, so a limit below one still lets one record through. */
  function Cap(maxResults: int): nat {
    if maxResults < 1 then 1 else maxResults
  }

  /** What the loop ends with: the records and the number of shorts skipped, or an exception. */
  datatype Collected = Completed(videos: seq<VideoRecord>, shortsSkipped: nat) | Raised

  /** What the loop body does with each entry, in feed order. */
  function Outcomes(es: seq<Entry>): (os: seq<EntryOutcome>)
    ensures |os| == |es|
    ensures forall i :: 0 <= i < |es| ==> os[i] == Process(es[i])
  {
    seq(|es|, i requires 0 <= i < |es| => Process(es[i]))
  }

  /**
   * The loop over the outcomes `os` when `room` more records may still be
   * appended before the size check stops it.
   */
  function Gather(os: seq<EntryOutcome>, room: int): (r: Collected)
    ensures r.Completed? ==> |r.videos| <= Cap(room)
    ensures r.Completed? ==> |r.videos| + r.shortsSkipped <= |os|
  {
    if os == [] then Completed([], 0)
    else match os[0]
      case Raise => Raised
      case SkipShort =>
        (match Gather(os[1..], room)
         case Raised => Raised
         case Completed(vs, n) => Completed(vs, n + 1))
      case SkipNoId => Gather(os[1..], room)
      case Emit(v) =>
        if room <= 1 then Completed([v], 0)
        else
          match Gather(os[1..], room - 1)
          case Raised => Raised
          case Completed(vs, n) => Completed([v] + vs, n)
  }

  /** The loop over the entries `es`. */
  function Collect(es: seq<Entry>, room: int): Collected {
    Gather(Outcomes(es), room)
  }

  /** The loop's state so far, followed by what the rest of the loop collects. */
  function Absorb(videos: seq<VideoRecord>, skipped: nat, rest: Collected): Collected {
    match rest
    case Raised => Raised
    case Completed(more, n) => Completed(videos + more, skipped + n)
  }

  lemma AbsorbNothing(rest: Collected)
    ensures Absorb([], 0, rest) == rest
  {
    match rest {
      case Raised =>
      case Completed(more, k) => assert [] + more == more;
    }
  }

  lemma AbsorbTwice(a: seq<VideoRecord>, n: nat, b: seq<VideoRecord>, m: nat, rest: Collected)
    ensures Absorb(a, n, Absorb(b, m, rest)) == Absorb(a + b, n + m, rest)
  {
    match rest {
      case Raised =>
      case Completed(more, k) => assert a + (b + more) == (a + b) + more;
    }
  }

  /**
   * The loop body as written: classify, read the link, extract the id, pick
   * the date, build the record. Each early exit of the source is a branch.
   */
  method ProcessEntry(e: Entry) returns (o: EntryOutcome)
    ensures o == Process(e)
  {
    var short := ClassifyShort(e);
    if short {
      if e.title.None? {
        return Raise;
      }
      return SkipShort;
    }
    if e.link.None? {
      return Raise;
    }
    var id := ExtractVideoId(e.link.value);
    if id.None? {
      return SkipNoId;
    }
    if e.published.None? && e.updated.None? {
      return Raise;
    }
    var publishedAt := if e.published.Some? then e.published.value else e.updated.value;
    if e.title.None? {
      return Raise;
    }
    return Emit(MakeRecord(id.value, e.title.value, e.summary, publishedAt));
  }

  /** What the loop has gathered so far, with the outcomes still to come, adds up to the whole. */
  ghost predicate Gathered(os: seq<EntryOutcome>, maxResults: int, i: nat, videos: seq<VideoRecord>, skipped: nat)
    requires i <= |os|
  {
    Gather(os, maxResults) == Absorb(videos, skipped, Gather(os[i..], maxResults - |videos|))
  }

  lemma RaiseStep(os: seq<EntryOutcome>, maxResults: int, i: nat, videos: seq<VideoRecord>, skipped: nat)
    requires i < |os| && Gathered(os, maxResults, i, videos, skipped)
    requires os[i].Raise?
    ensures Gather(os, maxResults) == Raised
  {
    assert os[i..][0] == os[i];
  }

  lemma ShortStep(os: seq<EntryOutcome>, maxResults: int, i: nat, videos: seq<VideoRecord>, skipped: nat)
    requires i < |os| && Gathered(os, maxResults, i, videos, skipped)
    requires os[i].SkipShort?
    ensures Gathered(os, maxResults, i + 1, videos, skipped + 1)
  {
    var room := maxResults - |videos|;
    assert os[i..][0] == os[i];
    assert os[i..][1..] == os[i + 1..];
    AbsorbTwice(videos, skipped, [], 1, Gather(os[i + 1..], room));
    assert videos + [] == videos;
  }

  lemma NoIdStep(os: seq<EntryOutcome>, maxResults: int, i: nat, videos: seq<VideoRecord>, skipped: nat)
    requires i < |os| && Gathered(os, maxResults, i, videos, skipped)
    requires os[i].SkipNoId?
    ensures Gathered(os, maxResults, i + 1, videos, skipped)
  {
    assert os[i..][0] == os[i];
    assert os[i..][1..] == os[i + 1..];
  }

  lemma EmitStep(os: seq<EntryOutcome>, maxResults: int, i: nat, videos: seq<VideoRecord>, skipped: nat)
    requires i < |os| && Gathered(os, maxResults, i, videos, skipped)
    requires os[i].Emit?
    ensures |videos| + 1 >= maxResults ==> Gather(os, maxResults) == Completed(videos + [os[i].video], skipped)
    ensures |videos| + 1 < maxResults ==> Gathered(os, maxResults, i + 1, videos + [os[i].video], skipped)
  {
    var room := maxResults - |videos|;
    var v := os[i].video;
    assert os[i..][0] == os[i];
    assert os[i..][1..] == os[i + 1..];
    AbsorbTwice(videos, skipped, [v], 0, Gather(os[i + 1..], room - 1));
    if room <= 1 {
      assert videos + [v] == videos + [v] + [];
    }
  }

  /**
   * The loop as written, with its list and counter, its `continue`s and its
   * `break`; it ends as the recursive description says.
   */
  method FilterEntries(entries: seq<Entry>, maxResults: int) returns (r: Collected)
    ensures r == Collect(entries, maxResults)
  {
    ghost var os := Outcomes(entries);
    var videos: seq<VideoRecord> := [];
    var skipped: nat := 0;
    var i: nat := 0;
    assert os[0..] == os;
    AbsorbNothing(Gather(os, maxResults));
    while i < |entries|
      invariant i <= |entries|
      invariant Gathered(os, maxResults, i, videos, skipped)
    {
      var outcome := ProcessEntry(entries[i]);
      match outcome {
        case Raise =>
          RaiseStep(os, maxResults, i, videos, skipped);
          return Raised;
        case SkipShort =>
          ShortStep(os, maxResults, i, videos, skipped);
          skipped := skipped + 1;
        case SkipNoId =>
          NoIdStep(os, maxResults, i, videos, skipped);
        case Emit(v) =>
          EmitStep(os, maxResults, i, videos, skipped);
          videos := videos + [v];
          if |videos| >= maxResults {
            return Completed(videos, skipped);
          }
      }
      i := i + 1;
    }
    assert os[i..] == [];
    assert videos + [] == videos;
    return Completed(videos, skipped);
  }
}
