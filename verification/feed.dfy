/**
 * A parsed feed entry and the short-form classifier `is_short_video`. The
 * classifier is an OR of four independent signals, each also defined on its
 * own below; an entry with none of them is a standard video.
 */
module Feed {
  import opened Wrappers
  import opened Text
  import opened IntParse

  /**
   * One entry of the parsed feed. `None` marks an attribute the entry lacks.
   * A missing `links` or `media_group` attribute behaves as an empty list, so
   * both are plain sequences; each alternate link may lack its `href` and each
   * media item its `duration`.
   */
  datatype Entry = Entry(
    link: Option<string>,
    alternateHrefs: seq<Option<string>>,
    title: Option<string>,
    published: Option<string>,
    updated: Option<string>,
    summary: Option<string>,
    durations: seq<Option<string>>)

  /** What the collaborator that fetches and parses the feed produced: its entries, or an exception. */
  datatype FetchResult = Fetched(entries: seq<Entry>) | FetchRaised

  const ShortsMarker := "/shorts/"
  const HashtagPrefix := "#"
  const MaxShortSeconds := 60

  /** A link that points at the short-form player. */
  predicate IsShortsHref(href: Option<string>) {
    href.Some? && Contains(href.value, ShortsMarker)
  }

  /** A duration that `int()` reads as at most a minute; absent or unreadable durations never qualify. */
  predicate IsShortDuration(duration: Option<string>) {
    duration.Some? && ParseInt(duration.value).Some? && ParseInt(duration.value).value <= MaxShortSeconds
  }

  predicate LinkSignal(e: Entry) {
    IsShortsHref(e.link)
  }

  predicate AlternateSignal(e: Entry) {
    exists i :: 0 <= i < |e.alternateHrefs| && IsShortsHref(e.alternateHrefs[i])
  }

  /** The title, or the empty title when there is none, begins with `#`. */
  predicate TitleSignal(e: Entry) {
    StartsWith(e.title.GetOr(""), HashtagPrefix)
  }

  predicate DurationSignal(e: Entry) {
    exists i :: 0 <= i < |e.durations| && IsShortDuration(e.durations[i])
  }

  /** The classification: any one signal suffices. */
  predicate IsShort(e: Entry) {
    LinkSignal(e) || AlternateSignal(e) || TitleSignal(e) || DurationSignal(e)
  }

  /**
   * The classifier as written: the primary link, then each alternate link,
   * then the title, then each media duration, returning at the first hit.
   * Whatever order the checks run in, the answer is the disjunction of the
   * four signals.
   */
  method ClassifyShort(e: Entry) returns (short: bool)
    ensures short <==> IsShort(e)
  {
    if e.link.Some? && Contains(e.link.value, ShortsMarker) {
      return true;
    }
    var i := 0;
    while i < |e.alternateHrefs|
      invariant 0 <= i <= |e.alternateHrefs|
      invariant forall k :: 0 <= k < i ==> !IsShortsHref(e.alternateHrefs[k])
    {
      var href := e.alternateHrefs[i];
      if href.Some? && Contains(href.value, ShortsMarker) {
        return true;
      }
      i := i + 1;
    }
    var title := if e.title.Some? then e.title.value else "";
    if StartsWith(title, HashtagPrefix) {
      return true;
    }
    var j := 0;
    while j < |e.durations|
      invariant 0 <= j <= |e.durations|
      invariant forall k :: 0 <= k < j ==> !IsShortDuration(e.durations[k])
    {
      var duration := e.durations[j];
      if duration.Some? {
        var seconds := ParseInt(duration.value);
        if seconds.Some? && seconds.value <= MaxShortSeconds {
          return true;
        }
      }
      j := j + 1;
    }
    return false;
  }

  /** A media item whose duration is absent or unreadable changes nothing. */
  lemma UnreadableDurationIgnored(e: Entry, duration: Option<string>)
    requires duration.None? || ParseInt(duration.value).None?
    ensures IsShort(e.(durations := e.durations + [duration])) == IsShort(e)
  {
    var e' := e.(durations := e.durations + [duration]);
    if DurationSignal(e') {
      var i :| 0 <= i < |e'.durations| && IsShortDuration(e'.durations[i]);
      assert i < |e.durations| && e.durations[i] == e'.durations[i];
    }
    if DurationSignal(e) {
      var i :| 0 <= i < |e.durations| && IsShortDuration(e.durations[i]);
      assert e'.durations[i] == e.durations[i];
    }
  }

  /**
   * With no link, title or alternate signal, the entry is a standard video
   * exactly when none of its durations reads as a minute or less; one that
   * reads as longer, as every unreadable one, leaves it standard.
   */
  lemma DurationDecides(e: Entry)
    requires !LinkSignal(e) && !AlternateSignal(e) && !TitleSignal(e)
    ensures IsShort(e) <==> exists i :: 0 <= i < |e.durations| && IsShortDuration(e.durations[i])
    ensures (forall i :: 0 <= i < |e.durations| && e.durations[i].Some? && ParseInt(e.durations[i].value).Some? ==>
               ParseInt(e.durations[i].value).value > MaxShortSeconds) ==> !IsShort(e)
  {
  }
}
