/**
 * What the filter loop returns, described without the loop: the records of
 * the entries that would be emitted, in feed order, cut to the limit; an
 * exception exactly when a failing entry is reached before the limit is; the
 * shorts counted when the loop runs to the end of the feed.
 */
module FilterProperties {
  import opened Wrappers
  import opened Feed
  import opened VideoId
  import opened Normalize

  /** The first `n` elements of `s`, or all of `s` when it is shorter. */
  function Take<T>(s: seq<T>, n: nat): (r: seq<T>)
    ensures |r| <= n && |r| <= |s| && r == s[..|r|]
    ensures |r| == n || r == s
  {
    if |s| <= n then s else s[..n]
  }

  /** The record an outcome contributes, if any. */
  function Offered(o: EntryOutcome): seq<VideoRecord> {
    if o.Emit? then [o.video] else []
  }

  /** The records of every outcome that is one, in feed order, with no limit and no exceptions. */
  function Qualifying(os: seq<EntryOutcome>): seq<VideoRecord> {
    if os == [] then [] else Offered(os[0]) + Qualifying(os[1..])
  }

  /** The number of entries skipped as shorts. */
  function ShortCount(os: seq<EntryOutcome>): nat {
    if os == [] then 0 else (if os[0].SkipShort? then 1 else 0) + ShortCount(os[1..])
  }

  /** Some entry fails before `cap` records have been produced ahead of it. */
  ghost predicate RaisesWithin(os: seq<EntryOutcome>, cap: nat) {
    exists i :: 0 <= i < |os| && os[i].Raise? && |Qualifying(os[..i])| < cap
  }

  lemma TakeCons<T>(v: T, s: seq<T>, n: nat)
    requires n >= 1
    ensures Take([v] + s, n) == [v] + Take(s, n - 1)
  {
    if |s| > n - 1 {
      assert ([v] + s)[..n] == [v] + s[..n - 1];
    }
  }

  lemma PrefixQualifying(os: seq<EntryOutcome>, i: nat)
    requires 1 <= i <= |os|
    ensures Qualifying(os[..i]) == Offered(os[0]) + Qualifying(os[1..][..i - 1])
  {
    assert os[..i][0] == os[0];
    assert os[..i][1..] == os[1..][..i - 1];
  }

  /** The records gathered are the qualifying ones, cut to the limit. */
  lemma {:induction false} GatherTakesQualifying(os: seq<EntryOutcome>, room: int)
    ensures Gather(os, room).Completed? ==> Gather(os, room).videos == Take(Qualifying(os), Cap(room))
  {
    if os != [] {
      var rest := os[1..];
      match os[0] {
        case Raise =>
        case SkipShort =>
          GatherTakesQualifying(rest, room);
        case SkipNoId =>
          GatherTakesQualifying(rest, room);
        case Emit(v) =>
          if room <= 1 {
            TakeCons(v, Qualifying(rest), 1);
          } else {
            GatherTakesQualifying(rest, room - 1);
            TakeCons(v, Qualifying(rest), room);
          }
      }
    }
  }

  /** An outcome that neither fails nor emits moves nothing; one that emits uses up one place. */
  lemma ShiftRaise(os: seq<EntryOutcome>, cap: nat)
    requires os != [] && !os[0].Raise?
    requires cap >= |Offered(os[0])|
    ensures RaisesWithin(os, cap) <==> RaisesWithin(os[1..], cap - |Offered(os[0])|)
  {
    var rest := os[1..];
    var cap' := cap - |Offered(os[0])|;
    if RaisesWithin(rest, cap') {
      var j :| 0 <= j < |rest| && rest[j].Raise? && |Qualifying(rest[..j])| < cap';
      PrefixQualifying(os, j + 1);
      assert os[j + 1] == rest[j];
    }
    if !RaisesWithin(rest, cap') {
      forall i | 0 <= i < |os| && os[i].Raise?
        ensures |Qualifying(os[..i])| >= cap
      {
        PrefixQualifying(os, i);
        assert rest[i - 1] == os[i];
      }
    }
  }

  /**
   * The loop ends in an exception exactly when some entry fails before the
   * limit is reached; failing entries after the break are never read.
   */
  lemma {:induction false} RaisedIffEarlyFailure(os: seq<EntryOutcome>, room: int)
    ensures Gather(os, room).Raised? <==> RaisesWithin(os, Cap(room))
  {
    if os != [] {
      var rest := os[1..];
      match os[0] {
        case Raise =>
          assert os[..0] == [];
        case SkipShort =>
          RaisedIffEarlyFailure(rest, room);
          ShiftRaise(os, Cap(room));
        case SkipNoId =>
          RaisedIffEarlyFailure(rest, room);
          ShiftRaise(os, Cap(room));
        case Emit(v) =>
          ShiftRaise(os, Cap(room));
          if room > 1 {
            RaisedIffEarlyFailure(rest, room - 1);
          }
      }
    }
  }

  /** A feed in which no entry fails always yields a list. */
  lemma NoFailureCompletes(os: seq<EntryOutcome>, room: int)
    requires forall i :: 0 <= i < |os| ==> !os[i].Raise?
    ensures Gather(os, room).Completed?
  {
    RaisedIffEarlyFailure(os, room);
  }

  /** When the limit is never reached, every entry is read and every short is counted. */
  lemma {:induction false} GatherCountsShorts(os: seq<EntryOutcome>, room: int)
    requires |Qualifying(os)| < Cap(room)
    ensures Gather(os, room).Completed? ==> Gather(os, room).shortsSkipped == ShortCount(os)
  {
    if os != [] {
      var rest := os[1..];
      match os[0] {
        case Raise =>
        case SkipShort =>
          GatherCountsShorts(rest, room);
        case SkipNoId =>
          GatherCountsShorts(rest, room);
        case Emit(v) =>
          GatherCountsShorts(rest, room - 1);
      }
    }
  }

  /** Once the limit is reached, whatever follows in the feed is never read. */
  lemma {:induction false} LimitReachedIgnoresRest(os: seq<EntryOutcome>, more: seq<EntryOutcome>, room: int)
    requires Gather(os, room).Completed? && |Gather(os, room).videos| == Cap(room)
    ensures Gather(os + more, room) == Gather(os, room)
  {
    var all := os + more;
    assert all[0] == os[0];
    assert all[1..] == os[1..] + more;
    match os[0] {
      case Raise =>
      case SkipShort =>
        LimitReachedIgnoresRest(os[1..], more, room);
      case SkipNoId =>
        LimitReachedIgnoresRest(os[1..], more, room);
      case Emit(v) =>
        if room > 1 {
          LimitReachedIgnoresRest(os[1..], more, room - 1);
        }
    }
  }

  /** Records drawn from well-formed outcomes are well formed. */
  lemma {:induction false} QualifyingWellFormed(os: seq<EntryOutcome>)
    requires forall i :: 0 <= i < |os| && os[i].Emit? ==> WellFormedRecord(os[i].video)
    ensures forall k :: 0 <= k < |Qualifying(os)| ==> WellFormedRecord(Qualifying(os)[k])
  {
    if os != [] {
      assert forall i :: 0 <= i < |os| - 1 ==> os[1..][i] == os[i + 1];
      QualifyingWellFormed(os[1..]);
    }
  }

  /** Every record the loop returns from a feed is well formed. */
  lemma CollectedWellFormed(es: seq<Entry>, room: int)
    ensures Collect(es, room).Completed? ==>
      forall k :: 0 <= k < |Collect(es, room).videos| ==> WellFormedRecord(Collect(es, room).videos[k])
  {
    var os := Outcomes(es);
    assert forall i :: 0 <= i < |os| && os[i].Emit? ==> WellFormedRecord(os[i].video);
    GatherTakesQualifying(os, room);
    QualifyingWellFormed(os);
  }

  function Shift(idx: seq<nat>): (r: seq<nat>)
    ensures |r| == |idx| && forall k :: 0 <= k < |idx| ==> r[k] == idx[k] + 1
  {
    seq(|idx|, k requires 0 <= k < |idx| => idx[k] + 1)
  }

  /**
   * `idx` lists the positions of the emitting outcomes in increasing order:
   * the `k`th qualifying record is the one the outcome at `idx[k]` carries,
   * and every emitting position is listed.
   */
  ghost predicate ListsEmits(os: seq<EntryOutcome>, idx: seq<nat>) {
    && |idx| == |Qualifying(os)|
    && (forall k :: 0 <= k < |idx| ==> idx[k] < |os| && os[idx[k]] == Emit(Qualifying(os)[k]))
    && (forall k, l :: 0 <= k < l < |idx| ==> idx[k] < idx[l])
    && (forall i :: 0 <= i < |os| && os[i].Emit? ==> i in idx)
  }

  /** The positions after the first, moved one place on, for the tail of `os`. */
  lemma ShiftedEmits(os: seq<EntryOutcome>, tail: seq<nat>)
    requires os != [] && ListsEmits(os[1..], tail)
    ensures |Shift(tail)| == |Qualifying(os[1..])|
    ensures forall k :: 0 <= k < |tail| ==>
      1 <= Shift(tail)[k] < |os| && os[Shift(tail)[k]] == Emit(Qualifying(os[1..])[k])
    ensures forall k, l :: 0 <= k < l < |tail| ==> Shift(tail)[k] < Shift(tail)[l]
    ensures forall i :: 1 <= i < |os| && os[i].Emit? ==> i in Shift(tail)
  {
    var rest := os[1..];
    var shifted := Shift(tail);
    forall k | 0 <= k < |tail|
      ensures os[shifted[k]] == rest[tail[k]]
    {
    }
    forall i | 1 <= i < |os| && os[i].Emit?
      ensures i in shifted
    {
      assert rest[i - 1] == os[i];
      var k :| 0 <= k < |tail| && tail[k] == i - 1;
      assert shifted[k] == i;
    }
  }

  lemma ListsEmitsStep(os: seq<EntryOutcome>, tail: seq<nat>)
    requires os != [] && ListsEmits(os[1..], tail)
    ensures os[0].Emit? ==> ListsEmits(os, [0] + Shift(tail))
    ensures !os[0].Emit? ==> ListsEmits(os, Shift(tail))
  {
    ShiftedEmits(os, tail);
    if os[0].Emit? {
      EmitAtHead(os, Shift(tail));
    } else {
      NoEmitAtHead(os, Shift(tail));
    }
  }

  lemma NoEmitAtHead(os: seq<EntryOutcome>, shifted: seq<nat>)
    requires os != [] && !os[0].Emit?
    requires |shifted| == |Qualifying(os[1..])|
    requires forall k :: 0 <= k < |shifted| ==>
      1 <= shifted[k] < |os| && os[shifted[k]] == Emit(Qualifying(os[1..])[k])
    requires forall k, l :: 0 <= k < l < |shifted| ==> shifted[k] < shifted[l]
    requires forall i :: 1 <= i < |os| && os[i].Emit? ==> i in shifted
    ensures ListsEmits(os, shifted)
  {
    assert Qualifying(os) == Qualifying(os[1..]);
  }

  lemma EmitAtHead(os: seq<EntryOutcome>, shifted: seq<nat>)
    requires os != [] && os[0].Emit?
    requires |shifted| == |Qualifying(os[1..])|
    requires forall k :: 0 <= k < |shifted| ==>
      1 <= shifted[k] < |os| && os[shifted[k]] == Emit(Qualifying(os[1..])[k])
    requires forall k, l :: 0 <= k < l < |shifted| ==> shifted[k] < shifted[l]
    requires forall i :: 1 <= i < |os| && os[i].Emit? ==> i in shifted
    ensures ListsEmits(os, [0] + shifted)
  {
    assert Qualifying(os) == [os[0].video] + Qualifying(os[1..]);
    HeadRecords(os, shifted);
    HeadOrdered(shifted);
    HeadCovers(os, shifted);
  }

  /** With the head in front, the positions still pick out the records in order. */
  lemma HeadRecords(os: seq<EntryOutcome>, shifted: seq<nat>)
    requires os != [] && os[0].Emit?
    requires |shifted| == |Qualifying(os[1..])|
    requires forall k :: 0 <= k < |shifted| ==>
      1 <= shifted[k] < |os| && os[shifted[k]] == Emit(Qualifying(os[1..])[k])
    ensures var r, q := [0] + shifted, [os[0].video] + Qualifying(os[1..]);
      |r| == |q| && forall k :: 0 <= k < |r| ==> r[k] < |os| && os[r[k]] == Emit(q[k])
  {
    var r, q := [0] + shifted, [os[0].video] + Qualifying(os[1..]);
    forall k | 0 <= k < |r|
      ensures r[k] < |os| && os[r[k]] == Emit(q[k])
    {
      if k > 0 {
        assert r[k] == shifted[k - 1] && q[k] == Qualifying(os[1..])[k - 1];
      }
    }
  }

  /** Positions that are all at least 1 and increasing stay increasing with 0 in front. */
  lemma HeadOrdered(shifted: seq<nat>)
    requires forall k :: 0 <= k < |shifted| ==> 1 <= shifted[k]
    requires forall k, l :: 0 <= k < l < |shifted| ==> shifted[k] < shifted[l]
    ensures var r := [0] + shifted; forall k, l :: 0 <= k < l < |r| ==> r[k] < r[l]
  {
    var r := [0] + shifted;
    forall k, l | 0 <= k < l < |r|
      ensures r[k] < r[l]
    {
      assert r[l] == shifted[l - 1];
      if k > 0 {
        assert r[k] == shifted[k - 1];
      }
    }
  }

  /** Every emitting position is listed once 0 is put in front of the later ones. */
  lemma HeadCovers(os: seq<EntryOutcome>, shifted: seq<nat>)
    requires forall i :: 1 <= i < |os| && os[i].Emit? ==> i in shifted
    ensures forall i :: 0 <= i < |os| && os[i].Emit? ==> i in [0] + shifted
  {
    var r := [0] + shifted;
    forall i | 0 <= i < |os| && os[i].Emit?
      ensures i in r
    {
      if i > 0 {
        var k :| 0 <= k < |shifted| && shifted[k] == i;
        assert r[k + 1] == i;
      }
    }
  }

  /** The positions of the emitting outcomes, in increasing order. */
  function EmitIndices(os: seq<EntryOutcome>): (idx: seq<nat>)
    ensures ListsEmits(os, idx)
  {
    if os == [] then []
    else
      var tail := EmitIndices(os[1..]);
      ListsEmitsStep(os, tail);
      if os[0].Emit? then [0] + Shift(tail) else Shift(tail)
  }

  /**
   * The records returned follow feed order: the `k`th comes from an entry
   * earlier than the `k+1`th, and from an entry that is not a short, whose
   * link holds its id and whose title it carries.
   */
  lemma CollectedInFeedOrder(es: seq<Entry>, room: int)
    ensures Collect(es, room).Completed? ==>
      var videos := Collect(es, room).videos;
      var idx := EmitIndices(Outcomes(es));
      && |videos| <= |idx|
      && (forall k, l :: 0 <= k < l < |videos| ==> idx[k] < idx[l])
      && forall k :: 0 <= k < |videos| ==>
           && idx[k] < |es|
           && Process(es[idx[k]]) == Emit(videos[k])
           && !IsShort(es[idx[k]])
           && es[idx[k]].link.Some?
           && ExtractVideoId(es[idx[k]].link.value) == Some(videos[k].id)
           && es[idx[k]].title == Some(videos[k].title)
  {
    var os := Outcomes(es);
    GatherTakesQualifying(os, room);
    var idx := EmitIndices(os);
    forall k | 0 <= k < |idx|
      ensures Process(es[idx[k]]) == Emit(Qualifying(os)[k])
      ensures !IsShort(es[idx[k]]) && es[idx[k]].link.Some?
      ensures ExtractVideoId(es[idx[k]].link.value) == Some(Qualifying(os)[k].id)
      ensures es[idx[k]].title == Some(Qualifying(os)[k].title)
    {
      assert os[idx[k]] == Process(es[idx[k]]);
    }
  }
}
