/** The live update of App.tsx (`fetchLiveUpdates`): the push events of the
    activity feed that are newer than the snapshot are folded into the
    snapshot's history and commit total, and the snapshot time advances when
    anything was applied.

    The fetch itself is not modelled: the feed is given as `None` when the
    request failed, was not ok, or did not yield an array, and as the list of
    already-parsed events otherwise. The merge time ("now") is a parameter. */
module LiveMerge {
  import opened Types
  import opened Ledger

  /** An event is counted only if it is a push strictly newer than the snapshot. */
  predicate Counted(e: FeedEvent, lastUpdated: int)
  {
    e.time > lastUpdated && e.kind == PushEvent
  }

  /** The commits the counted events of `events` contribute. */
  function NewCommits(events: seq<FeedEvent>, lastUpdated: int): nat
  {
    if |events| == 0 then 0
    else
      var e := events[|events| - 1];
      NewCommits(events[..|events| - 1], lastUpdated) + (if Counted(e, lastUpdated) then CommitCount(e) else 0)
  }

  /** Adds `c` to the day `key` of the history: the first entry with that
      date grows, or a new entry is appended when there is none. */
  function AddToDay(history: seq<ContributionDay>, key: string, c: int): (h: seq<ContributionDay>)
    ensures FindDay(history, key).Some? ==> |h| == |history|
    ensures FindDay(history, key).None? ==> h == history + [ContributionDay(key, c)]
  {
    match FindDay(history, key)
    case Some(i) => history[i := history[i].(count := history[i].count + c)]
    case None => history + [ContributionDay(key, c)]
  }

  /** The history after the counted events of `events`, in order. */
  function ApplyEvents(history: seq<ContributionDay>, events: seq<FeedEvent>, lastUpdated: int): seq<ContributionDay>
  {
    if |events| == 0 then history
    else
      var e := events[|events| - 1];
      var h := ApplyEvents(history, events[..|events| - 1], lastUpdated);
      if Counted(e, lastUpdated) then AddToDay(h, DatePrefix(e.createdAt), CommitCount(e)) else h
  }

  /** The stats after a live update with feed `feed` at time `now`. */
  function Merged(stats: GithubStats, feed: Option<seq<FeedEvent>>, now: int): GithubStats
  {
    match feed
    case None => stats
    case Some(events) =>
      var n := NewCommits(events, stats.lastUpdated);
      if n > 0 then
        stats.(totalCommits := stats.totalCommits + n,
               history := ApplyEvents(stats.history, events, stats.lastUpdated),
               lastUpdated := now)
      else stats
  }

  /** `fetchLiveUpdates` after the response has been read: one pass over the
      events accumulating `newCommits` and updating a copy of the history,
      then the new stats if anything was counted. */
  method FetchLiveUpdates(stats: GithubStats, feed: Option<seq<FeedEvent>>, now: int)
    returns (updated: GithubStats)
    ensures updated == Merged(stats, feed, now)
  {
    updated := stats;
    if feed.None? {
      return;
    }
    var events := feed.value;
    var lastUpdatedTime := stats.lastUpdated;
    var newCommits := 0;
    var newHistory := stats.history;
    for i := 0 to |events|
      invariant newCommits == NewCommits(events[..i], lastUpdatedTime)
      invariant newHistory == ApplyEvents(stats.history, events[..i], lastUpdatedTime)
    {
      assert events[..i + 1][..i] == events[..i];
      var event := events[i];
      if event.time > lastUpdatedTime && event.kind == PushEvent {
        var commitCount := CommitCount(event);
        newCommits := newCommits + commitCount;
        var dateStr := DatePrefix(event.createdAt);
        var existingDay := FindDay(newHistory, dateStr);
        if existingDay.Some? {
          var j := existingDay.value;
          newHistory := newHistory[j := newHistory[j].(count := newHistory[j].count + commitCount)];
        } else {
          newHistory := newHistory + [ContributionDay(dateStr, commitCount)];
        }
      }
    }
    assert events[..|events|] == events;
    if newCommits > 0 {
      updated := stats.(totalCommits := stats.totalCommits + newCommits,
                        history := newHistory,
                        lastUpdated := now);
    }
  }

  // ---------------------------------------------------------------------
  // Properties of one day update

  /** The day update keeps the existing entries in place (only the matching
      one grows) and appends only a date the history did not have. */
  lemma AddToDayShape(history: seq<ContributionDay>, key: string, c: int)
    ensures var h := AddToDay(history, key, c);
      |history| <= |h| <= |history| + 1 &&
      (forall i :: 0 <= i < |history| ==> h[i].date == history[i].date) &&
      (forall i :: 0 <= i < |history| && history[i].date != key ==> h[i] == history[i]) &&
      (|h| == |history| + 1 ==> h[|history|] == ContributionDay(key, c) && !HasDate(history, key)) &&
      HasDate(h, key)
  {
  }

  /** The day update adds exactly `c` to the total of the counts. */
  lemma AddToDaySum(history: seq<ContributionDay>, key: string, c: int)
    ensures SumCounts(AddToDay(history, key, c)) == SumCounts(history) + c
  {
    match FindDay(history, key)
    case Some(i) => SumCountsBump(history, i, c);
    case None => SumCountsAppend(history, [ContributionDay(key, c)]);
  }

  /** The day update keeps the dates unique. */
  lemma AddToDayUnique(history: seq<ContributionDay>, key: string, c: int)
    requires UniqueDates(history)
    ensures UniqueDates(AddToDay(history, key, c))
  {
    AddToDayShape(history, key, c);
  }

  /** With unique dates, the day update adds `c` to the count of `key` (or
      creates it with count `c`) and leaves every other date's count alone. */
  lemma AddToDayCounts(history: seq<ContributionDay>, key: string, c: int, i: nat)
    requires UniqueDates(history)
    requires i < |AddToDay(history, key, c)|
    ensures var h := AddToDay(history, key, c);
      (h[i].date != key ==> i < |history| && h[i] == history[i]) &&
      (h[i].date == key ==> h[i].count == (if i < |history| then history[i].count else 0) + c)
  {
    AddToDayShape(history, key, c);
  }

  // ---------------------------------------------------------------------
  // Properties of the whole merge

  /** The counted events add exactly their commits to the sum of the history. */
  lemma {:induction false} ApplyEventsSum(history: seq<ContributionDay>, events: seq<FeedEvent>, lastUpdated: int)
    ensures SumCounts(ApplyEvents(history, events, lastUpdated)) == SumCounts(history) + NewCommits(events, lastUpdated)
    decreases |events|
  {
    if |events| > 0 {
      var e := events[|events| - 1];
      ApplyEventsSum(history, events[..|events| - 1], lastUpdated);
      if Counted(e, lastUpdated) {
        AddToDaySum(ApplyEvents(history, events[..|events| - 1], lastUpdated), DatePrefix(e.createdAt), CommitCount(e));
      }
    }
  }

  /** The merge keeps the history's dates unique. */
  lemma {:induction false} ApplyEventsUnique(history: seq<ContributionDay>, events: seq<FeedEvent>, lastUpdated: int)
    requires UniqueDates(history)
    ensures UniqueDates(ApplyEvents(history, events, lastUpdated))
    decreases |events|
  {
    if |events| > 0 {
      var e := events[|events| - 1];
      ApplyEventsUnique(history, events[..|events| - 1], lastUpdated);
      if Counted(e, lastUpdated) {
        AddToDayUnique(ApplyEvents(history, events[..|events| - 1], lastUpdated), DatePrefix(e.createdAt), CommitCount(e));
      }
    }
  }

  /** The merge keeps every existing entry where it was, with the same date
      and a count that never shrinks; new days come after them. */
  lemma {:induction false} ApplyEventsKeepsOrder(history: seq<ContributionDay>, events: seq<FeedEvent>, lastUpdated: int)
    ensures var h := ApplyEvents(history, events, lastUpdated);
      |h| >= |history| &&
      forall i :: 0 <= i < |history| ==> h[i].date == history[i].date && h[i].count >= history[i].count
    decreases |events|
  {
    if |events| > 0 {
      var e := events[|events| - 1];
      var h0 := ApplyEvents(history, events[..|events| - 1], lastUpdated);
      ApplyEventsKeepsOrder(history, events[..|events| - 1], lastUpdated);
      if Counted(e, lastUpdated) {
        AddToDayShape(h0, DatePrefix(e.createdAt), CommitCount(e));
      }
    }
  }

  /** Events that are not counted change nothing. */
  lemma {:induction false} NothingCountedNoChange(history: seq<ContributionDay>, events: seq<FeedEvent>, lastUpdated: int)
    requires forall i :: 0 <= i < |events| ==> !Counted(events[i], lastUpdated)
    ensures NewCommits(events, lastUpdated) == 0
    ensures ApplyEvents(history, events, lastUpdated) == history
    decreases |events|
  {
    if |events| > 0 {
      NothingCountedNoChange(history, events[..|events| - 1], lastUpdated);
    }
  }

  /** Something is added exactly when some event is counted. */
  lemma {:induction false} NewCommitsPositive(events: seq<FeedEvent>, lastUpdated: int)
    ensures NewCommits(events, lastUpdated) > 0 <==> exists i :: 0 <= i < |events| && Counted(events[i], lastUpdated)
    decreases |events|
  {
    if |events| > 0 {
      var e := events[|events| - 1];
      NewCommitsPositive(events[..|events| - 1], lastUpdated);
      if exists i :: 0 <= i < |events| && Counted(events[i], lastUpdated) {
        var i :| 0 <= i < |events| && Counted(events[i], lastUpdated);
        if i < |events| - 1 {
          assert events[..|events| - 1][i] == events[i];
        }
      }
    }
  }

  /** The merge's effect on the stats: with something counted, the commit
      total and the history's sum both grow by exactly the new commits and
      the snapshot time becomes `now`; otherwise the stats are unchanged. */
  lemma MergedEffect(stats: GithubStats, events: seq<FeedEvent>, now: int)
    ensures var n := NewCommits(events, stats.lastUpdated);
      var r := Merged(stats, Some(events), now);
      (n > 0 ==>
        r.totalCommits == stats.totalCommits + n &&
        SumCounts(r.history) == SumCounts(stats.history) + n &&
        r.lastUpdated == now &&
        r.totalRepos == stats.totalRepos && r.totalStars == stats.totalStars &&
        r.monthlyStreak == stats.monthlyStreak) &&
      (n == 0 ==> r == stats)
  {
    ApplyEventsSum(stats.history, events, stats.lastUpdated);
  }

  /** The merge keeps the history's dates unique and its counts non-negative. */
  lemma MergedInvariant(stats: GithubStats, feed: Option<seq<FeedEvent>>, now: int)
    requires UniqueDates(stats.history) && NonNegative(stats.history)
    ensures UniqueDates(Merged(stats, feed, now).history)
    ensures NonNegative(Merged(stats, feed, now).history)
  {
    if feed.Some? {
      ApplyEventsUnique(stats.history, feed.value, stats.lastUpdated);
      ApplyEventsNonNegative(stats.history, feed.value, stats.lastUpdated);
    }
  }

  lemma {:induction false} ApplyEventsNonNegative(history: seq<ContributionDay>, events: seq<FeedEvent>, lastUpdated: int)
    requires NonNegative(history)
    ensures NonNegative(ApplyEvents(history, events, lastUpdated))
    decreases |events|
  {
    if |events| > 0 {
      var e := events[|events| - 1];
      var h0 := ApplyEvents(history, events[..|events| - 1], lastUpdated);
      ApplyEventsNonNegative(history, events[..|events| - 1], lastUpdated);
      if Counted(e, lastUpdated) {
        AddToDayShape(h0, DatePrefix(e.createdAt), CommitCount(e));
      }
    }
  }

  /** A failed fetch and an empty feed both leave the stats exactly as they were. */
  lemma EmptyOrFailedFeed(stats: GithubStats, now: int)
    ensures Merged(stats, None, now) == stats
    ensures Merged(stats, Some([]), now) == stats
  {
  }

  /** When no push of the feed is newer than the snapshot, merging it is a no-op. */
  lemma StaleFeedNoChange(stats: GithubStats, events: seq<FeedEvent>, now: int)
    requires forall i :: 0 <= i < |events| ==> events[i].time <= stats.lastUpdated || events[i].kind != PushEvent
    ensures Merged(stats, Some(events), now) == stats
  {
    NothingCountedNoChange(stats.history, events, stats.lastUpdated);
  }

  /** Merging the same feed a second time changes nothing, once the merge
      time is no earlier than every event of the feed. */
  lemma MergeIdempotent(stats: GithubStats, events: seq<FeedEvent>, now: int, later: int)
    requires forall i :: 0 <= i < |events| ==> events[i].time <= now
    ensures var once := Merged(stats, Some(events), now);
      Merged(once, Some(events), later) == once
  {
    var once := Merged(stats, Some(events), now);
    if NewCommits(events, stats.lastUpdated) == 0 {
      NewCommitsPositive(events, stats.lastUpdated);
      StaleFeedNoChange(stats, events, later);
    } else {
      StaleFeedNoChange(once, events, later);
    }
  }

  /** The snapshot time never moves backwards when merges happen at or after it. */
  lemma WatermarkMonotone(stats: GithubStats, feed: Option<seq<FeedEvent>>, now: int)
    requires now >= stats.lastUpdated
    ensures Merged(stats, feed, now).lastUpdated >= stats.lastUpdated
  {
  }

  /** Two pushes on the same day with sizes 2 and 3, both newer than the
      snapshot, on a day the history does not have yet: one new entry for
      that day at the end, with count 5, and the total grows by 5. */
  lemma SameDayExample(stats: GithubStats, key: string, t1: string, t2: string, time1: int, time2: int, now: int)
    requires 'T' !in key && !HasDate(stats.history, key)
    requires time1 > stats.lastUpdated && time2 > stats.lastUpdated
    ensures var events := [FeedEvent(PushEvent, key + "T" + t1, time1, 2),
                           FeedEvent(PushEvent, key + "T" + t2, time2, 3)];
      var r := Merged(stats, Some(events), now);
      r.history == stats.history + [ContributionDay(key, 5)] &&
      r.totalCommits == stats.totalCommits + 5 && r.lastUpdated == now
  {
    var h := stats.history;
    var e1 := FeedEvent(PushEvent, key + "T" + t1, time1, 2);
    var e2 := FeedEvent(PushEvent, key + "T" + t2, time2, 3);
    var events := [e1, e2];
    DatePrefixOfTimestamp(key, t1);
    DatePrefixOfTimestamp(key, t2);
    assert events[..1] == [e1] && [e1][..0] == [];
    assert Counted(e1, stats.lastUpdated) && CommitCount(e1) == 2 && DatePrefix(e1.createdAt) == key;
    assert Counted(e2, stats.lastUpdated) && CommitCount(e2) == 3 && DatePrefix(e2.createdAt) == key;
    var h1 := ApplyEvents(h, [e1], stats.lastUpdated);
    assert ApplyEvents(h, [e1][..0], stats.lastUpdated) == h;
    assert FindDay(h, key).None?;
    assert h1 == AddToDay(h, key, 2) == h + [ContributionDay(key, 2)];
    assert FindDay(h1, key) == Some(|h|) by {
      assert h1[|h|].date == key;
      assert forall j :: 0 <= j < |h| ==> h1[j] == h[j];
    }
    assert ApplyEvents(h, events, stats.lastUpdated) == AddToDay(h1, key, 3);
    assert AddToDay(h1, key, 3) == h + [ContributionDay(key, 5)];
    assert NewCommits([e1], stats.lastUpdated) == 2;
    assert NewCommits(events, stats.lastUpdated) == 5;
  }
}
