/** Operations on a contribution history (a sequence of `ContributionDay`)
    and on feed timestamps, shared by the live merge in App.tsx, the calendar
    in components/CommitHeatmap.tsx and the snapshot builder in
    scripts/update-stats.js. */
module Ledger {
  import opened Types

  /** The `type` of a GitHub activity-feed event: the three types the code
      tests for, and every other type as one case. */
  datatype EventKind = PushEvent | CreateEvent | PullRequestEvent | OtherEvent

  /** A feed event: its kind, its `created_at` text, that instant as a
      millisecond timestamp, and `payload.size` (0 when absent). */
  datatype FeedEvent = FeedEvent(kind: EventKind, createdAt: string, time: int, size: nat)

  /** `event.payload.size || 1`: the commits a push carries, 1 when the size
      is zero or missing. */
  function CommitCount(e: FeedEvent): (c: nat)
    ensures c >= 1
    ensures e.size > 0 ==> c == e.size
    ensures e.size == 0 ==> c == 1
  {
    if e.size == 0 then 1 else e.size
  }

  /** `history.find(d => d.date === key)`, as the index of the first entry
      whose date is `key`, or None when there is none. */
  function FindDay(history: seq<ContributionDay>, key: string): (r: Option<nat>)
    ensures r.Some? ==> r.value < |history| && history[r.value].date == key
    ensures r.Some? ==> forall j :: 0 <= j < r.value ==> history[j].date != key
    ensures r.None? <==> forall j :: 0 <= j < |history| ==> history[j].date != key
  {
    if |history| == 0 then None
    else if history[0].date == key then Some(0)
    else
      match FindDay(history[1..], key)
      case None => None
      case Some(i) => Some(i + 1)
  }

  /** The dates of a history are pairwise distinct. */
  ghost predicate UniqueDates(history: seq<ContributionDay>)
  {
    forall i, j :: 0 <= i < j < |history| ==> history[i].date != history[j].date
  }

  /** True when some entry of the history has date `key`. */
  ghost predicate HasDate(history: seq<ContributionDay>, key: string)
  {
    exists i :: 0 <= i < |history| && history[i].date == key
  }

  /** Sum of the counts of a history (`reduce((acc, day) => acc + day.count, 0)`). */
  function SumCounts(history: seq<ContributionDay>): int
  {
    if |history| == 0 then 0 else SumCounts(history[..|history| - 1]) + history[|history| - 1].count
  }

  lemma {:induction false} SumCountsAppend(a: seq<ContributionDay>, b: seq<ContributionDay>)
    ensures SumCounts(a + b) == SumCounts(a) + SumCounts(b)
    decreases |b|
  {
    if |b| == 0 {
      assert a + b == a;
    } else {
      var b' := b[..|b| - 1];
      assert (a + b)[..|a + b| - 1] == a + b';
      SumCountsAppend(a, b');
    }
  }

  /** Adding `c` to the count of entry `i` adds `c` to the sum. */
  lemma {:induction false} SumCountsBump(history: seq<ContributionDay>, i: nat, c: int)
    requires i < |history|
    ensures SumCounts(history[i := history[i].(count := history[i].count + c)]) == SumCounts(history) + c
    decreases |history|
  {
    var h' := history[i := history[i].(count := history[i].count + c)];
    var n := |history| - 1;
    if i == n {
      assert h'[..n] == history[..n];
    } else {
      assert h'[..n] == history[..n][i := history[i].(count := history[i].count + c)];
      SumCountsBump(history[..n], i, c);
    }
  }

  /** Every count of the history is non-negative. */
  ghost predicate NonNegative(history: seq<ContributionDay>)
  {
    forall i :: 0 <= i < |history| ==> history[i].count >= 0
  }

  /** `s.split('T')[0]`: the part of a timestamp text before its first 'T'
      (all of it when it has none). For an ISO 8601 date-time this is the
      calendar date "YYYY-MM-DD". */
  function DatePrefix(s: string): (r: string)
    ensures r <= s
    ensures 'T' !in r
    ensures |r| < |s| ==> s[|r|] == 'T'
  {
    if |s| == 0 || s[0] == 'T' then "" else [s[0]] + DatePrefix(s[1..])
  }

  /** The key of a timestamp "date" + "T" + "time" is its date part. */
  lemma {:induction false} DatePrefixOfTimestamp(date: string, time: string)
    requires 'T' !in date
    ensures DatePrefix(date + "T" + time) == date
    decreases |date|
  {
    var s := date + "T" + time;
    if |date| > 0 {
      assert s[1..] == date[1..] + "T" + time;
      assert 'T' !in date[1..] by {
        forall i | 0 <= i < |date[1..]| ensures date[1..][i] != 'T' {
          assert date[1..][i] == date[i + 1];
        }
      }
      DatePrefixOfTimestamp(date[1..], time);
      assert date == [date[0]] + date[1..];
    }
  }
}
