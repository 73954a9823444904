/** The snapshot builder of scripts/update-stats.js: it folds a GitHub user
    reply, the repository list and the public activity feed into a fresh
    `GithubStats` record. The network replies, the existing snapshot file and
    the clock are inputs; writing the file is not modelled. */
module UpdateStats {
  import opened Types
  import opened Ledger
  import opened Calendar

  /** Days of zero-filled baseline before the feed is folded in. */
  const WINDOW_DAYS: nat := 60
  /** Milliseconds in a day (`1000 * 3600 * 24`). */
  const DAY_MS: nat := 86400000
  /** A push within this many days counts as an active month. */
  const ACTIVE_DAYS: nat := 30
  /** Padding added to the recent-commit total when the old snapshot parses. */
  const BASE_PADDING: nat := 100

  datatype Result<T> = Success(value: T) | Failure(error: string)

  /** The reply of the user endpoint: "Not Found", or the two fields the
      script reads (`public_repos` and `updated_at` as a timestamp). */
  datatype UserReply = NotFound | Found(publicRepos: int, updatedAt: int)

  /** What reading the existing githubStats.ts gave: no file, no
      `export const githubStats = {...};` in it, a body that is not JSON, or
      a parsed object. */
  datatype PriorSnapshot = NoFile | NoMatch | BadJson | Parsed

  // ---------------------------------------------------------------------
  // Stars

  /** Sum of a sequence of integers, element by element from the left. */
  function Sum(xs: seq<int>): int
  {
    if |xs| == 0 then 0 else Sum(xs[..|xs| - 1]) + xs[|xs| - 1]
  }

  lemma {:induction false} SumNonNegative(xs: seq<int>)
    requires forall i :: 0 <= i < |xs| ==> xs[i] >= 0
    ensures Sum(xs) >= 0
    decreases |xs|
  {
    if |xs| > 0 {
      SumNonNegative(xs[..|xs| - 1]);
    }
  }

  /** The stars of all repositories (each repository's `stargazers_count`),
      0 when the reply is not an array. */
  method TotalStars(repos: Option<seq<int>>) returns (total: int)
    ensures repos.None? ==> total == 0
    ensures repos.Some? ==> total == Sum(repos.value)
  {
    total := 0;
    if repos.Some? {
      var stars := repos.value;
      for i := 0 to |stars|
        invariant total == Sum(stars[..i])
      {
        assert stars[..i + 1][..i] == stars[..i];
        total := total + stars[i];
      }
      assert stars[..|stars|] == stars;
    }
  }

  // ---------------------------------------------------------------------
  // The total of a map's values

  /** Some key of a non-empty map. */
  ghost function Pick(m: map<string, int>): (k: string)
    requires |m| > 0
    ensures k in m
  {
    var k :| k in m; k
  }

  /** The sum of the values of a map. */
  ghost function MapTotal(m: map<string, int>): int
    decreases |m|
  {
    if |m| == 0 then 0
    else
      var k := Pick(m);
      assert (m - {k}).Keys == m.Keys - {k};
      m[k] + MapTotal(m - {k})
  }

  /** Any key may be taken out first. */
  lemma {:induction false} MapTotalRemove(m: map<string, int>, k: string)
    requires k in m
    ensures MapTotal(m) == m[k] + MapTotal(m - {k})
    decreases |m|
  {
    var j := Pick(m);
    if j != k {
      assert (m - {j}).Keys == m.Keys - {j};
      assert (m - {k}).Keys == m.Keys - {k};
      MapTotalRemove(m - {j}, k);
      MapTotalRemove(m - {k}, j);
      assert m - {j} - {k} == m - {k} - {j};
    }
  }

  lemma MapTotalUpdate(m: map<string, int>, k: string, v: int)
    ensures MapTotal(m[k := v]) == MapTotal(m) - Get(m, k) + v
  {
    MapTotalRemove(m[k := v], k);
    if k in m {
      MapTotalRemove(m, k);
      assert m[k := v] - {k} == m - {k};
    } else {
      assert m[k := v] - {k} == m;
    }
  }

  lemma {:induction false} MapTotalZero(m: map<string, int>)
    requires forall k :: k in m ==> m[k] == 0
    ensures MapTotal(m) == 0
    decreases |m|
  {
    if |m| > 0 {
      var k :| k in m;
      assert (m - {k}).Keys == m.Keys - {k};
      MapTotalRemove(m, k);
      MapTotalZero(m - {k});
    }
  }

  // ---------------------------------------------------------------------
  // The zero-filled window

  /** `(historyMap[key] || 0)`: the value at `key`, 0 when it is absent. */
  function Get(m: map<string, int>, key: string): (v: int)
    ensures key in m ==> v == m[key]
    ensures key !in m ==> v == 0
  {
    if key in m then m[key] else 0
  }

  /** The key of the day `i` days back: the date part of its ISO text, where
      `isoDaysAgo(i)` is the `toISOString()` of now moved back `i` days. */
  function WindowKey(isoDaysAgo: nat -> string, i: nat): string
  {
    DatePrefix(isoDaysAgo(i))
  }

  /** The map after the first `n` rounds of the baseline loop. */
  function WindowMap(isoDaysAgo: nat -> string, n: nat): (m: map<string, int>)
    ensures m.Keys == set i | 0 <= i < n :: WindowKey(isoDaysAgo, i)
    ensures forall k :: k in m ==> m[k] == 0
  {
    if n == 0 then map[] else WindowMap(isoDaysAgo, n - 1)[WindowKey(isoDaysAgo, n - 1) := 0]
  }

  /** The baseline loop: each of the last 60 days is present with count 0. */
  method InitWindow(isoDaysAgo: nat -> string) returns (m: map<string, int>)
    ensures m == WindowMap(isoDaysAgo, WINDOW_DAYS)
  {
    m := map[];
    for i := 0 to WINDOW_DAYS
      invariant m == WindowMap(isoDaysAgo, i)
    {
      m := m[WindowKey(isoDaysAgo, i) := 0];
    }
  }

  // ---------------------------------------------------------------------
  // Folding the feed

  /** What one event adds to its day: the commits of a push, 1 for a
      repository or branch creation and for a pull request, 0 otherwise. */
  function Contribution(e: FeedEvent): (c: nat)
    ensures e.kind.OtherEvent? <==> c == 0
    ensures e.kind.PushEvent? ==> c == CommitCount(e)
    ensures e.kind.CreateEvent? || e.kind.PullRequestEvent? ==> c == 1
  {
    match e.kind
    case PushEvent => CommitCount(e)
    case CreateEvent => 1
    case PullRequestEvent => 1
    case OtherEvent => 0
  }

  /** One round of the event loop, as a map transformer. */
  function AddEvent(m: map<string, int>, e: FeedEvent): map<string, int>
  {
    if e.kind.OtherEvent? then m
    else
      var key := DatePrefix(e.createdAt);
      m[key := Get(m, key) + Contribution(e)]
  }

  /** The event loop over `events`, in feed order. */
  function ApplyAll(m: map<string, int>, events: seq<FeedEvent>): map<string, int>
    decreases |events|
  {
    if |events| == 0 then m
    else AddEvent(ApplyAll(m, events[..|events| - 1]), events[|events| - 1])
  }

  /** Sum of the contributions of all events. */
  function EventsTotal(events: seq<FeedEvent>): (t: int)
    ensures t >= 0
    ensures t >= |events| - CountOther(events)
  {
    if |events| == 0 then 0
    else EventsTotal(events[..|events| - 1]) + Contribution(events[|events| - 1])
  }

  /** The number of events that add nothing. */
  function CountOther(events: seq<FeedEvent>): nat
  {
    if |events| == 0 then 0
    else CountOther(events[..|events| - 1]) + (if events[|events| - 1].kind.OtherEvent? then 1 else 0)
  }

  /** Sum of the contributions of the events whose date part is `key`. */
  function DayTotal(events: seq<FeedEvent>, key: string): int
  {
    if |events| == 0 then 0
    else
      var e := events[|events| - 1];
      DayTotal(events[..|events| - 1], key) + (if DatePrefix(e.createdAt) == key then Contribution(e) else 0)
  }

  /** Some counted (push, create or pull-request) event falls on day `key`. */
  ghost predicate CountedOn(events: seq<FeedEvent>, key: string)
  {
    exists i :: 0 <= i < |events| && !events[i].kind.OtherEvent? && DatePrefix(events[i].createdAt) == key
  }

  /** The `forEach` over the feed; nothing happens when the reply is not an
      array. */
  method FoldEvents(m0: map<string, int>, events: Option<seq<FeedEvent>>) returns (m: map<string, int>)
    ensures events.None? ==> m == m0
    ensures events.Some? ==> m == ApplyAll(m0, events.value)
  {
    m := m0;
    if events.Some? {
      var evs := events.value;
      for i := 0 to |evs|
        invariant m == ApplyAll(m0, evs[..i])
      {
        var e := evs[i];
        if e.kind == PushEvent {
          var key := DatePrefix(e.createdAt);
          m := m[key := Get(m, key) + CommitCount(e)];
        } else if e.kind == CreateEvent || e.kind == PullRequestEvent {
          var key := DatePrefix(e.createdAt);
          m := m[key := Get(m, key) + 1];
        }
        assert evs[..i + 1][..i] == evs[..i];
      }
      assert evs[..|evs|] == evs;
    }
  }

  /** The fold adds exactly the events' contributions to the map's total. */
  lemma {:induction false} ApplyAllTotal(m: map<string, int>, events: seq<FeedEvent>)
    ensures MapTotal(ApplyAll(m, events)) == MapTotal(m) + EventsTotal(events)
    decreases |events|
  {
    if |events| > 0 {
      var n := |events| - 1;
      var prev := ApplyAll(m, events[..n]);
      ApplyAllTotal(m, events[..n]);
      assert EventsTotal(events) == EventsTotal(events[..n]) + Contribution(events[n]);
      assert ApplyAll(m, events) == AddEvent(prev, events[n]);
      AddEventTotal(prev, events[n]);
    }
  }

  /** One event adds its contribution to the map's total. */
  lemma AddEventTotal(m: map<string, int>, e: FeedEvent)
    ensures MapTotal(AddEvent(m, e)) == MapTotal(m) + Contribution(e)
  {
    if !e.kind.OtherEvent? {
      var key := DatePrefix(e.createdAt);
      var v := Get(m, key) + Contribution(e);
      assert AddEvent(m, e) == m[key := v];
      MapTotalUpdate(m, key, v);
    }
  }

  /** Each day's value is its starting value plus its events' contributions. */
  lemma {:induction false} ApplyAllDay(m: map<string, int>, events: seq<FeedEvent>, key: string)
    ensures Get(ApplyAll(m, events), key) == Get(m, key) + DayTotal(events, key)
    decreases |events|
  {
    if |events| > 0 {
      ApplyAllDay(m, events[..|events| - 1], key);
    }
  }

  /** A day is a key after the fold exactly when it was one before or some
      counted event falls on it. */
  lemma {:induction false} ApplyAllKeys(m: map<string, int>, events: seq<FeedEvent>, key: string)
    ensures key in ApplyAll(m, events) <==> key in m || CountedOn(events, key)
    decreases |events|
  {
    if |events| > 0 {
      var n := |events| - 1;
      var e := events[n];
      ApplyAllKeys(m, events[..n], key);
      if CountedOn(events[..n], key) {
        var i :| 0 <= i < n && !events[..n][i].kind.OtherEvent? && DatePrefix(events[..n][i].createdAt) == key;
        assert events[i] == events[..n][i];
      }
      if CountedOn(events, key) {
        var i :| 0 <= i < |events| && !events[i].kind.OtherEvent? && DatePrefix(events[i].createdAt) == key;
        if i < n {
          assert events[..n][i] == events[i];
        }
      }
    } else {
      assert !CountedOn(events, key);
    }
  }

  lemma {:induction false} ApplyAllNonNegative(m: map<string, int>, events: seq<FeedEvent>)
    requires forall k :: k in m ==> m[k] >= 0
    ensures forall k :: k in ApplyAll(m, events) ==> ApplyAll(m, events)[k] >= 0
    decreases |events|
  {
    if |events| > 0 {
      ApplyAllNonNegative(m, events[..|events| - 1]);
    }
  }

  // ---------------------------------------------------------------------
  // Map to sorted array

  /** `a` may stand before `b`: `b`'s date does not sort before `a`'s. */
  predicate DateLe(a: ContributionDay, b: ContributionDay)
  {
    !TextLess(b.date, a.date)
  }

  ghost predicate SortedByDate(h: seq<ContributionDay>)
  {
    forall i, j :: 0 <= i < j < |h| ==> DateLe(h[i], h[j])
  }

  /** Dates strictly increase along the history. */
  ghost predicate Chronological(h: seq<ContributionDay>)
  {
    forall i, j :: 0 <= i < j < |h| ==> TextLess(h[i].date, h[j].date)
  }

  lemma TextLessAsymmetric(a: string, b: string)
    requires TextLess(a, b)
    ensures !TextLess(b, a)
  {
    TextLessIrreflexive(a);
    if TextLess(b, a) {
      TextLessTransitive(a, b, a);
    }
  }

  lemma DateLeTransitive(a: ContributionDay, b: ContributionDay, c: ContributionDay)
    requires DateLe(a, b) && DateLe(b, c)
    ensures DateLe(a, c)
  {
    if a.date != b.date {
      TextLessTotal(a.date, b.date);
      if TextLess(c.date, a.date) {
        TextLessTransitive(c.date, a.date, b.date);
      }
    }
  }

  /** Inserts `x` before the first entry whose date does not sort before its
      own, so that equal dates keep their order. */
  function InsertByDate(x: ContributionDay, s: seq<ContributionDay>): (r: seq<ContributionDay>)
    ensures multiset(r) == multiset(s) + multiset{x}
    ensures |r| == |s| + 1
    decreases |s|
  {
    if |s| == 0 then [x]
    else if TextLess(s[0].date, x.date) then
      assert s == [s[0]] + s[1..];
      [s[0]] + InsertByDate(x, s[1..])
    else [x] + s
  }

  /** `.sort(...)` on the dates: a stable insertion sort. */
  function SortByDate(days: seq<ContributionDay>): (r: seq<ContributionDay>)
    ensures multiset(r) == multiset(days)
    ensures |r| == |days|
  {
    if |days| == 0 then []
    else
      assert days == [days[0]] + days[1..];
      InsertByDate(days[0], SortByDate(days[1..]))
  }

  /** Every entry of an insertion is the inserted entry or one of `s`. */
  lemma InsertMember(x: ContributionDay, s: seq<ContributionDay>, j: nat)
    requires j < |InsertByDate(x, s)|
    ensures InsertByDate(x, s)[j] == x || exists k :: 0 <= k < |s| && s[k] == InsertByDate(x, s)[j]
  {
    var y := InsertByDate(x, s)[j];
    assert y in multiset(InsertByDate(x, s));
    if y != x {
      assert y in multiset(s);
      assert y in s;
    }
  }

  /** An entry no later than every entry of a sorted history may go first. */
  lemma ConsSorted(a: ContributionDay, t: seq<ContributionDay>)
    requires SortedByDate(t)
    requires forall j :: 0 <= j < |t| ==> DateLe(a, t[j])
    ensures SortedByDate([a] + t)
  {
    var r := [a] + t;
    forall i, j | 0 <= i < j < |r| ensures DateLe(r[i], r[j]) {
      if i > 0 {
        assert r[i] == t[i - 1] && r[j] == t[j - 1];
      } else {
        assert r[j] == t[j - 1];
      }
    }
  }

  /** An entry with a date none of `t` has keeps the dates distinct. */
  lemma ConsUnique(a: ContributionDay, t: seq<ContributionDay>)
    requires UniqueDates(t)
    requires forall j :: 0 <= j < |t| ==> t[j].date != a.date
    ensures UniqueDates([a] + t)
  {
    var r := [a] + t;
    forall i, j | 0 <= i < j < |r| ensures r[i].date != r[j].date {
      if i > 0 {
        assert r[i] == t[i - 1] && r[j] == t[j - 1];
      } else {
        assert r[j] == t[j - 1];
      }
    }
  }

  lemma {:induction false} InsertSorted(x: ContributionDay, s: seq<ContributionDay>)
    requires SortedByDate(s)
    ensures SortedByDate(InsertByDate(x, s))
    decreases |s|
  {
    if |s| > 0 {
      if TextLess(s[0].date, x.date) {
        var t := InsertByDate(x, s[1..]);
        InsertSorted(x, s[1..]);
        forall j | 0 <= j < |t| ensures DateLe(s[0], t[j]) {
          InsertMember(x, s[1..], j);
          if t[j] == x {
            TextLessAsymmetric(s[0].date, x.date);
          } else {
            var k :| 0 <= k < |s[1..]| && s[1..][k] == t[j];
            assert s[k + 1] == t[j];
          }
        }
        ConsSorted(s[0], t);
      } else {
        forall j | 0 <= j < |s| ensures DateLe(x, s[j]) {
          if j > 0 {
            DateLeTransitive(x, s[0], s[j]);
          }
        }
      }
    }
  }

  lemma {:induction false} InsertUnique(x: ContributionDay, s: seq<ContributionDay>)
    requires UniqueDates(s)
    requires forall i :: 0 <= i < |s| ==> s[i].date != x.date
    ensures UniqueDates(InsertByDate(x, s))
    decreases |s|
  {
    if |s| > 0 && TextLess(s[0].date, x.date) {
      var t := InsertByDate(x, s[1..]);
      InsertUnique(x, s[1..]);
      forall j | 0 <= j < |t| ensures t[j].date != s[0].date {
        InsertMember(x, s[1..], j);
        if t[j] != x {
          var k :| 0 <= k < |s[1..]| && s[1..][k] == t[j];
          assert s[k + 1] == t[j];
        }
      }
      ConsUnique(s[0], t);
    } else if |s| > 0 {
      ConsUnique(x, s);
    }
  }

  lemma {:induction false} SortSorted(days: seq<ContributionDay>)
    ensures SortedByDate(SortByDate(days))
    decreases |days|
  {
    if |days| > 0 {
      SortSorted(days[1..]);
      InsertSorted(days[0], SortByDate(days[1..]));
    }
  }

  lemma {:induction false} SortUnique(days: seq<ContributionDay>)
    requires UniqueDates(days)
    ensures UniqueDates(SortByDate(days))
    decreases |days|
  {
    if |days| > 0 {
      var s := SortByDate(days[1..]);
      SortUnique(days[1..]);
      forall i | 0 <= i < |s| ensures s[i].date != days[0].date {
        assert s[i] in multiset(s);
        assert s[i] in multiset(days[1..]);
        var k :| 0 <= k < |days[1..]| && days[1..][k] == s[i];
        assert days[k + 1] == s[i];
      }
      InsertUnique(days[0], s);
    }
  }

  /** With distinct dates, a sorted history is strictly chronological. */
  lemma SortedUniqueChronological(h: seq<ContributionDay>)
    requires SortedByDate(h) && UniqueDates(h)
    ensures Chronological(h)
  {
    forall i, j | 0 <= i < j < |h| ensures TextLess(h[i].date, h[j].date) {
      TextLessTotal(h[i].date, h[j].date);
    }
  }

  /** `h` lists the map `m`: one entry per key, with that key's value. */
  ghost predicate Describes(h: seq<ContributionDay>, m: map<string, int>)
  {
    UniqueDates(h) &&
    (forall i :: 0 <= i < |h| ==> h[i].date in m && h[i].count == m[h[i].date]) &&
    (forall k :: k in m ==> HasDate(h, k))
  }

  /** The sum of the listed counts is the total of the map. */
  lemma {:induction false} DescribesTotal(h: seq<ContributionDay>, m: map<string, int>)
    requires Describes(h, m)
    ensures SumCounts(h) == MapTotal(m)
    decreases |h|
  {
    if |h| == 0 {
      assert forall k :: k in m ==> HasDate(h, k);
      assert m.Keys == {};
    } else {
      var n := |h| - 1;
      var x := h[n];
      var h' := h[..n];
      var m' := m - {x.date};
      DescribesFront(h, m);
      DescribesTotal(h', m');
      MapTotalRemove(m, x.date);
    }
  }

  /** Dropping the last entry of a listing lists the map without its key. */
  lemma DescribesFront(h: seq<ContributionDay>, m: map<string, int>)
    requires Describes(h, m) && |h| > 0
    ensures Describes(h[..|h| - 1], m - {h[|h| - 1].date})
  {
    var n := |h| - 1;
    var h' := h[..n];
    var m' := m - {h[n].date};
    forall k | k in m' ensures HasDate(h', k) {
      var i :| 0 <= i < |h| && h[i].date == k;
      assert h'[i] == h[i];
    }
  }

  /** Dropping the first entry of a listing lists the map without its key. */
  lemma DescribesTail(h: seq<ContributionDay>, m: map<string, int>)
    requires Describes(h, m) && |h| > 0
    ensures Describes(h[1..], m - {h[0].date})
  {
    var t := h[1..];
    var m' := m - {h[0].date};
    forall a | 0 <= a < |t| ensures t[a].date in m' && t[a].count == m'[t[a].date] {
      assert t[a] == h[a + 1];
    }
    forall k | k in m' ensures HasDate(t, k) {
      var a :| 0 <= a < |h| && h[a].date == k;
      assert t[a - 1] == h[a];
    }
  }

  lemma ChronologicalTail(h: seq<ContributionDay>)
    requires Chronological(h) && |h| > 0
    ensures Chronological(h[1..])
  {
    forall i, j | 0 <= i < j < |h[1..]| ensures TextLess(h[1..][i].date, h[1..][j].date) {
      assert h[1..][i] == h[i + 1] && h[1..][j] == h[j + 1];
    }
  }

  /** A listing is empty exactly when its map is. */
  lemma DescribesEmpty(h: seq<ContributionDay>, m: map<string, int>)
    requires Describes(h, m)
    ensures |h| == 0 <==> |m| == 0
  {
    if |h| > 0 {
      assert h[0].date in m;
    } else {
      assert m.Keys == {};
    }
  }

  /** Two chronological listings of one map start with the same entry. */
  lemma ListingHeads(h1: seq<ContributionDay>, h2: seq<ContributionDay>, m: map<string, int>)
    requires Describes(h1, m) && Describes(h2, m)
    requires Chronological(h1) && Chronological(h2)
    requires |h1| > 0 && |h2| > 0
    ensures h1[0] == h2[0]
  {
    var i :| 0 <= i < |h1| && h1[i].date == h2[0].date;
    var j :| 0 <= j < |h2| && h2[j].date == h1[0].date;
    if i > 0 && j > 0 {
      TextLessAsymmetric(h1[0].date, h1[i].date);
    }
  }

  /** Two non-empty chronological listings of one map agree on their first
      entry, and their tails list the rest of the map. */
  lemma ListingStep(h1: seq<ContributionDay>, h2: seq<ContributionDay>, m: map<string, int>)
    requires Describes(h1, m) && Describes(h2, m)
    requires Chronological(h1) && Chronological(h2)
    requires |h1| > 0 && |h2| > 0
    ensures h1[0] == h2[0]
    ensures Describes(h1[1..], m - {h1[0].date}) && Describes(h2[1..], m - {h1[0].date})
    ensures Chronological(h1[1..]) && Chronological(h2[1..])
  {
    ListingHeads(h1, h2, m);
    DescribesTail(h1, m);
    DescribesTail(h2, m);
    ChronologicalTail(h1);
    ChronologicalTail(h2);
  }

  lemma SameHeadAndTail(h1: seq<ContributionDay>, h2: seq<ContributionDay>)
    requires |h1| > 0 && |h2| > 0 && h1[0] == h2[0] && h1[1..] == h2[1..]
    ensures h1 == h2
  {
    assert h1 == [h1[0]] + h1[1..] && h2 == [h2[0]] + h2[1..];
  }

  /** The listing of a map is unique once it is chronological: the order in
      which the keys were enumerated does not matter. */
  lemma {:induction false} ChronologicalListingUnique(h1: seq<ContributionDay>, h2: seq<ContributionDay>, m: map<string, int>)
    requires Describes(h1, m) && Describes(h2, m)
    requires Chronological(h1) && Chronological(h2)
    ensures h1 == h2
    decreases |h1|
  {
    DescribesEmpty(h1, m);
    DescribesEmpty(h2, m);
    if |h1| > 0 && |h2| > 0 {
      ListingStep(h1, h2, m);
      ChronologicalListingUnique(h1[1..], h2[1..], m - {h1[0].date});
      SameHeadAndTail(h1, h2);
    }
  }

  /** Appending a fresh key's entry lists the map extended with that key. */
  lemma DescribesExtend(days: seq<ContributionDay>, done: map<string, int>, k: string, v: int)
    requires Describes(days, done) && k !in done
    ensures Describes(days + [ContributionDay(k, v)], done[k := v])
  {
    var d := days + [ContributionDay(k, v)];
    forall k' | k' in done[k := v] ensures HasDate(d, k') {
      if k' == k {
        assert d[|days|].date == k;
      } else {
        var i :| 0 <= i < |days| && days[i].date == k';
        assert d[i] == days[i];
      }
    }
  }

  /** Sorting a listing keeps it a listing and makes it chronological. */
  lemma SortedListing(days: seq<ContributionDay>, m: map<string, int>)
    requires Describes(days, m)
    ensures Describes(SortByDate(days), m)
    ensures Chronological(SortByDate(days))
  {
    var h := SortByDate(days);
    SortSorted(days);
    SortUnique(days);
    forall i | 0 <= i < |h| ensures h[i].date in m && h[i].count == m[h[i].date] {
      assert h[i] in multiset(h);
      assert h[i] in multiset(days);
    }
    forall k | k in m ensures HasDate(h, k) {
      var i :| 0 <= i < |days| && days[i].date == k;
      assert days[i] in multiset(days);
      assert days[i] in multiset(h);
      var j :| 0 <= j < |h| && h[j] == days[i];
    }
    SortedUniqueChronological(h);
  }

  /** `Object.keys(historyMap).map(...)` followed by the sort by date. */
  method MapToHistory(m: map<string, int>) returns (history: seq<ContributionDay>)
    ensures Describes(history, m)
    ensures Chronological(history)
  {
    var rest := m;
    var days: seq<ContributionDay> := [];
    while |rest| > 0
      invariant forall k :: k in rest ==> k in m && rest[k] == m[k]
      invariant Describes(days, m - rest.Keys)
      decreases |rest|
    {
      var k :| k in rest;
      assert (rest - {k}).Keys == rest.Keys - {k};
      DescribesExtend(days, m - rest.Keys, k, rest[k]);
      assert (m - rest.Keys)[k := rest[k]] == m - (rest - {k}).Keys;
      days := days + [ContributionDay(k, rest[k])];
      rest := rest - {k};
    }
    assert m - rest.Keys == m;
    SortedListing(days, m);
    history := SortByDate(days);
  }

  // ---------------------------------------------------------------------
  // Monthly streak

  /** `(today - lastPush) / (1000 * 3600 * 24) < 30`, on the milliseconds. */
  predicate IsActiveMonth(todayMs: int, lastPushMs: int)
  {
    ((todayMs - lastPushMs) as real) / (DAY_MS as real) < ACTIVE_DAYS as real
  }

  /** The streak holds exactly when the last push is less than 30 whole days
      of milliseconds old (a push in the future counts as well). */
  lemma ActiveMonthInMs(todayMs: int, lastPushMs: int)
    ensures IsActiveMonth(todayMs, lastPushMs) <==> todayMs - lastPushMs < ACTIVE_DAYS * DAY_MS
  {
    var x := (todayMs - lastPushMs) as real;
    var q := x / (DAY_MS as real);
    assert x == q * (DAY_MS as real);
  }

  // ---------------------------------------------------------------------
  // The whole script

  /** The day map the script lists: the zero-filled window with the feed
      folded in. */
  function SnapshotMap(isoDaysAgo: nat -> string, events: Option<seq<FeedEvent>>): map<string, int>
  {
    ApplyAll(WindowMap(isoDaysAgo, WINDOW_DAYS), if events.Some? then events.value else [])
  }

  /** The fields of the new snapshot. */
  ghost predicate Refreshed(s: GithubStats, user: UserReply, repos: Option<seq<int>>,
                            events: Option<seq<FeedEvent>>, isoDaysAgo: nat -> string,
                            prior: PriorSnapshot, now: int)
    requires user.Found?
  {
    && s.totalRepos == user.publicRepos
    && s.totalStars == (if repos.Some? then Sum(repos.value) else 0)
    && s.monthlyStreak == IsActiveMonth(now, user.updatedAt)
    && s.lastUpdated == now
    && Describes(s.history, SnapshotMap(isoDaysAgo, events))
    && Chronological(s.history)
    && s.totalCommits == (if prior.Parsed? then SumCounts(s.history) + BASE_PADDING else 0)
  }

  /** `fetchGitHubStats`: fails with "User not found" when the user endpoint
      says so, and otherwise builds the new snapshot. */
  method FetchGitHubStats(user: UserReply, repos: Option<seq<int>>, events: Option<seq<FeedEvent>>,
                          isoDaysAgo: nat -> string, prior: PriorSnapshot, now: int)
    returns (r: Result<GithubStats>)
    ensures r.Failure? <==> user.NotFound?
    ensures r.Failure? ==> r.error == "User not found"
    ensures r.Success? ==> Refreshed(r.value, user, repos, events, isoDaysAgo, prior, now)
  {
    if user.NotFound? {
      return Failure("User not found");
    }
    var totalStars := TotalStars(repos);
    var totalRepos := user.publicRepos;
    var historyMap := InitWindow(isoDaysAgo);
    historyMap := FoldEvents(historyMap, events);
    var history := MapToHistory(historyMap);
    var totalCommits := 0;
    if prior.Parsed? {
      totalCommits := SumCounts(history) + BASE_PADDING;
    }
    var isActiveMonth := IsActiveMonth(now, user.updatedAt);
    r := Success(GithubStats(totalCommits, totalRepos, totalStars, isActiveMonth, now, history));
  }

  /** Every day of the 60-day window has an entry in the snapshot. */
  lemma SnapshotWindow(h: seq<ContributionDay>, isoDaysAgo: nat -> string, events: Option<seq<FeedEvent>>)
    requires Describes(h, SnapshotMap(isoDaysAgo, events))
    ensures forall i :: 0 <= i < WINDOW_DAYS ==> HasDate(h, WindowKey(isoDaysAgo, i))
  {
    var evs := if events.Some? then events.value else [];
    var w := WindowMap(isoDaysAgo, WINDOW_DAYS);
    forall i | 0 <= i < WINDOW_DAYS ensures HasDate(h, WindowKey(isoDaysAgo, i)) {
      assert WindowKey(isoDaysAgo, i) in w;
      ApplyAllKeys(w, evs, WindowKey(isoDaysAgo, i));
    }
  }

  /** Each day of the snapshot counts exactly the contributions of its
      events, so no count is negative. */
  lemma SnapshotCounts(h: seq<ContributionDay>, isoDaysAgo: nat -> string, events: Option<seq<FeedEvent>>)
    requires Describes(h, SnapshotMap(isoDaysAgo, events))
    ensures forall i :: 0 <= i < |h| ==>
      h[i].count == DayTotal(if events.Some? then events.value else [], h[i].date)
    ensures NonNegative(h)
  {
    var evs := if events.Some? then events.value else [];
    var w := WindowMap(isoDaysAgo, WINDOW_DAYS);
    forall i | 0 <= i < |h| ensures h[i].count == DayTotal(evs, h[i].date) {
      ApplyAllDay(w, evs, h[i].date);
    }
    ApplyAllNonNegative(w, evs);
  }

  /** The counts of the snapshot add up to the contributions of the whole
      feed: the window days add nothing. */
  lemma SnapshotTotal(h: seq<ContributionDay>, isoDaysAgo: nat -> string, events: Option<seq<FeedEvent>>)
    requires Describes(h, SnapshotMap(isoDaysAgo, events))
    ensures SumCounts(h) == EventsTotal(if events.Some? then events.value else [])
  {
    DescribesTotal(h, SnapshotMap(isoDaysAgo, events));
    FoldFromZeroTotal(WindowMap(isoDaysAgo, WINDOW_DAYS), if events.Some? then events.value else []);
  }

  /** Folding events into an all-zero map totals exactly their contributions. */
  lemma FoldFromZeroTotal(m: map<string, int>, events: seq<FeedEvent>)
    requires forall k :: k in m ==> m[k] == 0
    ensures MapTotal(ApplyAll(m, events)) == EventsTotal(events)
  {
    ApplyAllTotal(m, events);
    MapTotalZero(m);
  }

  /** With the commit padding, the total commits of a parsed prior snapshot
      are 100 more than the contributions of the feed; without one they are
      0. */
  lemma SnapshotCommits(user: UserReply, repos: Option<seq<int>>, events: Option<seq<FeedEvent>>,
                        isoDaysAgo: nat -> string, prior: PriorSnapshot, now: int, s: GithubStats)
    requires user.Found? && Refreshed(s, user, repos, events, isoDaysAgo, prior, now)
    ensures s.totalCommits == (if prior.Parsed? then EventsTotal(if events.Some? then events.value else []) + BASE_PADDING else 0)
    ensures s.totalCommits >= 0
  {
    SnapshotTotal(s.history, isoDaysAgo, events);
  }
}
