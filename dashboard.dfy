/**
 * The two computations of the dashboard page (`src/app/page.tsx`): the
 * statistics over the posted history and the `timeAgo` text. The clock is
 * a parameter, in milliseconds; `posted_at` is taken as a millisecond time.
 */
module Dashboard {
  import opened Wrappers
  import opened Posts
  import opened Text

  /** One day and one week, in milliseconds. */
  const DayMs: int := 24 * 60 * 60 * 1000
  const WeekMs: int := 7 * 24 * 60 * 60 * 1000

  /** `Stats`, without `bySource`, which the page never fills in. */
  datatype Stats = Stats(totalPosted: nat, postedToday: nat, postedThisWeek: nat, bySubreddit: map<string, nat>)

  /** The time the page counts a post from: its `posted_at`, or 0 when there is none. */
  function PostedTime(p: Post): int {
    p.postedAt.GetOr(0)
  }

  /** The number of posts posted strictly after `cutoff`. */
  function CountAfter(posted: seq<Post>, cutoff: int): nat
    decreases |posted|
  {
    if posted == [] then 0
    else CountAfter(posted[..|posted| - 1], cutoff) + (if PostedTime(posted[|posted| - 1]) > cutoff then 1 else 0)
  }

  /** The per-subreddit counts, one increment per post. */
  function Tally(posted: seq<Post>): map<string, nat>
    decreases |posted|
  {
    if posted == [] then map[]
    else
      var m := Tally(posted[..|posted| - 1]);
      var s := posted[|posted| - 1].subreddit;
      m[s := (if s in m then m[s] else 0) + 1]
  }

  /** The statistics of `posted` at time `now`. */
  function StatsOf(posted: seq<Post>, now: int): Stats {
    Stats(|posted|, CountAfter(posted, now - DayMs), CountAfter(posted, now - WeekMs), Tally(posted))
  }

  /** The `stats` computation of the dashboard. */
  method ComputeStats(posted: seq<Post>, now: int) returns (stats: Stats)
    ensures stats == StatsOf(posted, now)
  {
    var oneDayAgo := now - DayMs;
    var oneWeekAgo := now - WeekMs;
    var bySubreddit: map<string, nat> := map[];
    var postedToday: nat := 0;
    var postedThisWeek: nat := 0;
    var i := 0;
    while i < |posted|
      invariant 0 <= i <= |posted|
      invariant postedToday == CountAfter(posted[..i], oneDayAgo)
      invariant postedThisWeek == CountAfter(posted[..i], oneWeekAgo)
      invariant bySubreddit == Tally(posted[..i])
    {
      var post := posted[i];
      assert posted[..i + 1][..i] == posted[..i];
      var postedTime := PostedTime(post);
      if postedTime > oneDayAgo {
        postedToday := postedToday + 1;
      }
      if postedTime > oneWeekAgo {
        postedThisWeek := postedThisWeek + 1;
      }
      bySubreddit := bySubreddit[post.subreddit := (if post.subreddit in bySubreddit then bySubreddit[post.subreddit] else 0) + 1];
      i := i + 1;
    }
    assert posted[..i] == posted;
    stats := Stats(|posted|, postedToday, postedThisWeek, bySubreddit);
  }

  // ---- the windows ----

  /** The positions of the posts posted strictly after `cutoff`. */
  ghost function CountedIndices(posted: seq<Post>, cutoff: int): set<nat> {
    set i: nat | i < |posted| && PostedTime(posted[i]) > cutoff
  }

  /** The count is the number of positions whose post is after the cutoff. */
  lemma {:induction false} CountAfterCountsIndices(posted: seq<Post>, cutoff: int)
    ensures CountAfter(posted, cutoff) == |CountedIndices(posted, cutoff)|
    decreases |posted|
  {
    if posted != [] {
      var n := |posted| - 1;
      var init := posted[..n];
      CountAfterCountsIndices(init, cutoff);
      var added: set<nat> := if PostedTime(posted[n]) > cutoff then {n} else {};
      assert CountedIndices(posted, cutoff) == CountedIndices(init, cutoff) + added;
      assert n !in CountedIndices(init, cutoff);
    }
  }

  /** A later cutoff counts no more posts, and no count exceeds the number of posts. */
  lemma {:induction false} CountAfterMonotone(posted: seq<Post>, early: int, late: int)
    requires early <= late
    ensures CountAfter(posted, late) <= CountAfter(posted, early) <= |posted|
    decreases |posted|
  {
    if posted != [] {
      CountAfterMonotone(posted[..|posted| - 1], early, late);
    }
  }

  /** `postedToday <= postedThisWeek <= totalPosted`, and the total is the length of the history. */
  lemma StatsWindows(posted: seq<Post>, now: int)
    ensures StatsOf(posted, now).totalPosted == |posted|
    ensures StatsOf(posted, now).postedToday <= StatsOf(posted, now).postedThisWeek <= StatsOf(posted, now).totalPosted
  {
    CountAfterMonotone(posted, now - WeekMs, now - DayMs);
  }

  /**
   * Once the clock is past the first week, a post is counted in a window
   * exactly when it has a `posted_at` strictly after the window's start: a
   * post without one, or one posted exactly at the start, is not.
   */
  lemma CountedInWindow(posted: seq<Post>, now: int, i: nat)
    requires i < |posted| && now >= WeekMs
    ensures i in CountedIndices(posted, now - DayMs) <==> posted[i].postedAt.Some? && posted[i].postedAt.value > now - DayMs
    ensures i in CountedIndices(posted, now - WeekMs) <==> posted[i].postedAt.Some? && posted[i].postedAt.value > now - WeekMs
  {
  }

  // ---- the per-subreddit counts ----

  /** The subreddits of the history, in order. */
  function SubredditList(posted: seq<Post>): (names: seq<string>)
    ensures |names| == |posted|
    ensures forall i :: 0 <= i < |posted| ==> names[i] == posted[i].subreddit
  {
    seq(|posted|, i requires 0 <= i < |posted| => posted[i].subreddit)
  }

  /** The keys of the tally are exactly the subreddits of the history. */
  lemma {:induction false} TallyKeys(posted: seq<Post>)
    ensures Tally(posted).Keys == SubredditsOf(posted)
    decreases |posted|
  {
    if posted != [] {
      var n := |posted| - 1;
      TallyKeys(posted[..n]);
      assert SubredditsOf(posted) == SubredditsOf(posted[..n]) + {posted[n].subreddit} by {
        forall s | s in SubredditsOf(posted) ensures s in SubredditsOf(posted[..n]) + {posted[n].subreddit} {
          var i :| 0 <= i < |posted| && posted[i].subreddit == s;
          if i < n {
            assert posted[..n][i] == posted[i];
          }
        }
        forall s | s in SubredditsOf(posted[..n]) ensures s in SubredditsOf(posted) {
          var i :| 0 <= i < n && posted[..n][i].subreddit == s;
          assert posted[i].subreddit == s;
        }
      }
    }
  }

  /** Each subreddit's count is the number of posts in the history from that subreddit. */
  lemma {:induction false} TallyCounts(posted: seq<Post>, s: string)
    ensures s in Tally(posted) ==> Tally(posted)[s] == multiset(SubredditList(posted))[s]
    ensures s !in Tally(posted) ==> multiset(SubredditList(posted))[s] == 0
    decreases |posted|
  {
    if posted != [] {
      var n := |posted| - 1;
      TallyCounts(posted[..n], s);
      assert SubredditList(posted) == SubredditList(posted[..n]) + [posted[n].subreddit];
    }
  }

  /** The sum of a map's values. */
  ghost function MapSum(m: map<string, nat>): nat
    decreases |m.Keys|
  {
    if m == map[] then 0
    else
      var k :| k in m;
      m[k] + MapSum(m - {k})
  }

  /** The sum is any one value plus the sum of the rest. */
  lemma {:induction false} MapSumRemove(m: map<string, nat>, k: string)
    requires k in m
    ensures MapSum(m) == m[k] + MapSum(m - {k})
    decreases |m.Keys|
  {
    var j :| j in m && MapSum(m) == m[j] + MapSum(m - {j});
    if j != k {
      MapSumRemove(m - {j}, k);
      MapSumRemove(m - {k}, j);
      assert (m - {j}) - {k} == (m - {k}) - {j};
    }
  }

  /** Counting one more post for a subreddit adds one to the sum. */
  lemma MapSumIncrement(m: map<string, nat>, s: string)
    ensures MapSum(m[s := (if s in m then m[s] else 0) + 1]) == MapSum(m) + 1
  {
    var m' := m[s := (if s in m then m[s] else 0) + 1];
    MapSumRemove(m', s);
    if s in m {
      MapSumRemove(m, s);
      assert m' - {s} == m - {s};
    } else {
      assert m' - {s} == m;
    }
  }

  /** The per-subreddit counts add up to the number of posts in the history. */
  lemma {:induction false} TallySum(posted: seq<Post>)
    ensures MapSum(Tally(posted)) == |posted|
    decreases |posted|
  {
    if posted != [] {
      var n := |posted| - 1;
      TallySum(posted[..n]);
      MapSumIncrement(Tally(posted[..n]), posted[n].subreddit);
    }
  }

  // ---- `timeAgo` ----

  /** The whole seconds from `timestamp` (seconds) to `nowMs` (milliseconds), rounded down. */
  function ElapsedSeconds(nowMs: int, timestamp: int): int {
    nowMs / 1000 - timestamp
  }

  /** `timeAgo`: minutes below an hour, hours below a day, days otherwise. */
  function TimeAgo(nowMs: int, timestamp: int): (text: string)
    ensures |text| >= 2
  {
    var seconds := ElapsedSeconds(nowMs, timestamp);
    if seconds < 3600 then DecimalString(seconds / 60) + "m"
    else if seconds < 86400 then DecimalString(seconds / 3600) + "h"
    else DecimalString(seconds / 86400) + "d"
  }

  /** Whether the text's last character, and the number before it, read back as `amount` in `unit`. */
  predicate Reads(text: string, amount: int, unit: char) {
    |text| >= 2
    && text[|text| - 1] == unit
    && var digits := text[..|text| - 1];
       (digits[0] == '-' || '0' <= digits[0] <= '9')
       && (forall i :: 0 < i < |digits| ==> '0' <= digits[i] <= '9')
       && DecimalValue(digits) == amount
  }

  /**
   * The text reads back as the elapsed time in the unit of its bucket,
   * rounded down: minutes below 3600 seconds, hours below 86400, days
   * otherwise. A text for a time in the past has 0 to 59 minutes, 1 to 23
   * hours, or at least one day.
   */
  lemma TimeAgoReads(nowMs: int, timestamp: int)
    ensures var s := ElapsedSeconds(nowMs, timestamp);
            s < 3600 ==> Reads(TimeAgo(nowMs, timestamp), s / 60, 'm') && (s >= 0 ==> 0 <= s / 60 < 60)
    ensures var s := ElapsedSeconds(nowMs, timestamp);
            3600 <= s < 86400 ==> Reads(TimeAgo(nowMs, timestamp), s / 3600, 'h') && 1 <= s / 3600 < 24
    ensures var s := ElapsedSeconds(nowMs, timestamp);
            86400 <= s ==> Reads(TimeAgo(nowMs, timestamp), s / 86400, 'd') && 1 <= s / 86400
  {
    var s := ElapsedSeconds(nowMs, timestamp);
    if s < 3600 {
      DecimalReads(s / 60, 'm');
    } else if s < 86400 {
      DecimalReads(s / 3600, 'h');
    } else {
      DecimalReads(s / 86400, 'd');
    }
  }

  /** A number written in decimal and followed by a unit reads back as that number in that unit. */
  lemma DecimalReads(amount: int, unit: char)
    ensures Reads(DecimalString(amount) + [unit], amount, unit)
  {
    DecimalRoundTrip(amount);
    var text := DecimalString(amount) + [unit];
    assert text[..|text| - 1] == DecimalString(amount);
  }

  /** The amount in the text is the elapsed time rounded down to its unit. */
  lemma TimeAgoRoundsDown(nowMs: int, timestamp: int)
    ensures var s := ElapsedSeconds(nowMs, timestamp);
            (s < 3600 ==> (s / 60) * 60 <= s < (s / 60 + 1) * 60)
            && (3600 <= s < 86400 ==> (s / 3600) * 3600 <= s < (s / 3600 + 1) * 3600)
            && (86400 <= s ==> (s / 86400) * 86400 <= s < (s / 86400 + 1) * 86400)
  {
  }
}
