/**
 * `fetchRedditPosts`: the posts of every feed, in feed order, go through
 * trending detection and deduplication, are sorted trending first, then by
 * rank, then newest first, and the first 25 are returned. The feeds' answers
 * are a parameter, one per entry of `RSS_FEEDS`.
 */
module Pipeline {
  import opened Posts
  import opened Sorting
  import opened Topic
  import opened Feed
  import opened Trending
  import opened Dedup

  /** `TARGET_POSTS`. */
  const TargetPosts: nat := 25

  /** The comparator of the final sort: trending first, then by rank (missing or zero as 99), then newest first. */
  function FinalCompare(a: Post, b: Post): int {
    if a.trending && !b.trending then -1
    else if !a.trending && b.trending then 1
    else if RankOr99(a) - RankOr99(b) != 0 then RankOr99(a) - RankOr99(b)
    else b.createdUtc - a.createdUtc
  }

  /** `a` may come right before `b`: trending first, then lower rank, then at least as new. */
  predicate FinalOrder(a: Post, b: Post) {
    (a.trending || !b.trending)
    && (a.trending == b.trending ==>
          RankOr99(a) < RankOr99(b) || (RankOr99(a) == RankOr99(b) && a.createdUtc >= b.createdUtc))
  }

  /** The comparator puts `a` no later than `b` exactly when they are in final order. */
  lemma FinalCompareOrder(a: Post, b: Post)
    ensures FinalCompare(a, b) <= 0 <==> FinalOrder(a, b)
  {
  }

  lemma FinalCompareAntisymmetric()
    ensures Antisymmetric(FinalCompare)
  {
  }

  /** `allPostsArrays.flat()` for the first `|results|` feeds. */
  function AllPosts(results: seq<FeedResult>): seq<Post>
    requires |results| <= |RssFeeds|
    decreases |results|
  {
    if results == [] then []
    else AllPosts(results[..|results| - 1]) + FetchFeed(RssFeeds[|results| - 1], results[|results| - 1])
  }

  /** The first `TargetPosts` posts, or all of them when there are fewer. */
  function FirstTarget(posts: seq<Post>): (r: seq<Post>)
    ensures |r| == if |posts| <= TargetPosts then |posts| else TargetPosts
    ensures r == posts[..|r|]
  {
    if |posts| <= TargetPosts then posts else posts[..TargetPosts]
  }

  /** `fetchRedditPosts` as a function of what the feeds returned. */
  function RedditPosts(results: seq<FeedResult>): seq<Post>
    requires |results| == |RssFeeds|
  {
    FirstTarget(SortBy(Deduplicated(WithTrending(AllPosts(results))), FinalCompare))
  }

  /** `fetchRedditPosts`, with the feeds' answers given. */
  method FetchRedditPosts(results: seq<FeedResult>) returns (posts: seq<Post>)
    requires |results| == |RssFeeds|
    ensures posts == RedditPosts(results)
    ensures |posts| <= TargetPosts
  {
    var allPosts := AllPosts(results);
    var withTrending := DetectTrending(allPosts);
    var uniquePosts := DeduplicatePosts(withTrending);
    uniquePosts := SortBy(uniquePosts, FinalCompare);
    posts := FirstTarget(uniquePosts);
  }

  // ---- what the feeds contribute ----

  /** The subreddits named in `RSS_FEEDS`. */
  ghost function FeedSubredditSet(): set<string> {
    set s | s in FeedSubreddits
  }

  /** A post as a feed hands it over: not trending, and from one of the feeds' subreddits. */
  ghost predicate FromFeed(p: Post) {
    !p.trending && p.trendingCount.None? && p.subreddit in FeedSubredditSet()
  }

  /** Every post of the feeds is untouched by trending detection and comes from a feed's subreddit. */
  lemma {:induction false} AllPostsFromFeeds(results: seq<FeedResult>)
    requires |results| <= |RssFeeds|
    ensures forall i :: 0 <= i < |AllPosts(results)| ==> FromFeed(AllPosts(results)[i])
    decreases |results|
  {
    if results != [] {
      var n := |results| - 1;
      var before := AllPosts(results[..n]);
      var feed := FetchFeed(RssFeeds[n], results[n]);
      AllPostsFromFeeds(results[..n]);
      FeedSubredditNames(n);
      forall i | 0 <= i < |AllPosts(results)| ensures FromFeed(AllPosts(results)[i]) {
        if i < |before| {
          assert AllPosts(results)[i] == before[i];
        } else {
          assert AllPosts(results)[i] == feed[i - |before|];
        }
      }
    }
  }

  /** The posts of the feeds come from at most nine subreddits. */
  lemma AllPostsSubreddits(results: seq<FeedResult>)
    requires |results| <= |RssFeeds|
    ensures |SubredditsOf(AllPosts(results))| <= |FeedSubreddits|
  {
    var all := AllPosts(results);
    AllPostsFromFeeds(results);
    assert SubredditsOf(all) <= FeedSubredditSet() by {
      forall s | s in SubredditsOf(all) ensures s in FeedSubredditSet() {
        var i :| 0 <= i < |all| && all[i].subreddit == s;
        assert FromFeed(all[i]);
      }
    }
    SetOfSeqSize(FeedSubreddits);
    SubsetCard(SubredditsOf(all), FeedSubredditSet());
  }

  // ---- what `fetchRedditPosts` returns ----

  /** Every returned post is one of the deduplicated posts. */
  lemma RedditPostsFromDeduplicated(results: seq<FeedResult>)
    requires |results| == |RssFeeds|
    ensures forall k :: 0 <= k < |RedditPosts(results)| ==> RedditPosts(results)[k] in Deduplicated(WithTrending(AllPosts(results)))
  {
    var unique := Deduplicated(WithTrending(AllPosts(results)));
    var sorted := SortBy(unique, FinalCompare);
    SortByPermutes(unique, FinalCompare);
    forall k | 0 <= k < |RedditPosts(results)| ensures RedditPosts(results)[k] in unique {
      assert RedditPosts(results)[k] == sorted[k];
      assert sorted[k] in multiset(unique);
    }
  }

  /** The returned posts are in final order: trending first, then by rank, then newest first. */
  lemma RedditPostsOrdered(results: seq<FeedResult>)
    requires |results| == |RssFeeds|
    ensures var r := RedditPosts(results);
            |r| == if |Deduplicated(WithTrending(AllPosts(results)))| <= TargetPosts
                   then |Deduplicated(WithTrending(AllPosts(results)))| else TargetPosts
    ensures var r := RedditPosts(results);
            forall i :: 0 < i < |r| ==> FinalOrder(r[i - 1], r[i])
  {
    var sorted := SortBy(Deduplicated(WithTrending(AllPosts(results))), FinalCompare);
    var r := RedditPosts(results);
    FinalCompareAntisymmetric();
    SortBySorted(Deduplicated(WithTrending(AllPosts(results))), FinalCompare);
    forall i | 0 < i < |r| ensures FinalOrder(r[i - 1], r[i]) {
      assert r[i - 1] == sorted[i - 1] && r[i] == sorted[i];
      FinalCompareOrder(sorted[i - 1], sorted[i]);
    }
  }

  /** Two posts with different urls, on different topics. */
  predicate Apart(a: Post, b: Post) {
    a.url != b.url && !SameTopic(a.title, b.title)
  }

  /** The deduplicated posts are pairwise apart. */
  lemma DeduplicatedApart(posts: seq<Post>)
    ensures Pairwise(Deduplicated(posts), Apart)
  {
    DeduplicatedUrlsDistinct(posts);
    DeduplicatedTopicsDistinct(posts);
  }

  /** No two returned posts share a url or are on the same topic. */
  lemma RedditPostsDistinct(results: seq<FeedResult>)
    requires |results| == |RssFeeds|
    ensures Pairwise(RedditPosts(results), Apart)
  {
    var unique := Deduplicated(WithTrending(AllPosts(results)));
    DeduplicatedApart(WithTrending(AllPosts(results)));
    SortByPairwise(unique, FinalCompare, Apart);
    var sorted := SortBy(unique, FinalCompare);
    PairwisePrefix(sorted, |RedditPosts(results)|, Apart);
  }

  lemma PairwisePrefix<T>(s: seq<T>, n: nat, rel: (T, T) -> bool)
    requires n <= |s| && Pairwise(s, rel)
    ensures Pairwise(s[..n], rel)
  {
    forall i, j | 0 <= i < n && 0 <= j < n && i != j ensures rel(s[..n][i], s[..n][j]) {
      assert s[..n][i] == s[i] && s[..n][j] == s[j];
    }
  }

  /** A post is trending exactly when it carries a count, and the count lies between 2 and the number of feeds. */
  predicate CountedTrend(p: Post) {
    (p.trending <==> p.trendingCount.Some?)
    && (p.trendingCount.Some? ==> 2 <= p.trendingCount.value <= |FeedSubreddits|)
  }

  /** Every post out of trending detection is trending exactly when it has a count, within bounds. */
  lemma WithTrendingCounted(results: seq<FeedResult>)
    requires |results| == |RssFeeds|
    ensures forall i :: 0 <= i < |WithTrending(AllPosts(results))| ==> CountedTrend(WithTrending(AllPosts(results))[i])
  {
    var all := AllPosts(results);
    TrendingMarks(all);
    AllPostsFromFeeds(results);
    AllPostsSubreddits(results);
    forall i | 0 <= i < |WithTrending(all)| ensures CountedTrend(WithTrending(all)[i]) {
      assert KeptOrMarked(all[i], WithTrending(all)[i], |SubredditsOf(all)|);
      assert FromFeed(all[i]);
    }
  }

  /**
   * A returned post is trending exactly when it carries a count, and the
   * count lies between 2 and the number of feeds.
   */
  lemma RedditPostsTrendingCounts(results: seq<FeedResult>)
    requires |results| == |RssFeeds|
    ensures var r := RedditPosts(results);
            forall k :: 0 <= k < |r| ==>
              (r[k].trending <==> r[k].trendingCount.Some?)
              && (r[k].trendingCount.Some? ==> 2 <= r[k].trendingCount.value <= |FeedSubreddits|)
  {
    var marked := WithTrending(AllPosts(results));
    var r := RedditPosts(results);
    RedditPostsFromDeduplicated(results);
    DeduplicatedFromInput(marked);
    WithTrendingCounted(results);
    forall k | 0 <= k < |r| ensures CountedTrend(r[k]) {
      assert r[k] in Deduplicated(marked);
      var i :| 0 <= i < |marked| && marked[i] == r[k];
    }
  }
}
