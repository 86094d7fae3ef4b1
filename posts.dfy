/** The post record shared by the fetcher, the store and the dashboard. */
module Posts {
  import opened Wrappers

  /**
   * One post. `createdUtc` is in seconds, `postedAt` in milliseconds since
   * the epoch (the store's ISO date string, already converted). An absent
   * `trending` flag is `false`; the other optional fields are `Option`s.
   */
  datatype Post = Post(
    id: string,
    title: string,
    subreddit: string,
    score: int,
    numComments: int,
    url: string,
    createdUtc: int,
    permalink: string,
    postedAt: Option<int>,
    trending: bool,
    trendingCount: Option<int>,
    subredditRank: Option<int>)

  /** `post.subredditRank || 99`: a missing rank and a rank of 0 both count as 99. */
  function RankOr99(p: Post): (r: int)
    ensures p.subredditRank.Some? && p.subredditRank.value != 0 ==> r == p.subredditRank.value
    ensures p.subredditRank.None? || p.subredditRank.value == 0 ==> r == 99
  {
    match p.subredditRank
    case Some(rank) => if rank != 0 then rank else 99
    case None => 99
  }

  /** The set of subreddits that occur in `posts`. */
  function SubredditsOf(posts: seq<Post>): set<string> {
    set i | 0 <= i < |posts| :: posts[i].subreddit
  }
}
