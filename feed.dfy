/**
 * The per-feed part of the fetcher: the two regular-expression extractors
 * and the mapping of a parsed RSS feed to posts (`fetchFeed`).
 */
module Feed {
  import opened Wrappers
  import opened Text
  import opened Posts

  /** The host part shared by every feed address. */
  const RedditHost: string := "https://www.reddit.com"

  /** The subreddits of the nine feeds, in the order they are fetched. */
  const FeedSubreddits: seq<string> := [
    "technology", "programming", "technews", "MachineLearning", "artificial",
    "netsec", "futurology", "cybersecurity", "gadgets"
  ]

  /** The address of the feed of a subreddit's daily top posts. */
  function FeedUrl(subreddit: string): string {
    RedditHost + "/r/" + subreddit + "/top/.rss?t=day"
  }

  /** The nine feed addresses. */
  const RssFeeds: seq<string> := [
    FeedUrl("technology"), FeedUrl("programming"), FeedUrl("technews"),
    FeedUrl("MachineLearning"), FeedUrl("artificial"), FeedUrl("netsec"),
    FeedUrl("futurology"), FeedUrl("cybersecurity"), FeedUrl("gadgets")
  ]

  /** At most this many entries are taken from each feed. */
  const PostsPerSubreddit: nat := 6

  // ---- getSubredditFromUrl: the first match of /\/r\/([^/]+)\// ----

  /** `"/r/" + name + "/"` occurs at `p`, with `name` a non-empty run of characters other than '/'. */
  ghost predicate SubredditPathAt(s: string, p: nat, name: string) {
    && name != [] && (forall j :: 0 <= j < |name| ==> name[j] != '/')
    && p + 3 + |name| < |s|
    && s[p] == '/' && s[p + 1] == 'r' && s[p + 2] == '/'
    && s[p + 3..p + 3 + |name|] == name && s[p + 3 + |name|] == '/'
  }

  /** The first '/' at or after `i`. */
  function NextSlash(s: string, i: nat): (r: Option<nat>)
    requires i <= |s|
    ensures r.Some? ==> i <= r.value < |s| && s[r.value] == '/'
    ensures forall j :: i <= j < |s| && (r.None? || j < r.value) ==> s[j] != '/'
    decreases |s| - i
  {
    if i == |s| then None else if s[i] == '/' then Some(i) else NextSlash(s, i + 1)
  }

  /** The capture of the match that starts at `p`, if one does. */
  function SubredditMatchAt(s: string, p: nat): (r: Option<string>)
    requires p <= |s|
  {
    if p + 3 <= |s| && s[p] == '/' && s[p + 1] == 'r' && s[p + 2] == '/' then
      match NextSlash(s, p + 3)
      case Some(q) => if q > p + 3 then Some(s[p + 3..q]) else None
      case None => None
    else None
  }

  /** A match starts at `p` exactly when `SubredditPathAt` holds there, and its capture is the name. */
  lemma SubredditMatchAtSpec(s: string, p: nat)
    requires p <= |s|
    ensures SubredditMatchAt(s, p).Some? ==> SubredditPathAt(s, p, SubredditMatchAt(s, p).value)
    ensures forall name :: SubredditPathAt(s, p, name) ==> SubredditMatchAt(s, p) == Some(name)
  {
    forall name | SubredditPathAt(s, p, name) ensures SubredditMatchAt(s, p) == Some(name) {
      var q := p + 3 + |name|;
      assert forall j :: p + 3 <= j < q ==> s[j] == name[j - p - 3];
      assert NextSlash(s, p + 3) == Some(q);
    }
  }

  /** The position of the leftmost match at or after `p`. */
  function FirstSubredditMatch(s: string, p: nat): (r: Option<nat>)
    requires p <= |s|
    ensures r.Some? ==> p <= r.value <= |s| && SubredditMatchAt(s, r.value).Some?
    ensures forall j :: p <= j <= |s| && (r.None? || j < r.value) ==> SubredditMatchAt(s, j).None?
    decreases |s| - p
  {
    if SubredditMatchAt(s, p).Some? then Some(p)
    else if p == |s| then None
    else FirstSubredditMatch(s, p + 1)
  }

  /** `getSubredditFromUrl`. */
  function GetSubredditFromUrl(feedUrl: string): string {
    match FirstSubredditMatch(feedUrl, 0)
    case Some(i) => SubredditMatchAt(feedUrl, i).value
    case None => "unknown"
  }

  /**
   * `getSubredditFromUrl` returns the segment of the leftmost `/r/<segment>/`,
   * or "unknown" when the address holds none.
   */
  lemma GetSubredditFromUrlSpec(s: string)
    ensures (forall p: nat, name :: !SubredditPathAt(s, p, name)) ==> GetSubredditFromUrl(s) == "unknown"
    ensures forall p: nat, name ::
              SubredditPathAt(s, p, name) && (forall q: nat, other :: q < p ==> !SubredditPathAt(s, q, other))
              ==> GetSubredditFromUrl(s) == name
  {
    var r := FirstSubredditMatch(s, 0);
    if r.Some? {
      var i := r.value;
      SubredditMatchAtSpec(s, i);
      forall p: nat, name | SubredditPathAt(s, p, name) && (forall q: nat, other :: q < p ==> !SubredditPathAt(s, q, other))
        ensures GetSubredditFromUrl(s) == name
      {
        SubredditMatchAtSpec(s, p);
        assert !(i < p);
      }
    } else {
      forall p: nat, name | SubredditPathAt(s, p, name) ensures false {
        SubredditMatchAtSpec(s, p);
      }
    }
  }

  lemma {:induction false} SkipToMatch(s: string, p: nat, q: nat)
    requires p <= q <= |s|
    requires forall i :: p <= i < q ==> SubredditMatchAt(s, i).None?
    ensures FirstSubredditMatch(s, p) == FirstSubredditMatch(s, q)
    decreases q - p
  {
    if p < q {
      SkipToMatch(s, p + 1, q);
    }
  }

  /** Every feed address names its subreddit: the i-th feed gives the i-th subreddit. */
  lemma FeedSubredditNames(i: nat)
    requires i < |RssFeeds|
    ensures |FeedSubreddits| == |RssFeeds|
    ensures GetSubredditFromUrl(RssFeeds[i]) == FeedSubreddits[i]
  {
    FeedNameShape(i);
    SubredditAfterHost(FeedSubreddits[i], "/top/.rss?t=day");
  }

  lemma FeedNameShape(i: nat)
    requires i < |FeedSubreddits|
    ensures FeedSubreddits[i] != [] && forall j :: 0 <= j < |FeedSubreddits[i]| ==> FeedSubreddits[i][j] != '/'
  {
    if i == 0 {
      assert FeedSubreddits[0] == ['t', 'e', 'c', 'h', 'n', 'o', 'l', 'o', 'g', 'y'];
    } else if i == 1 {
      assert FeedSubreddits[1] == ['p', 'r', 'o', 'g', 'r', 'a', 'm', 'm', 'i', 'n', 'g'];
    } else if i == 2 {
      assert FeedSubreddits[2] == ['t', 'e', 'c', 'h', 'n', 'e', 'w', 's'];
    } else if i == 3 {
      assert FeedSubreddits[3] == ['M', 'a', 'c', 'h', 'i', 'n', 'e', 'L', 'e', 'a', 'r', 'n', 'i', 'n', 'g'];
    } else if i == 4 {
      assert FeedSubreddits[4] == ['a', 'r', 't', 'i', 'f', 'i', 'c', 'i', 'a', 'l'];
    } else if i == 5 {
      assert FeedSubreddits[5] == ['n', 'e', 't', 's', 'e', 'c'];
    } else if i == 6 {
      assert FeedSubreddits[6] == ['f', 'u', 't', 'u', 'r', 'o', 'l', 'o', 'g', 'y'];
    } else if i == 7 {
      assert FeedSubreddits[7] == ['c', 'y', 'b', 'e', 'r', 's', 'e', 'c', 'u', 'r', 'i', 't', 'y'];
    } else {
      assert FeedSubreddits[8] == ['g', 'a', 'd', 'g', 'e', 't', 's'];
    }
  }

  lemma SubredditAfterHost(name: string, tail: string)
    requires name != [] && forall j :: 0 <= j < |name| ==> name[j] != '/'
    requires tail != [] && tail[0] == '/'
    ensures GetSubredditFromUrl(RedditHost + "/r/" + name + tail) == name
  {
    var s := RedditHost + "/r/" + name + tail;
    var h := |RedditHost|;
    assert RedditHost == ['h','t','t','p','s',':','/','/','w','w','w','.','r','e','d','d','i','t','.','c','o','m'];
    forall i | 0 <= i < h ensures SubredditMatchAt(s, i).None? {
      assert s[i] == RedditHost[i];
      assert i + 1 < h ==> s[i + 1] == RedditHost[i + 1];
      assert i + 1 == h ==> s[i + 1] == '/';
    }
    SkipToMatch(s, 0, h);
    assert SubredditPathAt(s, h, name);
    SubredditMatchAtSpec(s, h);
  }

  // ---- extractPostId: the first match of /comments\/([a-z0-9]+)/i ----

  /** "comments/" in any mix of ASCII case, then a maximal non-empty run of ASCII letters and digits `id`. */
  ghost predicate CommentsIdAt(s: string, p: nat, id: string) {
    && id != [] && (forall j :: 0 <= j < |id| ==> IsAsciiAlnum(id[j]))
    && p + 9 + |id| <= |s|
    && ToLowerCase(s[p..p + 9]) == "comments/"
    && s[p + 9..p + 9 + |id|] == id
    && (p + 9 + |id| == |s| || !IsAsciiAlnum(s[p + 9 + |id|]))
  }

  /** The end of the run of ASCII letters and digits that starts at `i`. */
  function AlnumRunEnd(s: string, i: nat): (q: nat)
    requires i <= |s|
    ensures i <= q <= |s|
    ensures forall j :: i <= j < q ==> IsAsciiAlnum(s[j])
    ensures q == |s| || !IsAsciiAlnum(s[q])
    decreases |s| - i
  {
    if i == |s| || !IsAsciiAlnum(s[i]) then i else AlnumRunEnd(s, i + 1)
  }

  /** The capture of the match that starts at `p`, if one does (the `+` is greedy). */
  function PostIdMatchAt(s: string, p: nat): (r: Option<string>)
    requires p <= |s|
  {
    if p + 9 <= |s| && ToLowerCase(s[p..p + 9]) == "comments/" then
      var q := AlnumRunEnd(s, p + 9);
      if q > p + 9 then Some(s[p + 9..q]) else None
    else None
  }

  /** A match starts at `p` exactly when `CommentsIdAt` holds there, and its capture is the id. */
  lemma PostIdMatchAtSpec(s: string, p: nat)
    requires p <= |s|
    ensures PostIdMatchAt(s, p).Some? ==> CommentsIdAt(s, p, PostIdMatchAt(s, p).value)
    ensures forall id :: CommentsIdAt(s, p, id) ==> PostIdMatchAt(s, p) == Some(id)
  {
    forall id | CommentsIdAt(s, p, id) ensures PostIdMatchAt(s, p) == Some(id) {
      var q := p + 9 + |id|;
      assert forall j :: p + 9 <= j < q ==> s[j] == id[j - p - 9];
      AlnumRunEndIsEnd(s, p + 9, q);
    }
  }

  lemma {:induction false} AlnumRunEndIsEnd(s: string, i: nat, q: nat)
    requires i <= q <= |s|
    requires forall j :: i <= j < q ==> IsAsciiAlnum(s[j])
    requires q == |s| || !IsAsciiAlnum(s[q])
    ensures AlnumRunEnd(s, i) == q
    decreases q - i
  {
    if i < q {
      AlnumRunEndIsEnd(s, i + 1, q);
    }
  }

  /** The position of the leftmost match at or after `p`. */
  function FirstPostIdMatch(s: string, p: nat): (r: Option<nat>)
    requires p <= |s|
    ensures r.Some? ==> p <= r.value <= |s| && PostIdMatchAt(s, r.value).Some?
    ensures forall j :: p <= j <= |s| && (r.None? || j < r.value) ==> PostIdMatchAt(s, j).None?
    decreases |s| - p
  {
    if PostIdMatchAt(s, p).Some? then Some(p)
    else if p == |s| then None
    else FirstPostIdMatch(s, p + 1)
  }

  /** `extractPostId`. */
  function ExtractPostId(link: string): string {
    match FirstPostIdMatch(link, 0)
    case Some(i) => PostIdMatchAt(link, i).value
    case None => link
  }

  /**
   * `extractPostId` returns the letters and digits after the leftmost
   * "comments/" (in any case) that is followed by one, or the whole link
   * when there is no such place.
   */
  lemma ExtractPostIdSpec(s: string)
    ensures (forall p: nat, id :: !CommentsIdAt(s, p, id)) ==> ExtractPostId(s) == s
    ensures forall p: nat, id ::
              CommentsIdAt(s, p, id) && (forall q: nat, other :: q < p ==> !CommentsIdAt(s, q, other))
              ==> ExtractPostId(s) == id
  {
    var r := FirstPostIdMatch(s, 0);
    if r.Some? {
      var i := r.value;
      PostIdMatchAtSpec(s, i);
      forall p: nat, id | CommentsIdAt(s, p, id) && (forall q: nat, other :: q < p ==> !CommentsIdAt(s, q, other))
        ensures ExtractPostId(s) == id
      {
        PostIdMatchAtSpec(s, p);
        assert !(i < p);
      }
    } else {
      forall p: nat, id | CommentsIdAt(s, p, id) ensures false {
        PostIdMatchAtSpec(s, p);
      }
    }
  }

  // ---- fetchFeed: parsed entries to posts ----

  /** One parsed RSS entry; `pubDateSeconds` is `pubDate` already converted to whole seconds. */
  datatype FeedEntry = FeedEntry(title: Option<string>, link: Option<string>, pubDateSeconds: Option<int>)

  /** What fetching and parsing one feed produced: its entries, or a failure of either step. */
  datatype FeedResult = Parsed(entries: seq<FeedEntry>) | Failed

  /** `value || fallback`: an absent or empty string gives the fallback. */
  function OrElse(value: Option<string>, fallback: string): (r: string)
    ensures value.Some? && value.value != "" ==> r == value.value
    ensures value.None? || value.value == "" ==> r == fallback
  {
    if value.Some? && value.value != "" then value.value else fallback
  }

  /** The post made from the entry at position `index` of a feed. */
  function EntryToPost(entry: FeedEntry, subreddit: string, index: nat): Post {
    var link := OrElse(entry.link, "");
    Post(
      id := ExtractPostId(link),
      title := OrElse(entry.title, "Untitled"),
      subreddit := subreddit,
      score := 0,
      numComments := 0,
      url := link,
      createdUtc := entry.pubDateSeconds.GetOr(0),
      permalink := link,
      postedAt := None,
      trending := false,
      trendingCount := None,
      subredditRank := Some(index + 1))
  }

  /** `fetchFeed` after the network and the parser: the first six entries, ranked from 1. */
  function FetchFeed(feedUrl: string, result: FeedResult): (posts: seq<Post>)
    ensures result.Failed? ==> posts == []
    ensures result.Parsed? ==>
              |posts| == (if |result.entries| < PostsPerSubreddit then |result.entries| else PostsPerSubreddit)
    ensures forall i :: 0 <= i < |posts| ==>
              && posts[i].subredditRank == Some(i + 1)
              && posts[i].subreddit == GetSubredditFromUrl(feedUrl)
              && posts[i].score == 0 && posts[i].numComments == 0
              && posts[i].url == posts[i].permalink == OrElse(result.entries[i].link, "")
              && posts[i].title == OrElse(result.entries[i].title, "Untitled") && posts[i].title != ""
              && !posts[i].trending && posts[i].trendingCount.None?
              && posts[i].id == ExtractPostId(OrElse(result.entries[i].link, ""))
              && posts[i].createdUtc == result.entries[i].pubDateSeconds.GetOr(0)
              && posts[i].postedAt.None?
  {
    match result
    case Failed => []
    case Parsed(entries) =>
      var subreddit := GetSubredditFromUrl(feedUrl);
      var top := if |entries| < PostsPerSubreddit then entries else entries[..PostsPerSubreddit];
      seq(|top|, i requires 0 <= i < |top| => EntryToPost(top[i], subreddit, i))
  }
}
