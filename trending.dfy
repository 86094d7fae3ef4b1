/**
 * Trending detection (`detectTrending`): posts from different subreddits
 * about the same story are grouped; every post that matches the key of a
 * group holding two or more posts is marked trending with that group's size.
 *
 * Each post travels with the signature of its title (an `Entry`), so that
 * the grouping can be stated over signatures: `areSameTopic(a, b)` is
 * `SignaturesMatch(signature(a), signature(b))`, a group's key is the
 * signature of its first title, and a key is its own signature.
 */
module Trending {
  import opened Wrappers
  import opened Posts
  import opened Signature
  import opened Topic

  /** A post with the signature of its title. */
  datatype Entry = Entry(post: Post, sig: string)

  /**
   * One entry of the `topicGroups` map: its key and its posts, which are
   * never empty.
   */
  datatype Group = Group(key: string, first: Entry, others: seq<Entry>) {
    function Members(): seq<Entry> {
      [first] + others
    }

    function Size(): nat {
      1 + |others|
    }
  }

  /**
   * A test of two signatures for being on the same topic. The grouping is
   * stated for any such test; `detectTrending` uses `SignaturesMatch`.
   */
  type Matcher = (string, string) -> bool

  /** Every signature is on its own topic (true of `SignaturesMatch`). */
  ghost predicate Reflexive(matches: Matcher) {
    forall s :: matches(s, s)
  }

  /** One entry of the `trendingTopics` map. */
  datatype TrendingTopic = TrendingTopic(key: string, count: nat)

  /** The entry's signature is that of its post's title. */
  ghost predicate Signed(e: Entry) {
    e.sig == NormalizeForComparison(e.post.title)
  }

  /** The posts, each with the signature of its title. */
  function Entries(posts: seq<Post>): (es: seq<Entry>)
    ensures |es| == |posts|
    ensures forall i :: 0 <= i < |es| ==> es[i].post == posts[i]
  {
    seq(|posts|, i requires 0 <= i < |posts| => Entry(posts[i], NormalizeForComparison(posts[i].title)))
  }

  /** The posts of some entries. */
  function PostsOf(es: seq<Entry>): (posts: seq<Post>)
    ensures |posts| == |es|
    ensures forall k :: 0 <= k < |es| ==> posts[k] == es[k].post
  {
    seq(|es|, k requires 0 <= k < |es| => es[k].post)
  }

  /** `group.some(p => p.subreddit === subreddit)`. */
  predicate HasSubreddit(members: seq<Entry>, subreddit: string) {
    exists k :: 0 <= k < |members| && members[k].post.subreddit == subreddit
  }

  /**
   * The position of the first key that `matches` the signature `sig`: the
   * search both loops over a `Map` in insertion order make.
   */
  function FindKey(keys: seq<string>, sig: string, matches: Matcher): (r: Option<nat>)
    ensures r.Some? ==> r.value < |keys| && matches(sig, keys[r.value])
    ensures forall j :: 0 <= j < |keys| && (r.None? || j < r.value) ==> !matches(sig, keys[j])
  {
    if keys == [] then None
    else if matches(sig, keys[0]) then Some(0)
    else match FindKey(keys[1..], sig, matches)
      case Some(i) => Some(i + 1)
      case None => None
  }

  /** The keys of `topicGroups`, in insertion order. */
  function GroupKeys(groups: seq<Group>): seq<string> {
    seq(|groups|, j requires 0 <= j < |groups| => groups[j].key)
  }

  /** The first group (in insertion order) whose key `matches` the signature `sig`. */
  function FindGroup(groups: seq<Group>, sig: string, matches: Matcher): (r: Option<nat>)
    ensures r.Some? ==> r.value < |groups| && matches(sig, groups[r.value].key)
    ensures forall j :: 0 <= j < |groups| && (r.None? || j < r.value) ==> !matches(sig, groups[j].key)
  {
    assert forall j :: 0 <= j < |groups| ==> GroupKeys(groups)[j] == groups[j].key;
    FindKey(GroupKeys(groups), sig, matches)
  }

  /** One turn of the grouping loop. */
  function AddEntry(groups: seq<Group>, e: Entry, matches: Matcher): seq<Group> {
    match FindGroup(groups, e.sig, matches)
    case Some(i) =>
      if HasSubreddit(groups[i].Members(), e.post.subreddit) then groups
      else groups[i := groups[i].(others := groups[i].others + [e])]
    case None => groups + [Group(e.sig, e, [])]
  }

  /** `topicGroups` after the grouping loop has seen every entry. */
  function GroupEntries(es: seq<Entry>, matches: Matcher): seq<Group>
    decreases |es|
  {
    if es == [] then [] else AddEntry(GroupEntries(es[..|es| - 1], matches), es[|es| - 1], matches)
  }

  /** `trendingTopics`: the groups of two or more posts, in order, with their sizes. */
  function TrendingTopics(groups: seq<Group>): seq<TrendingTopic>
    decreases |groups|
  {
    if groups == [] then []
    else
      var last := groups[|groups| - 1];
      TrendingTopics(groups[..|groups| - 1]) + (if last.Size() >= 2 then [TrendingTopic(last.key, last.Size())] else [])
  }

  /** The keys of `trendingTopics`, in insertion order. */
  function TopicKeys(topics: seq<TrendingTopic>): seq<string> {
    seq(|topics|, j requires 0 <= j < |topics| => topics[j].key)
  }

  /** The first trending topic whose key `matches` the signature `sig`. */
  function FindTopic(topics: seq<TrendingTopic>, sig: string, matches: Matcher): (r: Option<nat>)
    ensures r.Some? ==> r.value < |topics| && matches(sig, topics[r.value].key)
    ensures forall j :: 0 <= j < |topics| && (r.None? || j < r.value) ==> !matches(sig, topics[j].key)
  {
    assert forall j :: 0 <= j < |topics| ==> TopicKeys(topics)[j] == topics[j].key;
    FindKey(TopicKeys(topics), sig, matches)
  }

  /** The callback of the final `posts.map`. */
  function Mark(e: Entry, topics: seq<TrendingTopic>, matches: Matcher): Post {
    match FindTopic(topics, e.sig, matches)
    case Some(i) => e.post.(trending := true, trendingCount := Some(topics[i].count))
    case None => e.post
  }

  /** Marks every entry against the trending topics of the grouping of all of them. */
  function MarkAll(es: seq<Entry>, matches: Matcher): seq<Post> {
    var topics := TrendingTopics(GroupEntries(es, matches));
    seq(|es|, i requires 0 <= i < |es| => Mark(es[i], topics, matches))
  }

  /** `detectTrending` as a function of its input. */
  function WithTrending(posts: seq<Post>): seq<Post> {
    MarkAll(Entries(posts), SignaturesMatch)
  }

  // ---- the source's loops ----

  /** The grouping loop of `detectTrending`. */
  method GroupByTopic(posts: seq<Post>) returns (groups: seq<Group>)
    ensures groups == GroupEntries(Entries(posts), SignaturesMatch)
  {
    ghost var es := Entries(posts);
    groups := [];
    for n := 0 to |posts|
      invariant groups == GroupEntries(es[..n], SignaturesMatch)
    {
      KeysAreTitleSignatures(posts, n);
      groups := PlacePost(groups, posts[n]);
      assert es[..n + 1][..n] == es[..n];
    }
    assert es[..|posts|] == es;
  }

  /** One turn of the grouping loop: the inner loop over `topicGroups` and what follows it. */
  method PlacePost(groups: seq<Group>, post: Post) returns (after: seq<Group>)
    requires forall i :: 0 <= i < |groups| ==> groups[i].key == NormalizeForComparison(groups[i].first.post.title)
    ensures after == AddEntry(groups, Entry(post, NormalizeForComparison(post.title)), SignaturesMatch)
  {
    var e := Entry(post, NormalizeForComparison(post.title));
    var i := 0;
    while i < |groups|
      invariant 0 <= i <= |groups|
      invariant FindKey(GroupKeys(groups)[..i], e.sig, SignaturesMatch).None?
    {
      var same := AreSameTopic(post.title, groups[i].first.post.title);
      FindKeyStep(GroupKeys(groups), i, e.sig, SignaturesMatch);
      if same {
        if !HasSubreddit(groups[i].Members(), post.subreddit) {
          return groups[i := groups[i].(others := groups[i].others + [e])];
        }
        return groups;
      }
      i := i + 1;
    }
    assert GroupKeys(groups)[..|groups|] == GroupKeys(groups);
    return groups + [Group(e.sig, e, [])];
  }

  /** The loop that builds `trendingTopics`. */
  method CollectTrendingTopics(groups: seq<Group>) returns (topics: seq<TrendingTopic>)
    ensures topics == TrendingTopics(groups)
  {
    topics := [];
    for n := 0 to |groups|
      invariant topics == TrendingTopics(groups[..n])
    {
      if groups[n].Size() >= 2 {
        topics := topics + [TrendingTopic(groups[n].key, groups[n].Size())];
      }
      assert groups[..n + 1][..n] == groups[..n];
    }
    assert groups[..|groups|] == groups;
  }

  /** The callback of `posts.map`, with its loop over `trendingTopics`. */
  method MarkPost(post: Post, topics: seq<TrendingTopic>) returns (marked: Post)
    requires forall t :: 0 <= t < |topics| ==> IsSignatureText(topics[t].key)
    ensures marked == Mark(Entry(post, NormalizeForComparison(post.title)), topics, SignaturesMatch)
  {
    ghost var sig := NormalizeForComparison(post.title);
    for i := 0 to |topics|
      invariant FindKey(TopicKeys(topics)[..i], sig, SignaturesMatch).None?
    {
      var same := AreSameTopic(post.title, topics[i].key);
      AgainstKey(post.title, topics[i].key);
      FindKeyStep(TopicKeys(topics), i, sig, SignaturesMatch);
      if same {
        return post.(trending := true, trendingCount := Some(topics[i].count));
      }
    }
    assert TopicKeys(topics)[..|topics|] == TopicKeys(topics);
    return post;
  }

  /**
   * `detectTrending`. Each post comes back unchanged or marked trending;
   * a marked post's count is at least 2 and at most the number of distinct
   * subreddits in the input, because a group never holds two posts of one
   * subreddit.
   */
  method DetectTrending(posts: seq<Post>) returns (result: seq<Post>)
    ensures result == WithTrending(posts)
    ensures |result| == |posts|
    ensures forall i :: 0 <= i < |posts| ==> KeptOrMarked(posts[i], result[i], |SubredditsOf(posts)|)
  {
    var groups := GroupByTopic(posts);
    var topics := CollectTrendingTopics(groups);
    TopicKeysAreSignatures(posts);
    result := MarkPosts(posts, topics);
    MarkAllIsMarked(Entries(posts), SignaturesMatch, result);
    TrendingMarks(posts);
  }

  /** The final `posts.map` of `detectTrending`. */
  method MarkPosts(posts: seq<Post>, topics: seq<TrendingTopic>) returns (result: seq<Post>)
    requires forall t :: 0 <= t < |topics| ==> IsSignatureText(topics[t].key)
    ensures |result| == |posts|
    ensures forall k :: 0 <= k < |posts| ==> result[k] == Mark(Entries(posts)[k], topics, SignaturesMatch)
  {
    result := [];
    for n := 0 to |posts|
      invariant MarksOf(result, posts[..n], topics)
    {
      var marked := MarkPost(posts[n], topics);
      MarksOfSnoc(result, posts, n, topics, marked);
      result := result + [marked];
    }
    assert posts[..|posts|] == posts;
    MarksOfEntries(result, posts, topics);
  }

  /** `result` holds the mark of each post of `posts`, in order. */
  ghost predicate MarksOf(result: seq<Post>, posts: seq<Post>, topics: seq<TrendingTopic>) {
    |result| == |posts|
    && forall k :: 0 <= k < |posts| ==>
         result[k] == Mark(Entry(posts[k], NormalizeForComparison(posts[k].title)), topics, SignaturesMatch)
  }

  lemma MarksOfSnoc(result: seq<Post>, posts: seq<Post>, n: nat, topics: seq<TrendingTopic>, marked: Post)
    requires n < |posts| && MarksOf(result, posts[..n], topics)
    requires marked == Mark(Entry(posts[n], NormalizeForComparison(posts[n].title)), topics, SignaturesMatch)
    ensures MarksOf(result + [marked], posts[..n + 1], topics)
  {
    var before := posts[..n];
    var after := posts[..n + 1];
    forall k | 0 <= k < |after|
      ensures (result + [marked])[k] == Mark(Entry(after[k], NormalizeForComparison(after[k].title)), topics, SignaturesMatch)
    {
      if k < n {
        assert after[k] == before[k];
      }
    }
  }

  lemma MarksOfEntries(result: seq<Post>, posts: seq<Post>, topics: seq<TrendingTopic>)
    requires MarksOf(result, posts, topics)
    ensures forall k :: 0 <= k < |posts| ==> result[k] == Mark(Entries(posts)[k], topics, SignaturesMatch)
  {
    forall k | 0 <= k < |posts| ensures result[k] == Mark(Entries(posts)[k], topics, SignaturesMatch) {
      EntryAt(posts, k);
    }
  }

  /** One step of the left-to-right search for the first matching key. */
  lemma FindKeyStep(keys: seq<string>, i: nat, sig: string, matches: Matcher)
    requires i < |keys|
    requires FindKey(keys[..i], sig, matches).None?
    ensures matches(sig, keys[i]) ==> FindKey(keys, sig, matches) == Some(i)
    ensures !matches(sig, keys[i]) ==> FindKey(keys[..i + 1], sig, matches).None?
  {
    var r := FindKey(keys, sig, matches);
    forall j | 0 <= j < i ensures !matches(sig, keys[j]) {
      assert keys[..i][j] == keys[j];
    }
    if matches(sig, keys[i]) {
      assert r.Some?;
    } else {
      var prefix := keys[..i + 1];
      forall j | 0 <= j <= i ensures !matches(sig, prefix[j]) {
        assert prefix[j] == keys[j];
      }
    }
  }

  // ---- bridging the titles the source compares and the signatures ----

  /** A string that is its own signature (every key is one). */
  ghost predicate IsSignatureText(s: string) {
    NormalizeForComparison(s) == s
  }

  /** The entry at position `i`: the post there, with its title's signature. */
  lemma EntryAt(posts: seq<Post>, i: nat)
    requires i < |posts|
    ensures Entries(posts)[i] == Entry(posts[i], NormalizeForComparison(posts[i].title))
  {
  }

  lemma EntriesSigned(posts: seq<Post>)
    ensures forall i :: 0 <= i < |posts| ==> Signed(Entries(posts)[i])
  {
  }

  /** Comparing a title with a key is comparing the title's signature with the key. */
  lemma AgainstKey(title: string, key: string)
    requires IsSignatureText(key)
    ensures SameTopic(title, key) == SignaturesMatch(NormalizeForComparison(title), key)
  {
  }

  lemma KeysAreTitleSignatures(posts: seq<Post>, n: nat)
    requires n <= |posts|
    ensures var groups := GroupEntries(Entries(posts)[..n], SignaturesMatch);
            forall i :: 0 <= i < |groups| ==> groups[i].key == NormalizeForComparison(groups[i].first.post.title)
  {
    var es := Entries(posts)[..n];
    EntriesSigned(posts);
    assert forall k :: 0 <= k < |es| ==> Signed(es[k]);
    forall i | 0 <= i < |GroupEntries(es, SignaturesMatch)| {
      FirstTitleGivesKey(es, i);
    }
  }

  /** The first title of a group has the group's key as its signature. */
  lemma FirstTitleGivesKey(es: seq<Entry>, i: nat)
    requires forall k :: 0 <= k < |es| ==> Signed(es[k])
    requires i < |GroupEntries(es, SignaturesMatch)|
    ensures GroupEntries(es, SignaturesMatch)[i].key == NormalizeForComparison(GroupEntries(es, SignaturesMatch)[i].first.post.title)
  {
    var groups := GroupEntries(es, SignaturesMatch);
    GroupEntriesFrom(es, SignaturesMatch);
    GroupEntriesKeys(es, SignaturesMatch);
    assert groups[i].Members()[0] == groups[i].first;
  }

  lemma TopicKeysAreSignatures(posts: seq<Post>)
    ensures var topics := TrendingTopics(GroupEntries(Entries(posts), SignaturesMatch));
            forall t :: 0 <= t < |topics| ==> IsSignatureText(topics[t].key)
  {
    var es := Entries(posts);
    var groups := GroupEntries(es, SignaturesMatch);
    var topics := TrendingTopics(groups);
    EntriesSigned(posts);
    TrendingTopicsAreLargeGroups(groups);
    forall t | 0 <= t < |topics| ensures IsSignatureText(topics[t].key) {
      var i :| 0 <= i < |groups| && groups[i].key == topics[t].key && groups[i].Size() == topics[t].count >= 2;
      FirstTitleGivesKey(es, i);
      NormalizeIdempotent(groups[i].first.post.title);
    }
  }

  // ---- what the grouping keeps true, for any reflexive matcher ----

  /** Every key is the signature of its group's first post. */
  ghost predicate KeysAreFirstSignatures(groups: seq<Group>) {
    forall i :: 0 <= i < |groups| ==> groups[i].key == groups[i].first.sig
  }

  /** No two groups share a key, so `topicGroups.set` never replaces a group. */
  ghost predicate KeysDistinct(groups: seq<Group>) {
    forall i, j :: 0 <= i < j < |groups| ==> groups[i].key != groups[j].key
  }

  /** No two posts of `members` come from the same subreddit. */
  ghost predicate DistinctSubreddits(members: seq<Entry>) {
    forall a, b :: 0 <= a < b < |members| ==> members[a].post.subreddit != members[b].post.subreddit
  }

  ghost predicate GroupsDistinctSubreddits(groups: seq<Group>) {
    forall i :: 0 <= i < |groups| ==> DistinctSubreddits(groups[i].Members())
  }

  /** Every post of every group comes from `es` and matches the group's key. */
  ghost predicate MembersFrom(groups: seq<Group>, es: seq<Entry>, matches: Matcher) {
    forall i, k :: 0 <= i < |groups| && 0 <= k < |groups[i].Members()| ==>
      groups[i].Members()[k] in es && matches(groups[i].Members()[k].sig, groups[i].key)
  }

  /** Some group matches the entry and holds a post of its subreddit. */
  ghost predicate Accounts(groups: seq<Group>, e: Entry, matches: Matcher) {
    exists i :: 0 <= i < |groups| && matches(e.sig, groups[i].key) && HasSubreddit(groups[i].Members(), e.post.subreddit)
  }

  /** `after` keeps every group of `groups`, with its key and its posts in order, and may add more. */
  ghost predicate Extends(groups: seq<Group>, after: seq<Group>) {
    |groups| <= |after| &&
    forall i :: 0 <= i < |groups| ==>
      after[i].key == groups[i].key && after[i].first == groups[i].first && groups[i].others <= after[i].others
  }

  lemma AddEntryExtends(groups: seq<Group>, e: Entry, matches: Matcher)
    ensures Extends(groups, AddEntry(groups, e, matches))
  {
  }

  /** A signature that matches none of the keys is not yet a key. */
  lemma NewKeyIsFresh(groups: seq<Group>, sig: string, matches: Matcher)
    requires Reflexive(matches)
    requires FindGroup(groups, sig, matches).None?
    ensures forall i :: 0 <= i < |groups| ==> groups[i].key != sig
  {
    forall i | 0 <= i < |groups| ensures groups[i].key != sig {
      assert matches(groups[i].key, groups[i].key);
    }
  }

  lemma AddEntryKeys(groups: seq<Group>, e: Entry, matches: Matcher)
    requires Reflexive(matches)
    requires KeysAreFirstSignatures(groups) && KeysDistinct(groups)
    ensures KeysAreFirstSignatures(AddEntry(groups, e, matches)) && KeysDistinct(AddEntry(groups, e, matches))
  {
    if FindGroup(groups, e.sig, matches).None? {
      NewKeyIsFresh(groups, e.sig, matches);
    }
  }

  lemma AddEntrySubreddits(groups: seq<Group>, e: Entry, matches: Matcher)
    requires GroupsDistinctSubreddits(groups)
    ensures GroupsDistinctSubreddits(AddEntry(groups, e, matches))
  {
    match FindGroup(groups, e.sig, matches)
    case Some(i) =>
      if !HasSubreddit(groups[i].Members(), e.post.subreddit) {
        var after := AddEntry(groups, e, matches);
        assert after[i].Members() == groups[i].Members() + [e];
        assert DistinctSubreddits(after[i].Members());
      }
    case None =>
  }

  lemma AddEntryMembers(groups: seq<Group>, es: seq<Entry>, e: Entry, matches: Matcher)
    requires Reflexive(matches)
    requires MembersFrom(groups, es, matches)
    ensures MembersFrom(AddEntry(groups, e, matches), es + [e], matches)
  {
    var after := AddEntry(groups, e, matches);
    forall i, k | 0 <= i < |after| && 0 <= k < |after[i].Members()|
      ensures after[i].Members()[k] in es + [e]
      ensures matches(after[i].Members()[k].sig, after[i].key)
    {
      match FindGroup(groups, e.sig, matches)
      case Some(g) =>
        if i == g && !HasSubreddit(groups[g].Members(), e.post.subreddit) {
          assert after[i].Members() == groups[g].Members() + [e];
          if k < |groups[g].Members()| {
            assert after[i].Members()[k] == groups[g].Members()[k];
          }
        } else {
          assert after[i] == groups[i];
        }
      case None =>
        if i < |groups| {
          assert after[i] == groups[i];
        } else {
          assert after[i].Members()[k] == e;
        }
    }
  }

  lemma AccountsKept(groups: seq<Group>, after: seq<Group>, x: Entry, matches: Matcher)
    requires Extends(groups, after)
    requires Accounts(groups, x, matches)
    ensures Accounts(after, x, matches)
  {
    var i :| 0 <= i < |groups| && matches(x.sig, groups[i].key) && HasSubreddit(groups[i].Members(), x.post.subreddit);
    var k :| 0 <= k < |groups[i].Members()| && groups[i].Members()[k].post.subreddit == x.post.subreddit;
    assert after[i].Members()[k] == groups[i].Members()[k];
  }

  lemma AccountsAdded(groups: seq<Group>, e: Entry, matches: Matcher)
    requires Reflexive(matches)
    ensures Accounts(AddEntry(groups, e, matches), e, matches)
  {
    var after := AddEntry(groups, e, matches);
    match FindGroup(groups, e.sig, matches)
    case Some(g) =>
      if HasSubreddit(groups[g].Members(), e.post.subreddit) {
        var k :| 0 <= k < |groups[g].Members()| && groups[g].Members()[k].post.subreddit == e.post.subreddit;
        assert after[g].Members()[k] == groups[g].Members()[k];
      } else {
        assert after[g].Members()[|after[g].Members()| - 1] == e;
      }
      assert HasSubreddit(after[g].Members(), e.post.subreddit);
    case None =>
      assert after[|groups|].Members()[0] == e;
      assert matches(e.sig, after[|groups|].key);
  }

  /** The grouping keeps every key distinct, each the first signature of its group, and each group's subreddits distinct. */
  lemma {:induction false} GroupEntriesKeys(es: seq<Entry>, matches: Matcher)
    requires Reflexive(matches)
    ensures KeysAreFirstSignatures(GroupEntries(es, matches)) && KeysDistinct(GroupEntries(es, matches))
    ensures GroupsDistinctSubreddits(GroupEntries(es, matches))
    decreases |es|
  {
    if es != [] {
      var init := es[..|es| - 1];
      GroupEntriesKeys(init, matches);
      AddEntryKeys(GroupEntries(init, matches), es[|es| - 1], matches);
      AddEntrySubreddits(GroupEntries(init, matches), es[|es| - 1], matches);
    }
  }

  /** Every post of every group comes from the input and matches its group's key. */
  lemma {:induction false} GroupEntriesFrom(es: seq<Entry>, matches: Matcher)
    requires Reflexive(matches)
    ensures MembersFrom(GroupEntries(es, matches), es, matches)
    decreases |es|
  {
    if es != [] {
      var init := es[..|es| - 1];
      GroupEntriesFrom(init, matches);
      AddEntryMembers(GroupEntries(init, matches), init, es[|es| - 1], matches);
      assert init + [es[|es| - 1]] == es;
    }
  }

  /**
   * Every input entry is accounted for: some group matches it and holds a
   * post of its subreddit (the entry itself, or the one that kept it out).
   */
  lemma {:induction false} GroupEntriesCover(es: seq<Entry>, matches: Matcher)
    requires Reflexive(matches)
    ensures forall k :: 0 <= k < |es| ==> Accounts(GroupEntries(es, matches), es[k], matches)
    decreases |es|
  {
    if es != [] {
      var init := es[..|es| - 1];
      var groups := GroupEntries(init, matches);
      GroupEntriesCover(init, matches);
      AddEntryExtends(groups, es[|es| - 1], matches);
      forall k | 0 <= k < |es| ensures Accounts(GroupEntries(es, matches), es[k], matches) {
        if k < |init| {
          assert es[k] == init[k];
          AccountsKept(groups, GroupEntries(es, matches), es[k], matches);
        } else {
          AccountsAdded(groups, es[k], matches);
        }
      }
    }
  }

  // ---- the trending topics ----

  /** Each trending topic is a group of two or more posts, and each such group is a trending topic. */
  lemma TrendingTopicsAreLargeGroups(groups: seq<Group>)
    ensures forall t :: 0 <= t < |TrendingTopics(groups)| ==> FromLargeGroup(groups, TrendingTopics(groups)[t])
    ensures forall i :: 0 <= i < |groups| && groups[i].Size() >= 2 ==> IsTopicKey(TrendingTopics(groups), groups[i].key)
  {
    TopicsAreLargeGroups(groups);
    LargeGroupsAreTopics(groups);
  }

  /** The topic is some group of two or more posts, with that group's key and size. */
  ghost predicate FromLargeGroup(groups: seq<Group>, topic: TrendingTopic) {
    exists i :: 0 <= i < |groups| && groups[i].key == topic.key && groups[i].Size() == topic.count >= 2
  }

  lemma {:induction false} TopicsAreLargeGroups(groups: seq<Group>)
    ensures forall t :: 0 <= t < |TrendingTopics(groups)| ==> FromLargeGroup(groups, TrendingTopics(groups)[t])
    decreases |groups|
  {
    if groups == [] {
      assert TrendingTopics(groups) == [];
    } else {
      var init := groups[..|groups| - 1];
      var last := groups[|groups| - 1];
      TopicsAreLargeGroups(init);
      var topics := TrendingTopics(groups);
      var before := TrendingTopics(init);
      assert topics == before + (if last.Size() >= 2 then [TrendingTopic(last.key, last.Size())] else []);
      forall t | 0 <= t < |topics|
        ensures FromLargeGroup(groups, topics[t])
      {
        if t < |before| {
          var i :| 0 <= i < |init| && init[i].key == before[t].key && init[i].Size() == before[t].count >= 2;
          assert groups[i] == init[i] && topics[t] == before[t];
        } else {
          assert topics[t] == TrendingTopic(last.key, last.Size());
          assert groups[|groups| - 1] == last;
        }
      }
    }
  }

  /** Some trending topic has this key. */
  ghost predicate IsTopicKey(topics: seq<TrendingTopic>, key: string) {
    exists t :: 0 <= t < |topics| && topics[t].key == key
  }

  lemma {:induction false} LargeGroupsAreTopics(groups: seq<Group>)
    ensures forall i :: 0 <= i < |groups| && groups[i].Size() >= 2 ==> IsTopicKey(TrendingTopics(groups), groups[i].key)
    decreases |groups|
  {
    if groups != [] {
      var init := groups[..|groups| - 1];
      var last := groups[|groups| - 1];
      LargeGroupsAreTopics(init);
      var topics := TrendingTopics(groups);
      var before := TrendingTopics(init);
      assert topics == before + (if last.Size() >= 2 then [TrendingTopic(last.key, last.Size())] else []);
      forall i | 0 <= i < |groups| && groups[i].Size() >= 2
        ensures IsTopicKey(topics, groups[i].key)
      {
        if i < |init| {
          assert init[i] == groups[i];
          var t :| 0 <= t < |before| && before[t].key == init[i].key;
          assert topics[t] == before[t];
        } else {
          assert topics[|before|] == TrendingTopic(last.key, last.Size());
        }
      }
    }
  }

  /** The subreddits of the posts of some entries. */
  ghost function EntrySubreddits(es: seq<Entry>): set<string> {
    set i | 0 <= i < |es| :: es[i].post.subreddit
  }

  /** Distinct subreddits: as many subreddits as entries. */
  lemma {:induction false} DistinctSubredditsCount(members: seq<Entry>)
    requires DistinctSubreddits(members)
    ensures |EntrySubreddits(members)| == |members|
    decreases |members|
  {
    if members != [] {
      var init := members[..|members| - 1];
      var last := members[|members| - 1];
      DistinctSubredditsCount(init);
      assert EntrySubreddits(members) == EntrySubreddits(init) + {last.post.subreddit} by {
        forall s | s in EntrySubreddits(members) ensures s in EntrySubreddits(init) + {last.post.subreddit} {
          var k :| 0 <= k < |members| && members[k].post.subreddit == s;
          if k < |init| {
            assert init[k] == members[k];
          }
        }
        forall s | s in EntrySubreddits(init) ensures s in EntrySubreddits(members) {
          var k :| 0 <= k < |init| && init[k].post.subreddit == s;
          assert members[k] == init[k];
        }
      }
      assert last.post.subreddit !in EntrySubreddits(init);
    }
  }

  lemma SubsetCard<T>(a: set<T>, b: set<T>)
    requires a <= b
    ensures |a| <= |b|
  {
    assert b == a + (b - a);
  }

  /** A group's size is bounded by the number of subreddits among the entries it was drawn from. */
  lemma GroupSizeBound(members: seq<Entry>, es: seq<Entry>)
    requires DistinctSubreddits(members)
    requires forall k :: 0 <= k < |members| ==> members[k] in es
    ensures |members| <= |EntrySubreddits(es)|
  {
    DistinctSubredditsCount(members);
    assert EntrySubreddits(members) <= EntrySubreddits(es) by {
      forall s | s in EntrySubreddits(members) ensures s in EntrySubreddits(es) {
        var k :| 0 <= k < |members| && members[k].post.subreddit == s;
        var j :| 0 <= j < |es| && es[j] == members[k];
      }
    }
    SubsetCard(EntrySubreddits(members), EntrySubreddits(es));
  }

  /** Every count of `topics` lies between 2 and `bound`. */
  ghost predicate CountsWithin(topics: seq<TrendingTopic>, bound: nat) {
    forall t :: 0 <= t < |topics| ==> 2 <= topics[t].count <= bound
  }

  /** Every trending count lies between 2 and the number of distinct subreddits of the entries. */
  lemma TrendingCountBounds(es: seq<Entry>, matches: Matcher)
    requires Reflexive(matches)
    ensures CountsWithin(TrendingTopics(GroupEntries(es, matches)), |EntrySubreddits(es)|)
  {
    var groups := GroupEntries(es, matches);
    var topics := TrendingTopics(groups);
    GroupEntriesKeys(es, matches);
    GroupEntriesFrom(es, matches);
    TrendingTopicsAreLargeGroups(groups);
    forall t | 0 <= t < |topics| ensures 2 <= topics[t].count <= |EntrySubreddits(es)| {
      var i :| 0 <= i < |groups| && groups[i].key == topics[t].key && groups[i].Size() == topics[t].count >= 2;
      assert forall k :: 0 <= k < |groups[i].Members()| ==> groups[i].Members()[k] in es;
      GroupSizeBound(groups[i].Members(), es);
    }
  }

  lemma EntrySubredditsOfPosts(posts: seq<Post>)
    ensures EntrySubreddits(Entries(posts)) == SubredditsOf(posts)
  {
    var es := Entries(posts);
    forall s | s in SubredditsOf(posts) ensures s in EntrySubreddits(es) {
      var i :| 0 <= i < |posts| && posts[i].subreddit == s;
      assert es[i].post.subreddit == s;
    }
  }

  /**
   * `after` is `before` unchanged, or `before` marked trending with a count
   * between 2 and `bound`.
   */
  predicate KeptOrMarked(before: Post, after: Post, bound: nat) {
    after == before
    || (after == before.(trending := true, trendingCount := after.trendingCount)
        && after.trendingCount.Some?
        && 2 <= after.trendingCount.value <= bound)
  }

  /** Marking leaves every entry's post unchanged or marks it with a count bounded by its topic's group. */
  lemma MarkAllMarks(es: seq<Entry>, matches: Matcher)
    requires Reflexive(matches)
    ensures |MarkAll(es, matches)| == |es|
    ensures forall i :: 0 <= i < |es| ==> KeptOrMarked(es[i].post, MarkAll(es, matches)[i], |EntrySubreddits(es)|)
  {
    var topics := TrendingTopics(GroupEntries(es, matches));
    TrendingCountBounds(es, matches);
    forall i | 0 <= i < |es| ensures KeptOrMarked(es[i].post, MarkAll(es, matches)[i], |EntrySubreddits(es)|) {
      assert MarkAll(es, matches)[i] == Mark(es[i], topics, matches);
      var r := FindTopic(topics, es[i].sig, matches);
      if r.Some? {
        assert r.value < |topics|;
        assert 2 <= topics[r.value].count;
        assert topics[r.value].count <= |EntrySubreddits(es)|;
      }
    }
  }

  /** The marks, computed one by one, are `MarkAll`. */
  lemma MarkAllIsMarked(es: seq<Entry>, matches: Matcher, result: seq<Post>)
    requires |result| == |es|
    requires forall k :: 0 <= k < |es| ==> result[k] == Mark(es[k], TrendingTopics(GroupEntries(es, matches)), matches)
    ensures result == MarkAll(es, matches)
  {
  }

  lemma SignaturesMatchReflexive()
    ensures Reflexive(SignaturesMatch)
  {
    forall s ensures SignaturesMatch(s, s) {
    }
  }

  /**
   * What `detectTrending` returns: every post, in order, either unchanged or
   * marked trending with a count between 2 and the number of distinct
   * subreddits of the input.
   */
  lemma TrendingMarks(posts: seq<Post>)
    ensures |WithTrending(posts)| == |posts|
    ensures forall i :: 0 <= i < |posts| ==> KeptOrMarked(posts[i], WithTrending(posts)[i], |SubredditsOf(posts)|)
  {
    var es := Entries(posts);
    SignaturesMatchReflexive();
    MarkAllMarks(es, SignaturesMatch);
    EntrySubredditsOfPosts(posts);
  }

  /** Every post placed in a group of two or more posts is marked trending. */
  lemma GroupedEntriesAreMarked(es: seq<Entry>, matches: Matcher, g: nat, k: nat)
    requires Reflexive(matches)
    requires g < |GroupEntries(es, matches)| && GroupEntries(es, matches)[g].Size() >= 2
    requires k < |GroupEntries(es, matches)[g].Members()|
    ensures Mark(GroupEntries(es, matches)[g].Members()[k], TrendingTopics(GroupEntries(es, matches)), matches).trending
  {
    var groups := GroupEntries(es, matches);
    var topics := TrendingTopics(groups);
    GroupEntriesFrom(es, matches);
    TrendingTopicsAreLargeGroups(groups);
    var t :| 0 <= t < |topics| && topics[t].key == groups[g].key;
    assert matches(groups[g].Members()[k].sig, topics[t].key);
  }

  /** Some group of two or more posts has a key that `sig` matches. */
  ghost predicate OnLargeGroup(groups: seq<Group>, sig: string, matches: Matcher) {
    exists g :: 0 <= g < |groups| && groups[g].Size() >= 2 && matches(sig, groups[g].key)
  }

  /**
   * An entry is marked exactly when it matches the key of a group of two or
   * more posts; otherwise its post is left as it was.
   */
  lemma MarkedIffOnLargeGroup(groups: seq<Group>, e: Entry, matches: Matcher)
    ensures OnLargeGroup(groups, e.sig, matches) ==>
              Mark(e, TrendingTopics(groups), matches).trending && Mark(e, TrendingTopics(groups), matches).trendingCount.Some?
    ensures !OnLargeGroup(groups, e.sig, matches) ==> Mark(e, TrendingTopics(groups), matches) == e.post
  {
    var topics := TrendingTopics(groups);
    TrendingTopicsAreLargeGroups(groups);
    var r := FindTopic(topics, e.sig, matches);
    if r.Some? {
      assert FromLargeGroup(groups, topics[r.value]);
      var g :| 0 <= g < |groups| && groups[g].key == topics[r.value].key && groups[g].Size() == topics[r.value].count >= 2;
      assert matches(e.sig, groups[g].key);
    }
  }

  /** Some group of two or more posts has a first title on the topic of `title`. */
  ghost predicate OnLargeGroupTopic(groups: seq<Group>, title: string) {
    exists g :: 0 <= g < |groups| && groups[g].Size() >= 2 && SameTopic(title, groups[g].first.post.title)
  }

  /**
   * A post is marked trending exactly when its title is on the topic of the
   * first title of some group of two or more posts; otherwise it comes back
   * unchanged.
   */
  lemma MarkedIffOnLargeGroupTopic(posts: seq<Post>, i: nat)
    requires i < |posts|
    ensures var groups := GroupEntries(Entries(posts), SignaturesMatch);
            OnLargeGroupTopic(groups, posts[i].title) ==> WithTrending(posts)[i].trending && WithTrending(posts)[i].trendingCount.Some?
    ensures var groups := GroupEntries(Entries(posts), SignaturesMatch);
            !OnLargeGroupTopic(groups, posts[i].title) ==> WithTrending(posts)[i] == posts[i]
  {
    var es := Entries(posts);
    var groups := GroupEntries(es, SignaturesMatch);
    MarkedIffOnLargeGroup(groups, es[i], SignaturesMatch);
    assert WithTrending(posts)[i] == Mark(es[i], TrendingTopics(groups), SignaturesMatch);
    SameTopicIsKeyMatch(posts, i);
  }

  /** Comparing a post's title with a group's first title is matching its signature against the key. */
  lemma SameTopicIsKeyMatch(posts: seq<Post>, i: nat)
    requires i < |posts|
    ensures var es := Entries(posts);
            var groups := GroupEntries(es, SignaturesMatch);
            OnLargeGroupTopic(groups, posts[i].title) == OnLargeGroup(groups, es[i].sig, SignaturesMatch)
  {
    var es := Entries(posts);
    var groups := GroupEntries(es, SignaturesMatch);
    EntriesSigned(posts);
    forall g | 0 <= g < |groups|
      ensures SameTopic(posts[i].title, groups[g].first.post.title) == SignaturesMatch(es[i].sig, groups[g].key)
    {
      FirstTitleGivesKey(es, g);
    }
  }
}
