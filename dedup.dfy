/**
 * `deduplicatePosts`: the posts are sorted trending first and then by
 * subreddit rank, and a post is kept unless a kept post has its url or a
 * kept signature is on its topic. The `seen` map (signature to post, in
 * insertion order) is a sequence of entries; `seenUrls` is the set of the
 * kept posts' urls.
 */
module Dedup {
  import opened Posts
  import opened Sorting
  import opened Signature
  import opened Topic
  import opened Trending

  /** The comparator of `deduplicatePosts`: trending posts first, then by rank, a missing or zero rank counting as 99. */
  function DedupCompare(a: Post, b: Post): int {
    if a.trending && !b.trending then -1
    else if !a.trending && b.trending then 1
    else RankOr99(a) - RankOr99(b)
  }

  lemma DedupCompareAntisymmetric()
    ensures Antisymmetric(DedupCompare)
  {
  }

  /** The urls of the kept posts (`seenUrls`). */
  function Urls(kept: seq<Entry>): set<string> {
    set k | 0 <= k < |kept| :: kept[k].post.url
  }

  /** Some kept signature is on the topic of `sig` (`isDuplicate` after the inner loop). */
  function Duplicate(kept: seq<Entry>, sig: string, matches: Matcher): bool
    decreases |kept|
  {
    kept != [] && (Duplicate(kept[..|kept| - 1], sig, matches) || matches(sig, kept[|kept| - 1].sig))
  }

  /** One turn of the loop of `deduplicatePosts`. */
  function Keep(kept: seq<Entry>, e: Entry, matches: Matcher): seq<Entry> {
    if e.post.url in Urls(kept) || Duplicate(kept, e.sig, matches) then kept else kept + [e]
  }

  /** The entries kept after the loop of `deduplicatePosts` has seen `es`, in order. */
  function Select(es: seq<Entry>, matches: Matcher): seq<Entry>
    decreases |es|
  {
    if es == [] then [] else Keep(Select(es[..|es| - 1], matches), es[|es| - 1], matches)
  }

  /** `deduplicatePosts` as a function of its input. */
  function Deduplicated(posts: seq<Post>): seq<Post> {
    PostsOf(Select(Entries(SortBy(posts, DedupCompare)), SignaturesMatch))
  }

  // ---- the source's loops ----

  /** `deduplicatePosts`. */
  method DeduplicatePosts(posts: seq<Post>) returns (result: seq<Post>)
    ensures result == Deduplicated(posts)
  {
    var sorted := SortBy(posts, DedupCompare);
    ghost var es := Entries(sorted);
    var seen: seq<Entry> := [];
    var seenUrls: set<string> := {};
    for n := 0 to |sorted|
      invariant seen == Select(es[..n], SignaturesMatch)
      invariant seenUrls == Urls(seen)
    {
      KeptAreSignatures(sorted, n);
      seen, seenUrls := KeepPost(seen, seenUrls, sorted[n]);
      EntryAt(sorted, n);
      SelectStep(es, n, SignaturesMatch);
    }
    assert es[..|sorted|] == es;
    result := PostsOf(seen);
  }

  /** The body of the loop of `deduplicatePosts` for one post. */
  method KeepPost(seen: seq<Entry>, seenUrls: set<string>, post: Post) returns (seen': seq<Entry>, seenUrls': set<string>)
    requires seenUrls == Urls(seen)
    requires forall k :: 0 <= k < |seen| ==> IsSignatureText(seen[k].sig)
    ensures seen' == Keep(seen, Entry(post, NormalizeForComparison(post.title)), SignaturesMatch)
    ensures seenUrls' == Urls(seen')
  {
    seen', seenUrls' := seen, seenUrls;
    if post.url in seenUrls {
      return;
    }
    var isDuplicate := FindDuplicate(post, seen);
    if !isDuplicate {
      seen' := seen + [Entry(post, NormalizeForComparison(post.title))];
      seenUrls' := seenUrls + {post.url};
      UrlsSnoc(seen, Entry(post, NormalizeForComparison(post.title)));
    }
  }

  /** The inner loop of `deduplicatePosts`: is the post on the topic of some kept signature? */
  method FindDuplicate(post: Post, seen: seq<Entry>) returns (isDuplicate: bool)
    requires forall k :: 0 <= k < |seen| ==> IsSignatureText(seen[k].sig)
    ensures isDuplicate == Duplicate(seen, NormalizeForComparison(post.title), SignaturesMatch)
  {
    ghost var sig := NormalizeForComparison(post.title);
    for i := 0 to |seen|
      invariant !Duplicate(seen[..i], sig, SignaturesMatch)
    {
      var same := AreSameTopic(post.title, seen[i].sig);
      AgainstKey(post.title, seen[i].sig);
      assert seen[..i + 1][..i] == seen[..i];
      if same {
        DuplicateGrows(seen[..i + 1], seen, sig, SignaturesMatch);
        return true;
      }
    }
    assert seen[..|seen|] == seen;
    return false;
  }

  /** One more entry seen is one more turn of the loop. */
  lemma SelectStep(es: seq<Entry>, n: nat, matches: Matcher)
    requires n < |es|
    ensures Select(es[..n + 1], matches) == Keep(Select(es[..n], matches), es[n], matches)
  {
    assert es[..n + 1][..n] == es[..n];
  }

  lemma UrlsSnoc(kept: seq<Entry>, e: Entry)
    ensures Urls(kept + [e]) == Urls(kept) + {e.post.url}
  {
    var after := kept + [e];
    forall u | u in Urls(after) ensures u in Urls(kept) + {e.post.url} {
      var k :| 0 <= k < |after| && after[k].post.url == u;
      if k < |kept| {
        assert after[k] == kept[k];
      }
    }
    forall u | u in Urls(kept) ensures u in Urls(after) {
      var k :| 0 <= k < |kept| && kept[k].post.url == u;
      assert after[k] == kept[k];
    }
    assert after[|kept|] == e;
  }

  // ---- what the selection keeps true, for any matcher ----

  /** `Duplicate` holds exactly when some kept signature matches. */
  lemma {:induction false} DuplicateExists(kept: seq<Entry>, sig: string, matches: Matcher)
    ensures Duplicate(kept, sig, matches) <==> exists k :: 0 <= k < |kept| && matches(sig, kept[k].sig)
    decreases |kept|
  {
    if kept != [] {
      var init := kept[..|kept| - 1];
      DuplicateExists(init, sig, matches);
      if Duplicate(init, sig, matches) {
        var k :| 0 <= k < |init| && matches(sig, init[k].sig);
        assert kept[k] == init[k];
      }
      if exists k :: 0 <= k < |kept| && matches(sig, kept[k].sig) {
        var k :| 0 <= k < |kept| && matches(sig, kept[k].sig);
        if k < |init| {
          assert init[k] == kept[k];
        }
      }
    }
  }

  /** A duplicate among some kept entries stays one when more are kept after them. */
  lemma DuplicateGrows(kept: seq<Entry>, more: seq<Entry>, sig: string, matches: Matcher)
    requires |kept| <= |more| && kept == more[..|kept|]
    requires Duplicate(kept, sig, matches)
    ensures Duplicate(more, sig, matches)
  {
    DuplicateExists(kept, sig, matches);
    DuplicateExists(more, sig, matches);
    var k :| 0 <= k < |kept| && matches(sig, kept[k].sig);
    assert more[k] == kept[k];
  }

  /** Every kept entry is one of the entries seen. */
  lemma {:induction false} SelectFrom(es: seq<Entry>, matches: Matcher)
    ensures forall k :: 0 <= k < |Select(es, matches)| ==> Select(es, matches)[k] in es
    decreases |es|
  {
    if es != [] {
      var init := es[..|es| - 1];
      SelectFrom(init, matches);
      var kept := Select(init, matches);
      forall k | 0 <= k < |Select(es, matches)| ensures Select(es, matches)[k] in es {
        if k < |kept| {
          assert Select(es, matches)[k] == kept[k];
          assert kept[k] in init;
        }
      }
    }
  }

  /** No two entries share a url. */
  ghost predicate UrlsDistinct(kept: seq<Entry>) {
    forall i, j :: 0 <= i < j < |kept| ==> kept[i].post.url != kept[j].post.url
  }

  /** No two kept entries share a url. */
  lemma {:induction false} SelectUrlsDistinct(es: seq<Entry>, matches: Matcher)
    ensures UrlsDistinct(Select(es, matches))
    decreases |es|
  {
    if es != [] {
      var kept := Select(es[..|es| - 1], matches);
      var e := es[|es| - 1];
      SelectUrlsDistinct(es[..|es| - 1], matches);
      if Select(es, matches) != kept {
        var after := kept + [e];
        forall i, j | 0 <= i < j < |after| ensures after[i].post.url != after[j].post.url {
          if j == |kept| {
            assert kept[i].post.url in Urls(kept);
          } else {
            assert after[i] == kept[i] && after[j] == kept[j];
          }
        }
      }
    }
  }

  /** No entry's signature matches the signature of an entry before it. */
  ghost predicate TopicsDistinct(kept: seq<Entry>, matches: Matcher) {
    forall i, j :: 0 <= i < j < |kept| ==> !matches(kept[j].sig, kept[i].sig)
  }

  /** No kept entry's signature matches the signature of an entry kept before it. */
  lemma {:induction false} SelectTopicsDistinct(es: seq<Entry>, matches: Matcher)
    ensures TopicsDistinct(Select(es, matches), matches)
    decreases |es|
  {
    if es != [] {
      var kept := Select(es[..|es| - 1], matches);
      var e := es[|es| - 1];
      SelectTopicsDistinct(es[..|es| - 1], matches);
      if Select(es, matches) != kept {
        DuplicateExists(kept, e.sig, matches);
        var after := kept + [e];
        forall i, j | 0 <= i < j < |after| ensures !matches(after[j].sig, after[i].sig) {
          if j < |kept| {
            assert after[i] == kept[i] && after[j] == kept[j];
          } else {
            assert after[i] == kept[i];
          }
        }
      }
    }
  }

  /** Trending entries come before the others. */
  ghost predicate TrendingFirst(es: seq<Entry>) {
    forall i, j :: 0 <= i < j < |es| && es[j].post.trending ==> es[i].post.trending
  }

  /** Keeping some of the entries, in order, keeps trending entries first. */
  lemma {:induction false} SelectTrendingFirst(es: seq<Entry>, matches: Matcher)
    requires TrendingFirst(es)
    ensures TrendingFirst(Select(es, matches))
    decreases |es|
  {
    if es != [] {
      var init := es[..|es| - 1];
      var e := es[|es| - 1];
      var kept := Select(init, matches);
      assert TrendingFirst(init) by {
        forall i, j | 0 <= i < j < |init| && init[j].post.trending ensures init[i].post.trending {
          assert init[i] == es[i] && init[j] == es[j];
        }
      }
      SelectTrendingFirst(init, matches);
      SelectFrom(init, matches);
      var r := Select(es, matches);
      if r != kept {
        forall i, j | 0 <= i < j < |r| && r[j].post.trending ensures r[i].post.trending {
          if j == |kept| {
            var i' :| 0 <= i' < |init| && init[i'] == kept[i];
            assert es[i'] == init[i'];
          } else {
            assert r[i] == kept[i] && r[j] == kept[j];
          }
        }
      }
    }
  }

  /** The entry is kept, or a kept entry has its url, or a kept signature is on its topic. */
  ghost predicate Accounted(kept: seq<Entry>, x: Entry, matches: Matcher) {
    x in kept || x.post.url in Urls(kept) || Duplicate(kept, x.sig, matches)
  }

  /** Every entry seen is accounted for by the kept entries. */
  lemma {:induction false} SelectCovers(es: seq<Entry>, matches: Matcher)
    ensures forall x :: x in es ==> Accounted(Select(es, matches), x, matches)
    decreases |es|
  {
    if es != [] {
      var init := es[..|es| - 1];
      var kept := Select(init, matches);
      var r := Select(es, matches);
      SelectCovers(init, matches);
      assert r[..|kept|] == kept;
      forall x | x in es ensures Accounted(r, x, matches) {
        if x in init {
          assert Accounted(kept, x, matches);
          if x in kept {
            var k :| 0 <= k < |kept| && kept[k] == x;
            assert r[k] == x;
          } else if x.post.url in Urls(kept) {
            var k :| 0 <= k < |kept| && kept[k].post.url == x.post.url;
            assert r[k] == kept[k];
          } else {
            DuplicateGrows(kept, r, x.sig, matches);
          }
        } else {
          assert x == es[|es| - 1];
        }
      }
    }
  }

  /** Every entry carries the signature of its post's title. */
  ghost predicate AllSigned(es: seq<Entry>) {
    forall k :: 0 <= k < |es| ==> Signed(es[k])
  }

  lemma SelectSigned(es: seq<Entry>, matches: Matcher)
    requires AllSigned(es)
    ensures AllSigned(Select(es, matches))
  {
    SelectFrom(es, matches);
  }

  // ---- what `deduplicatePosts` returns ----

  lemma EntriesAllSigned(posts: seq<Post>)
    ensures AllSigned(Entries(posts))
  {
    EntriesSigned(posts);
  }

  /** The kept entries of a prefix of the sorted posts carry signatures as keys. */
  lemma KeptAreSignatures(sorted: seq<Post>, n: nat)
    requires n <= |sorted|
    ensures var kept := Select(Entries(sorted)[..n], SignaturesMatch);
            forall k :: 0 <= k < |kept| ==> IsSignatureText(kept[k].sig)
  {
    var es := Entries(sorted)[..n];
    var kept := Select(es, SignaturesMatch);
    EntriesAllSigned(sorted);
    assert AllSigned(es);
    SelectSigned(es, SignaturesMatch);
    forall k | 0 <= k < |kept| ensures IsSignatureText(kept[k].sig) {
      assert Signed(kept[k]);
      NormalizeIdempotent(kept[k].post.title);
    }
  }

  /** A sequence in comparator order has its trending posts first. */
  lemma {:induction false} SortedTrendingFirst(s: seq<Post>, j: nat)
    requires SortedBy(s, DedupCompare)
    requires j < |s| && s[j].trending
    ensures forall i :: 0 <= i < j ==> s[i].trending
  {
    if j > 0 {
      assert DedupCompare(s[j - 1], s[j]) <= 0;
      SortedTrendingFirst(s, j - 1);
    }
  }

  /** The entries `deduplicatePosts` works through, in sorted order. */
  function SortedEntries(posts: seq<Post>): (es: seq<Entry>)
    ensures PostsOf(es) == SortBy(posts, DedupCompare)
    ensures AllSigned(es)
  {
    var es := Entries(SortBy(posts, DedupCompare));
    EntriesAllSigned(SortBy(posts, DedupCompare));
    es
  }

  /** Every post `deduplicatePosts` returns is one of its input posts. */
  lemma DeduplicatedFromInput(posts: seq<Post>)
    ensures forall k :: 0 <= k < |Deduplicated(posts)| ==> Deduplicated(posts)[k] in posts
  {
    var es := SortedEntries(posts);
    var kept := Select(es, SignaturesMatch);
    SelectFrom(es, SignaturesMatch);
    SortByPermutes(posts, DedupCompare);
    forall k | 0 <= k < |kept| ensures kept[k].post in posts {
      var j :| 0 <= j < |es| && es[j] == kept[k];
      assert PostsOf(es)[j] in multiset(posts);
    }
  }

  /** No two posts `deduplicatePosts` returns share a url. */
  lemma DeduplicatedUrlsDistinct(posts: seq<Post>)
    ensures var r := Deduplicated(posts);
            forall i, j :: 0 <= i < |r| && 0 <= j < |r| && i != j ==> r[i].url != r[j].url
  {
    var kept := Select(SortedEntries(posts), SignaturesMatch);
    SelectUrlsDistinct(SortedEntries(posts), SignaturesMatch);
    forall i, j | 0 <= i < |kept| && 0 <= j < |kept| && i != j ensures kept[i].post.url != kept[j].post.url {
      if i < j {
        assert kept[i].post.url != kept[j].post.url;
      } else {
        assert kept[j].post.url != kept[i].post.url;
      }
    }
  }

  /** Two entries with signatures are on the same topic exactly when their signatures match. */
  lemma SignedSameTopic(a: Entry, b: Entry)
    requires Signed(a) && Signed(b)
    ensures SameTopic(a.post.title, b.post.title) == SignaturesMatch(a.sig, b.sig)
  {
  }

  /** No two posts `deduplicatePosts` returns are on the same topic. */
  lemma DeduplicatedTopicsDistinct(posts: seq<Post>)
    ensures var r := Deduplicated(posts);
            forall i, j :: 0 <= i < |r| && 0 <= j < |r| && i != j ==> !SameTopic(r[i].title, r[j].title)
  {
    var es := SortedEntries(posts);
    var kept := Select(es, SignaturesMatch);
    SelectTopicsDistinct(es, SignaturesMatch);
    SelectSigned(es, SignaturesMatch);
    forall i, j | 0 <= i < |kept| && 0 <= j < |kept| && i != j ensures !SameTopic(kept[i].post.title, kept[j].post.title) {
      SignedSameTopic(kept[i], kept[j]);
      SignaturesMatchSymmetric(kept[i].sig, kept[j].sig);
      if i < j {
        assert !SignaturesMatch(kept[j].sig, kept[i].sig);
      } else {
        assert !SignaturesMatch(kept[i].sig, kept[j].sig);
      }
    }
  }

  /** The trending posts `deduplicatePosts` returns come before the others. */
  lemma DeduplicatedTrendingFirst(posts: seq<Post>)
    ensures var r := Deduplicated(posts);
            forall i, j :: 0 <= i < j < |r| && r[j].trending ==> r[i].trending
  {
    var sorted := SortBy(posts, DedupCompare);
    var es := SortedEntries(posts);
    DedupCompareAntisymmetric();
    SortBySorted(posts, DedupCompare);
    assert TrendingFirst(es) by {
      forall i, j | 0 <= i < j < |es| && es[j].post.trending ensures es[i].post.trending {
        assert PostsOf(es)[j] == sorted[j] && PostsOf(es)[i] == sorted[i];
        SortedTrendingFirst(sorted, j);
      }
    }
    SelectTrendingFirst(es, SignaturesMatch);
  }

  /** A kept entry has the url of `x`, or a kept signature is on the topic of `x`. */
  ghost predicate CoveredBy(kept: seq<Entry>, x: Entry, matches: Matcher) {
    exists k :: 0 <= k < |kept| && (kept[k].post.url == x.post.url || matches(x.sig, kept[k].sig))
  }

  /** Every entry seen shares its url or its topic with a kept entry. */
  lemma SelectCoversAll(es: seq<Entry>, matches: Matcher)
    requires Reflexive(matches)
    ensures forall j :: 0 <= j < |es| ==> CoveredBy(Select(es, matches), es[j], matches)
  {
    var kept := Select(es, matches);
    SelectCovers(es, matches);
    forall j | 0 <= j < |es| ensures CoveredBy(kept, es[j], matches) {
      var x := es[j];
      assert Accounted(kept, x, matches);
      if x in kept {
        var k :| 0 <= k < |kept| && kept[k] == x;
        assert kept[k].post.url == x.post.url;
      } else if x.post.url in Urls(kept) {
        var k :| 0 <= k < |kept| && kept[k].post.url == x.post.url;
      } else {
        DuplicateExists(kept, x.sig, matches);
      }
    }
  }

  /** A post of `r` has the url of `p` or is on its topic. */
  ghost predicate PostCovered(r: seq<Post>, p: Post) {
    exists k :: 0 <= k < |r| && (r[k].url == p.url || SameTopic(p.title, r[k].title))
  }

  lemma CoveredEntryPost(kept: seq<Entry>, x: Entry)
    requires AllSigned(kept) && Signed(x)
    requires CoveredBy(kept, x, SignaturesMatch)
    ensures PostCovered(PostsOf(kept), x.post)
  {
    var k :| 0 <= k < |kept| && (kept[k].post.url == x.post.url || SignaturesMatch(x.sig, kept[k].sig));
    SignedSameTopic(x, kept[k]);
    assert PostsOf(kept)[k] == kept[k].post;
  }

  /**
   * Every input post is dropped only for a reason: a returned post has its
   * url or is on its topic (a post that is returned has its own url).
   */
  lemma DeduplicatedCovers(posts: seq<Post>)
    ensures forall p :: p in posts ==> PostCovered(Deduplicated(posts), p)
  {
    var es := SortedEntries(posts);
    var kept := Select(es, SignaturesMatch);
    SignaturesMatchReflexive();
    SelectCoversAll(es, SignaturesMatch);
    SelectSigned(es, SignaturesMatch);
    SortByPermutes(posts, DedupCompare);
    forall p | p in posts ensures PostCovered(PostsOf(kept), p) {
      assert p in multiset(PostsOf(es));
      var j :| 0 <= j < |es| && PostsOf(es)[j] == p;
      CoveredEntryPost(kept, es[j]);
    }
  }
}
