# ThreadMark core, modelled in Dafny

ThreadMark collects the daily top posts of nine technology subreddits and
marks stories that several subreddits carry as trending. It removes
duplicates, keeps the best 25 and stores them with a four-day expiry. It
also helps the user write tweets about them and shows counts of what was
posted. This project models the logic of that core and proves what it
promises:

- `src/lib/reddit.ts`:
  - the title normaliser (`normalizeForComparison`) and the topic test (`areSameTopic`);
  - the two URL extractors;
  - the mapping of feed entries to posts;
  - `detectTrending`, `deduplicatePosts`, and the sort and slice of `fetchRedditPosts`.
  - Modules `Signature`, `Topic`, `Feed`, `Trending`, `Dedup`, `Pipeline`.
- `src/lib/storage.ts`: the expiry rules and the state changes of the five store operations. The store file is the field of a class. Module `Storage`.
- `src/lib/gemini.ts`:
  - the call-to-action suffixes and the fallback tables;
  - how a parsed model reply becomes tweets, a thread or quick tweets.
  - Module `Tweets`.
- `src/app/page.tsx`: the dashboard statistics and the `timeAgo` label. Module `Dashboard`.

Shared pieces:

- `Posts`: the post record.
- `Text`: character classes, lower-casing, the UTF-16 length JavaScript reports, and decimal numerals.
- `Sorting`: the stable `Array.prototype.sort`, modelled as an insertion sort on sequences.
- `Wrappers`: `Option` and `Result`.

Where the source loops, the model loops. The loops are:

- the grouping, topic and marking loops of `detectTrending`;
- the loop of `deduplicatePosts`;
- the word count of `areSameTopic`;
- the statistics fold.

Each loop method is proved equal to a function over sequences, and the
properties are proved about those functions. How the model represents the
source:

- Maps that preserve insertion order become sequences: `topicGroups`, `trendingTopics` and `seen`.
- A comparison of a title with a map key compares the title's signature with the key. Keys are signatures, and a signature is its own signature, so the answer is the same.
- Times are integers: the clock and `posted_at` in milliseconds, `created_utc` in seconds.
- The store operations take the clock as a parameter, and one `now` serves a whole operation.
- The network, the RSS parser and the language model are represented by their results, given as parameters:
  - a feed is `Parsed(entries)` or `Failed`;
  - a model reply is `Items(...)` or `Unusable` (the call, the JSON or the expected array failed).

## Model

| member | source | states |
|---|---|---|
| Text.ToLowerCase | src/lib/reddit.ts:35 | lower-cases each character in place: same length, ASCII letters mapped, everything else kept |
| Text.LowerCharIdempotent | src/lib/reddit.ts:35 | lower-casing twice is lower-casing once, and lower-case letters, digits and blanks are left alone |
| Text.Utf16Length | src/lib/gemini.ts:144 | `.length` counts UTF-16 code units: between the number of characters and twice that, exactly the number of characters when every character is in the basic plane |
| Text.Utf16LengthAppend | src/lib/gemini.ts:441-443 | the length of a concatenation is the sum of the lengths |
| Text.Digits | src/app/page.tsx:113-115 | a numeral is a non-empty run of decimal digits without a leading zero |
| Text.DecimalRoundTrip | src/app/page.tsx:113-115 | the decimal text of an integer reads back as that integer |
| Signature.RemoveDisallowed | src/lib/reddit.ts:36 | only lower-case letters, digits and white space remain |
| Signature.TrimStart | src/lib/reddit.ts:38 | the result does not start with white space and is no longer than the input |
| Signature.TrimEnd | src/lib/reddit.ts:38 | the result does not end with white space and is no longer than the input |
| Signature.TrimStartIsSuffix | src/lib/reddit.ts:38 | trimming the front leaves a suffix of the input |
| Signature.TrimEndIsPrefix | src/lib/reddit.ts:38 | trimming the back leaves a prefix of the input |
| Signature.SplitOnSpace | src/lib/reddit.ts:39 | at least one piece (the empty string gives `['']`), no piece holds a space, and the pieces of cleaned text hold only `[a-z0-9]` |
| Signature.KeepLongWords | src/lib/reddit.ts:40 | every kept word is longer than three characters and comes from the input |
| Signature.FirstEight | src/lib/reddit.ts:41 | at most eight words, a prefix of the input, the whole input when it has eight or fewer |
| Signature.CompareWordsFlip | src/lib/reddit.ts:42 | swapping the operands of the default string order negates the comparison |
| Signature.CompareWordsAntisymmetric | src/lib/reddit.ts:42 | the default string order is a consistent comparator |
| Signature.FirstLongWordsShape | src/lib/reddit.ts:36-41 | every word before the sort is longer than three characters and made of `[a-z0-9]` |
| Signature.NormalizeForComparison | src/lib/reddit.ts:33-44 | `normalizeForComparison`: lower-case, remove, collapse, trim, split, keep long words, first eight, sort, join; what it yields is stated by `SignatureWordsShape`, `NormalizeIdempotent`, `SignatureIgnoresCase` and `SignatureIgnoresPunctuation` |
| Signature.SignatureWordsShape | src/lib/reddit.ts:33-44 | the signature is at most eight words, each longer than three characters and only `[a-z0-9]`, sorted ascending, a rearrangement of the first eight long words, joined by single spaces |
| Signature.JoinWordsShape | src/lib/reddit.ts:43 | joining signature words gives lower-case letters, digits and single spaces, starting and ending with a word |
| Signature.RemoveDisallowedKeeps | src/lib/reddit.ts:36 | text that is already only letters, digits and spaces is unchanged |
| Signature.CollapseJoin | src/lib/reddit.ts:37 | words joined by single spaces are unchanged by collapsing white space |
| Signature.SplitJoin | src/lib/reddit.ts:39-43 | splitting words joined by single spaces gives the words back |
| Signature.KeepLongWordsKeepsAll | src/lib/reddit.ts:40 | a list of long words is unchanged by the filter |
| Signature.CleaningKeepsJoin | src/lib/reddit.ts:34-38 | the cleaning steps leave a joined signature unchanged |
| Signature.TrimKeepsInnerText | src/lib/reddit.ts:38 | text without white space at either end is unchanged by trimming |
| Signature.SignatureFixpoint | src/lib/reddit.ts:33-44 | normalising a signature's text gives back the same word list |
| Signature.NormalizeIdempotent | src/lib/reddit.ts:33-44 | `normalize(normalize(t)) == normalize(t)` |
| Signature.SignatureIgnoresCase | src/lib/reddit.ts:35 | titles that differ only in the case of ASCII letters have the same signature |
| Signature.RemoveDisallowedAppend | src/lib/reddit.ts:36 | removing characters distributes over concatenation |
| Signature.SignatureIgnoresPunctuation | src/lib/reddit.ts:36 | inserting a character that is not a letter, digit or white space anywhere in a title leaves its signature unchanged |
| Signature.PunctuationRemoved | src/lib/reddit.ts:35-36 | such a character is gone after lower-casing and removal |
| Topic.SameTopic | src/lib/reddit.ts:46-60 | `areSameTopic` on two titles: `SignaturesMatch` of their signatures; the loop `AreSameTopic` is proved to decide it, and it is symmetric and reflexive (`SameTopicSymmetric`, `SameTopicReflexive`) |
| Topic.SignaturesMatch | src/lib/reddit.ts:50-59 | equal signatures, or at least 60% of the smaller word set shared (`5 * shared >= 3 * minSize`); `MatchSignatures` computes it with the counting loop |
| Topic.AreSameTopic | src/lib/reddit.ts:46-60 | the loop that counts shared words decides exactly `SameTopic`: equal signatures, or shared words at least 60% of the smaller word set |
| Topic.MatchSignatures | src/lib/reddit.ts:50-59 | the same test on two signatures, with the `forEach` count as a loop |
| Topic.CountShared | src/lib/reddit.ts:55-56 | the `forEach` over the first word set counts exactly the words the two sets share |
| Topic.VisitWord | src/lib/reddit.ts:56 | one step of that count adds one exactly when the visited word is in the second set |
| Topic.SameTopicSymmetric | src/lib/reddit.ts:46-60 | `areSameTopic(a, b) == areSameTopic(b, a)` |
| Topic.SignaturesMatchSymmetric | src/lib/reddit.ts:50-59 | the signature test is symmetric |
| Topic.SameTopicReflexive | src/lib/reddit.ts:50 | every title is on its own topic |
| Topic.WordSetBounds | src/lib/reddit.ts:52-58 | a word set has one to eight members (`{''}` for an empty signature), so `minSize > 0` always holds |
| Topic.JoinedWordSet | src/lib/reddit.ts:52-53 | splitting a joined signature on spaces gives back exactly its words (or `{''}` when it has none), one to eight of them |
| Topic.EmptySignatureMatchesOnlyEmpty | src/lib/reddit.ts:50-59 | a title whose signature is empty matches exactly the titles whose signature is empty |
| Topic.SameTopicAgainstSignature | src/lib/reddit.ts:46-60 | comparing a title with a signature (a map key) is comparing it with the title that signature came from |
| Topic.SameSignatureSameMatches | src/lib/reddit.ts:46-60 | titles with the same signature match the same titles, and match each other |
| Feed.NextSlash | src/lib/reddit.ts:63 | the first '/' at or after a position, or none |
| Feed.SubredditMatchAtSpec | src/lib/reddit.ts:63 | a match of `/\/r\/([^/]+)\//` starts at a position exactly when `/r/<name>/` is there, and captures the name |
| Feed.FirstSubredditMatch | src/lib/reddit.ts:63 | the leftmost position where the pattern matches, or none |
| Feed.GetSubredditFromUrl | src/lib/reddit.ts:62-65 | `getSubredditFromUrl`: the leftmost `/r/<name>/` match, else "unknown"; characterised by `GetSubredditFromUrlSpec` |
| Feed.GetSubredditFromUrlSpec | src/lib/reddit.ts:62-65 | the segment of the leftmost `/r/<segment>/`, or `"unknown"` when there is none |
| Feed.FeedSubredditNames | src/lib/reddit.ts:5-15 | each of the nine feed addresses gives its own subreddit name |
| Feed.SubredditAfterHost | src/lib/reddit.ts:62-65 | an address `https://www.reddit.com/r/<name>/...` gives `<name>` |
| Feed.AlnumRunEnd | src/lib/reddit.ts:68 | the end of a maximal run of ASCII letters and digits |
| Feed.PostIdMatchAtSpec | src/lib/reddit.ts:68 | a match of `/comments\/([a-z0-9]+)/i` starts at a position exactly when "comments/" (any case) and a maximal run of letters and digits are there, and captures that run |
| Feed.FirstPostIdMatch | src/lib/reddit.ts:68 | the leftmost position where the pattern matches, or none |
| Feed.ExtractPostId | src/lib/reddit.ts:67-70 | `extractPostId`: the run after the leftmost case-insensitive `comments/`, else the link; characterised by `ExtractPostIdSpec` |
| Feed.ExtractPostIdSpec | src/lib/reddit.ts:67-70 | the letters and digits after the leftmost matching "comments/", or the whole link |
| Feed.OrElse | src/lib/reddit.ts:82-89 | the logical-or default: a missing or empty string gives the fallback, any other string is kept |
| Feed.EntryToPost | src/lib/reddit.ts:81-91 | the callback of the `map`: the post for one entry at one position; its fields are stated in `FetchFeed`'s contract |
| Feed.FetchFeed | src/lib/reddit.ts:73-96 | a failed feed gives no posts; otherwise the first six entries, in order, with rank `index+1`, the feed's subreddit, score and comments 0, `url == permalink ==` the link or "", title or "Untitled", id `extractPostId` of the link or "", `created_utc` the publication time or 0, no `posted_at`, not trending |
| Trending.Entries | src/lib/reddit.ts:101 | every post paired with the signature of its title, in order |
| Trending.PostsOf | src/lib/reddit.ts:165 | the posts of the entries, in order |
| Trending.FindKey | src/lib/reddit.ts:104-105 | the position of the first key in insertion order that matches the signature, and no earlier key matches; none when no key matches |
| Trending.FindGroup | src/lib/reddit.ts:104-112 | the first group in insertion order whose key matches, and no earlier group matches (`FindKey` over the groups' keys) |
| Trending.FindTopic | src/lib/reddit.ts:128-132 | the first trending topic whose key matches, and no earlier topic matches (`FindKey` over the topics' keys) |
| Trending.AddEntry | src/lib/reddit.ts:102-116 | one turn of the grouping loop: join the first matching group unless its subreddit is there, or open a new group keyed by the signature; its effects are `AddEntryKeys`, `AddEntrySubreddits` and `AddEntryMembers` |
| Trending.GroupEntries | src/lib/reddit.ts:99-117 | `topicGroups` after the loop over every post; `GroupByTopic` computes it, and `GroupEntriesKeys`, `GroupEntriesFrom` and `GroupEntriesCover` state what it holds |
| Trending.TrendingTopics | src/lib/reddit.ts:119-125 | `trendingTopics`: the groups of two or more posts with their sizes; `CollectTrendingTopics` computes it and `TrendingTopicsAreLargeGroups` characterises it |
| Trending.Mark | src/lib/reddit.ts:127-134 | the callback of the final `map`: the post marked with the first matching topic's count, or the post; `MarkPost` computes it |
| Trending.MarkAll | src/lib/reddit.ts:98-135 | every entry marked against the topics of the grouping of all of them; `MarkAllMarks` and `MarkedIffOnLargeGroup` state its result |
| Trending.WithTrending | src/lib/reddit.ts:98-135 | `detectTrending` as a function; `DetectTrending` computes it and `TrendingMarks` and `MarkedIffOnLargeGroupTopic` state its result |
| Trending.GroupByTopic | src/lib/reddit.ts:99-117 | the nested grouping loops build `GroupEntries` of the posts |
| Trending.PlacePost | src/lib/reddit.ts:102-116 | one turn: join the first matching group unless its subreddit is already there, or open a group keyed by the signature |
| Trending.CollectTrendingTopics | src/lib/reddit.ts:119-125 | the topics are the groups of two or more posts, in order, with their sizes |
| Trending.MarkPost | src/lib/reddit.ts:127-133 | a post is marked with the count of the first matching topic, or returned as it was |
| Trending.DetectTrending | src/lib/reddit.ts:98-135 | same length and order; each post unchanged or marked trending with a count from 2 to the number of distinct subreddits of the input |
| Trending.MarkPosts | src/lib/reddit.ts:127-134 | the final `map` marks each post in place |
| Trending.FindKeyStep | src/lib/reddit.ts:128-131 | one step of the left-to-right search: a match at position i is the first match when nothing before it matched |
| Trending.AgainstKey | src/lib/reddit.ts:128-131 | testing a title against a key tests the title's signature against it |
| Trending.KeysAreTitleSignatures | src/lib/reddit.ts:115 | every key is the signature of its group's first title |
| Trending.FirstTitleGivesKey | src/lib/reddit.ts:104-115 | the first title of a group has the group's key as its signature |
| Trending.TopicKeysAreSignatures | src/lib/reddit.ts:121-124 | every trending key is a signature |
| Trending.NewKeyIsFresh | src/lib/reddit.ts:114-115 | a signature that matches no key is not yet a key, so `set` never overwrites a group |
| Trending.AddEntryKeys | src/lib/reddit.ts:101-116 | one turn keeps the keys distinct and each the first signature of its group |
| Trending.AddEntrySubreddits | src/lib/reddit.ts:106-108 | one turn never puts two posts of one subreddit in a group |
| Trending.AddEntryMembers | src/lib/reddit.ts:105-107 | one turn keeps every member of a group on the topic of its key |
| Trending.GroupEntriesKeys | src/lib/reddit.ts:99-117 | after grouping, keys are distinct, each the signature of its group's first post, and no group holds two posts of one subreddit |
| Trending.GroupEntriesFrom | src/lib/reddit.ts:99-117 | every post of every group comes from the input and matches its group's key |
| Trending.GroupEntriesCover | src/lib/reddit.ts:99-117 | every input post is accounted for: a group on its topic holds a post of its subreddit |
| Trending.TrendingTopicsAreLargeGroups | src/lib/reddit.ts:119-125 | each trending topic is a group of two or more posts with that group's size, and each such group is a topic |
| Trending.DistinctSubredditsCount | src/lib/reddit.ts:106 | a group whose subreddits are distinct has as many subreddits as posts |
| Trending.GroupSizeBound | src/lib/reddit.ts:104-125 | a group's size is at most the number of subreddits it was drawn from |
| Trending.TrendingCountBounds | src/lib/reddit.ts:119-125 | every trending count lies between 2 and the number of distinct subreddits of the input |
| Trending.MarkAllMarks | src/lib/reddit.ts:127-134 | every post comes back unchanged or marked with a count between 2 and the number of subreddits |
| Trending.TrendingMarks | src/lib/reddit.ts:98-135 | `detectTrending` keeps length and order, and marks only with counts from 2 to the number of distinct subreddits |
| Trending.GroupedEntriesAreMarked | src/lib/reddit.ts:104-133 | every member of a group of two or more posts comes out trending |
| Trending.MarkedIffOnLargeGroup | src/lib/reddit.ts:119-133 | a post is marked exactly when its signature matches the key of a group of two or more posts; otherwise it is unchanged |
| Trending.MarkedIffOnLargeGroupTopic | src/lib/reddit.ts:98-135 | a post is marked trending, with a count, exactly when its title is on the topic of the first title of a group of two or more posts; otherwise it comes back unchanged |
| Trending.SameTopicIsKeyMatch | src/lib/reddit.ts:104-105 | a title against a group's first title is its signature against the group's key |
| Dedup.DedupCompare | src/lib/reddit.ts:142-146 | the comparator of the first sort: trending first, then `(subredditRank or 99)` ascending; consistency is `DedupCompareAntisymmetric` |
| Dedup.Keep | src/lib/reddit.ts:148-162 | one turn of the loop: skip a seen url or a duplicate topic, otherwise keep the post; `KeepPost` computes it |
| Dedup.Select | src/lib/reddit.ts:148-163 | the loop over all the sorted entries; `SelectUrlsDistinct`, `SelectTopicsDistinct` and `SelectCovers` state its result |
| Dedup.Deduplicated | src/lib/reddit.ts:138-166 | `deduplicatePosts` as a function; `DeduplicatePosts` computes it, and `DeduplicatedUrlsDistinct`, `DeduplicatedTopicsDistinct`, `DeduplicatedTrendingFirst` and `DeduplicatedCovers` state its result |
| Dedup.DedupCompareAntisymmetric | src/lib/reddit.ts:142-146 | the comparator (trending first, then rank with 99 for none) is consistent |
| Dedup.DeduplicatePosts | src/lib/reddit.ts:138-166 | the loop over the sorted posts computes `Deduplicated` |
| Dedup.SelectStep | src/lib/reddit.ts:148-163 | one more sorted post extends the kept list exactly as the loop body does |
| Dedup.KeepPost | src/lib/reddit.ts:148-162 | a post with a seen url is skipped; otherwise it is kept when no kept signature is on its topic, and its url recorded |
| Dedup.FindDuplicate | src/lib/reddit.ts:151-157 | the inner loop finds exactly whether some kept signature is on the post's topic |
| Dedup.UrlsSnoc | src/lib/reddit.ts:161 | keeping a post adds its url to `seenUrls` |
| Dedup.DuplicateExists | src/lib/reddit.ts:151-157 | a duplicate exactly when some kept signature matches |
| Dedup.DuplicateGrows | src/lib/reddit.ts:152-157 | a duplicate stays one as more posts are kept |
| Dedup.SelectFrom | src/lib/reddit.ts:148-163 | every kept entry is one of the entries seen |
| Dedup.SelectUrlsDistinct | src/lib/reddit.ts:148-162 | no two kept entries share a url |
| Dedup.SelectTopicsDistinct | src/lib/reddit.ts:151-160 | no kept signature matches one kept before it |
| Dedup.SelectTrendingFirst | src/lib/reddit.ts:148-165 | keeping entries in order keeps trending ones first |
| Dedup.SelectCovers | src/lib/reddit.ts:148-163 | every entry seen is kept, or shares its url or topic with a kept one |
| Dedup.SelectSigned | src/lib/reddit.ts:160 | kept entries carry their titles' signatures |
| Dedup.KeptAreSignatures | src/lib/reddit.ts:160 | every key of `seen` is a signature |
| Dedup.SortedTrendingFirst | src/lib/reddit.ts:142-146 | after the sort, trending posts precede the others |
| Dedup.SortedEntries | src/lib/reddit.ts:142-148 | the loop works through the input sorted by the comparator, each post with its signature |
| Dedup.DeduplicatedFromInput | src/lib/reddit.ts:138-166 | every returned post is an input post |
| Dedup.DeduplicatedUrlsDistinct | src/lib/reddit.ts:138-166 | no two returned posts share a url |
| Dedup.SignedSameTopic | src/lib/reddit.ts:153 | two posts are on the same topic exactly when their signatures match |
| Dedup.DeduplicatedTopicsDistinct | src/lib/reddit.ts:138-166 | no two returned posts are on the same topic |
| Dedup.DeduplicatedTrendingFirst | src/lib/reddit.ts:138-166 | returned trending posts come before the others |
| Dedup.SelectCoversAll | src/lib/reddit.ts:148-163 | every entry seen shares its url or its topic with a kept entry |
| Dedup.CoveredEntryPost | src/lib/reddit.ts:148-165 | that coverage carries over from entries to their posts |
| Dedup.DeduplicatedCovers | src/lib/reddit.ts:138-166 | every input post shares its url or its topic with a returned post |
| Pipeline.FinalCompare | src/lib/reddit.ts:181-188 | the comparator of the final sort: trending, then rank, then newest first; `FinalCompareOrder` states the order it means |
| Pipeline.AllPosts | src/lib/reddit.ts:171-172 | the posts of the nine feeds, flattened in feed order; `AllPostsFromFeeds` states what they are |
| Pipeline.RedditPosts | src/lib/reddit.ts:169-192 | `fetchRedditPosts` as a function of the feeds' answers; `FetchRedditPosts` computes it, and `RedditPostsOrdered`, `RedditPostsDistinct` and `RedditPostsTrendingCounts` state its result |
| Pipeline.FinalCompareOrder | src/lib/reddit.ts:181-188 | the comparator puts `a` no later than `b` exactly when trending comes first, then lower rank (99 for none), then newer |
| Pipeline.FinalCompareAntisymmetric | src/lib/reddit.ts:181-188 | the final comparator is consistent |
| Pipeline.FirstTarget | src/lib/reddit.ts:190-191 | the first 25 posts, or all when fewer |
| Pipeline.FetchRedditPosts | src/lib/reddit.ts:169-192 | flatten the feeds, detect trending, deduplicate, sort, keep 25: at most 25 posts |
| Pipeline.AllPostsFromFeeds | src/lib/reddit.ts:171-172 | every flattened post is untrending and from one of the nine subreddits |
| Pipeline.AllPostsSubreddits | src/lib/reddit.ts:171-172 | the posts come from at most nine subreddits |
| Pipeline.RedditPostsFromDeduplicated | src/lib/reddit.ts:178-191 | every returned post is a deduplicated post |
| Pipeline.RedditPostsOrdered | src/lib/reddit.ts:180-191 | `min(25, #deduplicated)` posts, trending first, then by rank, then newest first |
| Pipeline.RedditPostsDistinct | src/lib/reddit.ts:169-192 | no two returned posts share a url or a topic: every pair is apart, since sorting permutes and slicing keeps a prefix |
| Pipeline.DeduplicatedApart | src/lib/reddit.ts:138-166 | no two deduplicated posts share a url or a topic |
| Pipeline.WithTrendingCounted | src/lib/reddit.ts:175 | after `detectTrending` every post is trending exactly when it has a count, and each count is between 2 and 9 |
| Pipeline.RedditPostsTrendingCounts | src/lib/reddit.ts:169-192 | a returned post is trending exactly when it has a count, and the count is between 2 and 9 |
| Sorting.InsertBy | src/lib/reddit.ts:180-188 | inserting adds one element |
| Sorting.SortBy | src/lib/reddit.ts:180-188 | the sort keeps the length |
| Sorting.InsertByPermutes | src/lib/reddit.ts:180-188 | inserting adds exactly that element |
| Sorting.SortByPermutes | src/lib/reddit.ts:180-188 | the sort is a permutation |
| Sorting.InsertBySorted | src/lib/reddit.ts:180-188 | inserting into a sorted list keeps it sorted |
| Sorting.SortBySorted | src/lib/reddit.ts:180-188 | with a consistent comparator, the result is in comparator order |
| Sorting.SortBySortedIsIdentity | src/lib/reddit.ts:180-188 | a list already in order is left as it is |
| Sorting.InsertByPairwise | src/lib/reddit.ts:180-188 | inserting keeps a symmetric pairwise relation |
| Sorting.SortByPairwise | src/lib/reddit.ts:180-188 | sorting keeps every pairwise relation among the elements |
| Storage.PostTime | src/lib/storage.ts:21-23 | the time a post expires from: `posted_at`, otherwise `created_utc * 1000` |
| Storage.Cleanup | src/lib/storage.ts:18-26 | keeps only posts newer than four days (posted time, else creation time), never more than given |
| Storage.IsStorageExpired | src/lib/storage.ts:29-32 | expired exactly when the stamp is more than four days old |
| Storage.WithoutId | src/lib/storage.ts:83 | no kept post has the id |
| Storage.FindIndexById | src/lib/storage.ts:90 | the first position with the id, or none |
| Storage.PostStore.constructor | src/lib/storage.ts:6 | the store holds the given file |
| Storage.PostStore.ReadPosts | src/lib/storage.ts:34-65 | returns the loaded store and rewrites the file exactly when it reset or cleaned it |
| Storage.PostStore.SavePosts | src/lib/storage.ts:67-79 | the cleaned new posts replace the pending ones, the cleaned history is kept, stamped now, and written |
| Storage.PostStore.DeletePost | src/lib/storage.ts:81-86 | the loaded store without the pending posts of that id, written |
| Storage.PostStore.MarkAsPosted | src/lib/storage.ts:88-101 | the loaded store with the post moved to the history, written |
| Storage.PostStore.ClearPostedHistory | src/lib/storage.ts:103-108 | the loaded store with an empty history, written |
| Storage.CleanupMembers | src/lib/storage.ts:18-26 | a post is kept exactly when it is in the input and recent |
| Storage.CleanupAppend | src/lib/storage.ts:20 | the filter keeps order and works piecewise |
| Storage.CleanupKeepsRecent | src/lib/storage.ts:18-26 | recent posts are all kept |
| Storage.CleanupShrinks | src/lib/storage.ts:50-57 | the cleanup drops something exactly when some post has expired |
| Storage.WithoutIdMembers | src/lib/storage.ts:83 | a post survives exactly when it has another id |
| Storage.Load | src/lib/storage.ts:34-65 | `readPosts` as a function of the file and the clock: the store it returns and whether it writes; `LoadResets`, `LoadCleans` and `LoadTwice` state its result |
| Storage.LoadedPostsAreRecent | src/lib/storage.ts:34-65 | every post of a store just read is recent |
| Storage.LoadResets | src/lib/storage.ts:34-64 | an unreadable or expired file reads as an empty store stamped now; only the expired one is rewritten |
| Storage.LoadCleans | src/lib/storage.ts:40-61 | a live store keeps its stamp, loses its expired posts (a missing history is empty), and is rewritten exactly when something expired |
| Storage.LoadTwice | src/lib/storage.ts:34-65 | reading again right after a rewrite changes nothing and writes nothing |
| Storage.DeleteRemovesId | src/lib/storage.ts:81-86 | the pending posts left are exactly those with another id |
| Storage.MarkPosted | src/lib/storage.ts:89-97 | the store after `markAsPosted`'s changes; `MarkPostedMoves`, `MarkPostedTotal` and `MarkPostedMissing` state its result |
| Storage.MarkPostedMoves | src/lib/storage.ts:88-101 | the first pending post with the id goes to the front of the history with `posted_at` now; the rest keep their order |
| Storage.MarkPostedTotal | src/lib/storage.ts:88-101 | no post is lost or added |
| Storage.MarkPostedMissing | src/lib/storage.ts:92 | with no such id the store is unchanged |
| Tweets.FindCta | src/lib/gemini.ts:438 | the option with the id, or none when no option has it |
| Tweets.CtaTextsNonEmpty | src/lib/gemini.ts:425-433 | only the `none` option has an empty text |
| Tweets.AddCta | src/lib/gemini.ts:437-447 | `addCTA`: the tweet, or the tweet with the option's text when that fits in 280 UTF-16 units; stated by `AddCtaWithoutOption`, `AddCtaWithOption` and `AddCtaBounds` |
| Tweets.AddCtaWithoutOption | src/lib/gemini.ts:438-439 | `none` or an unknown id returns the tweet unchanged |
| Tweets.AddCtaWithOption | src/lib/gemini.ts:437-447 | the option's text is appended exactly when the result is at most 280 UTF-16 units; otherwise the tweet comes back |
| Tweets.CtaIdsDistinct | src/lib/gemini.ts:425-433 | no two options share an id |
| Tweets.AddCtaBounds | src/lib/gemini.ts:437-447 | the tweet is a prefix of the result, and a changed result is at most 280 units |
| Tweets.FallbackTexts | src/lib/gemini.ts:153-174 | three fallback texts per tone |
| Tweets.TweetsOf | src/lib/gemini.ts:176-180 | one tweet per text, in order, with the tone and its length |
| Tweets.FallbackTweets | src/lib/gemini.ts:152-181 | three tweets, the tone's texts in order, each with the tone and its length; the title is ignored |
| Tweets.QuickFallbackTexts | src/lib/gemini.ts:376-419 | five fallback texts per category |
| Tweets.ToQuickTweets | src/lib/gemini.ts:421 | each text with the category, in order |
| Tweets.QuickFallbacks | src/lib/gemini.ts:375-422 | five quick tweets, the category's texts, each with the category |
| Tweets.Take | src/lib/gemini.ts:141 | `slice(0, n)`: a prefix of length `min(n, length)` |
| Tweets.KeepNonEmpty | src/lib/gemini.ts:145 | only non-empty tweets, each from the input |
| Tweets.KeepNonEmptyMembers | src/lib/gemini.ts:145 | a tweet survives exactly when it is in the input and non-empty |
| Tweets.KeepNonEmptyTexts | src/lib/gemini.ts:145 | a text survives the filter exactly when it is non-empty and some tweet has it |
| Tweets.ToTweets | src/lib/gemini.ts:141-144 | each item becomes a tweet of its text (or ""), the tone and its length |
| Tweets.ShapeTweets | src/lib/gemini.ts:141-145 | at most three tweets, each non-empty, with the tone and its length |
| Tweets.ShapeTweetsMembers | src/lib/gemini.ts:141-145 | a text appears exactly when it is a non-empty text of one of the first three items |
| Tweets.MappedTexts | src/lib/gemini.ts:141-144 | a tweet made from an item has a non-empty text exactly when that item is that text |
| Tweets.GenerateTweet | src/lib/gemini.ts:11-149 | an error exactly when there is no key; fallbacks for an unusable or empty reply; otherwise exactly the shaped tweets of the reply (`ShapeTweets`), at most three, counted and non-empty |
| Tweets.FallbackThread | src/lib/gemini.ts:253-261 | four tweets, the title first, with the tone |
| Tweets.GenerateThread | src/lib/gemini.ts:189-263 | an error exactly when there is no key; the fallback thread for an unusable or empty reply; otherwise the first `min(5, n)` tweets |
| Tweets.GenerateQuickTweets | src/lib/gemini.ts:273-373 | one to five tweets with the category: the fallbacks without a key or with an unusable or empty reply, otherwise the first `min(5, n)` texts |
| Dashboard.CountAfter | src/app/page.tsx:26-29 | the number of posts whose time is strictly after a cutoff; `CountAfterCountsIndices` and `CountAfterMonotone` state it |
| Dashboard.Tally | src/app/page.tsx:26-30 | the per-subreddit counts, one increment per post; `TallyKeys`, `TallyCounts` and `TallySum` state it |
| Dashboard.StatsOf | src/app/page.tsx:18-34 | the `stats` of a history at a time: total, the day and week windows and the tally; `ComputeStats` computes it and `StatsWindows` relates its fields |
| Dashboard.ComputeStats | src/app/page.tsx:18-34 | the `forEach` fold computes `StatsOf`: the total, the two window counts and the per-subreddit tally |
| Dashboard.CountAfterCountsIndices | src/app/page.tsx:26-29 | a window count is the number of posts posted strictly after its start |
| Dashboard.CountAfterMonotone | src/app/page.tsx:20-29 | a later start counts no more posts, and no count exceeds the total |
| Dashboard.StatsWindows | src/app/page.tsx:19-33 | `totalPosted` is the length of `posted` and `postedToday <= postedThisWeek <= totalPosted` |
| Dashboard.CountedInWindow | src/app/page.tsx:27-29 | past the first week of the clock, a post is in a window exactly when it has a `posted_at` strictly after the start: none, or exactly at the start, is not counted |
| Dashboard.SubredditList | src/app/page.tsx:30 | the subreddits of the history, in order |
| Dashboard.TallyKeys | src/app/page.tsx:22-30 | the keys of `bySubreddit` are exactly the subreddits of the history |
| Dashboard.TallyCounts | src/app/page.tsx:30 | each count is the number of posts from that subreddit |
| Dashboard.MapSumRemove | src/app/page.tsx:22 | a map's sum is any one value plus the sum of the rest |
| Dashboard.MapSumIncrement | src/app/page.tsx:30 | one increment adds one to the sum |
| Dashboard.TallySum | src/app/page.tsx:22-30 | the `bySubreddit` counts add up to `totalPosted` |
| Dashboard.TimeAgo | src/app/page.tsx:111-116 | at least two characters; `TimeAgoReads` states that they read back as the elapsed time in its unit |
| Dashboard.TimeAgoReads | src/app/page.tsx:111-116 | the text reads back as the elapsed time in minutes below 3600 s, hours below 86400 s, days otherwise, and in the past gives 0-59 m, 1-23 h or at least 1 d |
| Dashboard.DecimalReads | src/app/page.tsx:113-115 | a number written with `String` and followed by a unit letter reads back as that number |
| Dashboard.TimeAgoRoundsDown | src/app/page.tsx:112-115 | the amount is the elapsed time rounded down to its unit |

## Left out

- Network, RSS parsing and `Promise.all`: a feed's answer is a parameter, `Parsed(entries)` or `Failed`. The browser `User-Agent` headers are not modelled.
- Date parsing: `created_utc` is a given integer of seconds, and `posted_at` and `generated_at` are integer milliseconds. An unparsable date (which JavaScript reads as `NaN`, so that nothing counts as expired) is not modelled.
- An empty `posted_at` string, which JavaScript treats as absent, is not distinguished from a missing one.
- The `source` field of a post and the `bySource` field of `Stats` are not modelled: the code never sets them.
- The file system: `ensureDataDir`, JSON serialisation and write failures. The file is a field holding `Unreadable` or the stored record, and an unreadable file stands for every failure the `catch` in `readPosts` swallows.
- Storage.PostStore.SavePosts: the source's `savePosts` calls `readPosts` and then reads the clock again. The model uses one `now` for both.
- The language model: the client, the prompts, the temperatures (floating point), the fence stripping and `JSON.parse`. The reply is a parameter, already parsed; a reply that fails in any way is `Unusable`.
- Tweets.GenerateTweet: a `null` item in the reply would throw inside `map` and lead to the fallbacks. The model has no such item: a missing text is `None` and becomes "".
- Default arguments: `generateTweet` defaults to the hot-take tone, `generateThread` to the analytical tone and `generateQuickTweets` to the random category. Dafny functions here take every argument, so these defaults are the constants `DefaultTweetTone`, `DefaultThreadTone` and `DefaultCategory`, which a caller passes explicitly.
- Text.ToLowerCase: only ASCII letters are lower-cased. JavaScript's full Unicode case mapping (which can change a string's length) is not modelled. For titles that are ASCII letters, digits, white space and punctuation, the model and the source agree.
- Sorting.SortBy: stability is what the insertion order gives, but it is not stated as a separate lemma.
- Topic.AreSameTopic: the floating-point test `matches / minSize >= 0.6` is written as `5 * matches >= 3 * minSize`. Both sets hold at most eight words, and for those sizes the two tests agree.
- The `CTA_OPTIONS` labels (`caption` in the model) are shown text only. Nothing is proved about them.
- Dashboard.TimeAgo: the timestamp is whole seconds. The footer calls `timeAgo` with `generated_at` in milliseconds divided by 1000, a fractional number, and `Math.floor` of a fractional difference can be one second less than the model's difference of whole seconds (now 2000100 ms and 1999900 ms give 0 s in the source and 1 s in the model).
- Dashboard: the React state, effects, `fetch` calls, clipboard, timers and JSX, including the floating-point bar width, are not modelled.
- Dashboard.CountedInWindow: it assumes the clock is at least one week past the epoch. Before that, a post without `posted_at` (time 0) would count, as in the source.
