/**
 * The post store (`src/lib/storage.ts`): one JSON file holding the time the
 * store was generated, the pending posts and the posted history. Every
 * operation reads the store (dropping it when it is more than four days
 * old and dropping expired posts otherwise), changes one list and writes the
 * file back. The file is the state of a `PostStore`; the current time is a
 * parameter, in milliseconds.
 */
module Storage {
  import opened Wrappers
  import opened Posts

  /** `EXPIRY_DAYS`. */
  const ExpiryDays: int := 4

  /** Four days in milliseconds. */
  const ExpiryMs: int := ExpiryDays * 24 * 60 * 60 * 1000

  /** `PostsStorage`. */
  datatype Store = Store(generatedAt: int, posts: seq<Post>, posted: seq<Post>)

  /** What the file holds: a store whose `posted` list may be missing, or something that cannot be read as a store. */
  datatype StoredFile = Unreadable | Stored(generatedAt: int, posts: seq<Post>, posted: Option<seq<Post>>)

  /** The file written for a store. */
  function FileOf(store: Store): StoredFile {
    Stored(store.generatedAt, store.posts, Some(store.posted))
  }

  /** The time a post counts from: when it was posted, or else when it was created (seconds, scaled to milliseconds). */
  function PostTime(p: Post): int {
    match p.postedAt
    case Some(t) => t
    case None => p.createdUtc * 1000
  }

  /** The post is newer than the four-day cutoff. */
  predicate IsRecent(p: Post, now: int) {
    PostTime(p) > now - ExpiryMs
  }

  /** `cleanupOldPosts`: the recent posts, in order. */
  function Cleanup(posts: seq<Post>, now: int): (kept: seq<Post>)
    ensures |kept| <= |posts|
    ensures forall k :: 0 <= k < |kept| ==> IsRecent(kept[k], now)
    decreases |posts|
  {
    if posts == [] then []
    else (if IsRecent(posts[0], now) then [posts[0]] else []) + Cleanup(posts[1..], now)
  }

  /** `isStorageExpired`. */
  function IsStorageExpired(generatedAt: int, now: int): (expired: bool)
    ensures expired <==> now - generatedAt > ExpiryMs
  {
    generatedAt < now - ExpiryMs
  }

  /** What `readPosts` returns, and whether it rewrites the file. */
  datatype Loaded = Loaded(store: Store, write: bool)

  /** `readPosts` as a function of the file and the time. */
  function Load(file: StoredFile, now: int): Loaded {
    match file
    case Unreadable => Loaded(Store(now, [], []), false)
    case Stored(generatedAt, posts, posted) =>
      var history := posted.GetOr([]);
      if IsStorageExpired(generatedAt, now) then Loaded(Store(now, [], []), true)
      else
        var store := Store(generatedAt, Cleanup(posts, now), Cleanup(history, now));
        Loaded(store, |store.posts| != |posts| || |store.posted| != |history|)
  }

  /** `posts.filter(post => post.id !== postId)`. */
  function WithoutId(posts: seq<Post>, id: string): (kept: seq<Post>)
    ensures |kept| <= |posts|
    ensures forall k :: 0 <= k < |kept| ==> kept[k].id != id
    decreases |posts|
  {
    if posts == [] then []
    else (if posts[0].id != id then [posts[0]] else []) + WithoutId(posts[1..], id)
  }

  /** `posts.findIndex(p => p.id === postId)`, with `None` for -1. */
  function FindIndexById(posts: seq<Post>, id: string): (r: Option<nat>)
    ensures r.Some? ==> r.value < |posts| && posts[r.value].id == id
    ensures forall k :: 0 <= k < |posts| && (r.None? || k < r.value) ==> posts[k].id != id
    decreases |posts|
  {
    if posts == [] then None
    else if posts[0].id == id then Some(0)
    else match FindIndexById(posts[1..], id)
      case Some(i) => Some(i + 1)
      case None => None
  }

  /** The change `markAsPosted` makes to the store it read. */
  function MarkPosted(store: Store, id: string, now: int): Store {
    match FindIndexById(store.posts, id)
    case Some(i) =>
      store.(posted := [store.posts[i].(postedAt := Some(now))] + store.posted,
             posts := store.posts[..i] + store.posts[i + 1..])
    case None => store
  }

  /** The store's file, which every operation reads and then writes back. */
  class PostStore {
    var file: StoredFile

    constructor(file: StoredFile)
      ensures this.file == file
    {
      this.file := file;
    }

    /** `readPosts`. */
    method ReadPosts(now: int) returns (store: Store)
      modifies this
      ensures store == Load(old(file), now).store
      ensures file == if Load(old(file), now).write then FileOf(store) else old(file)
    {
      match file
      case Unreadable =>
        store := Store(now, [], []);
      case Stored(generatedAt, posts, posted) =>
        var history := if posted.Some? then posted.value else [];
        if IsStorageExpired(generatedAt, now) {
          store := Store(now, [], []);
          file := FileOf(store);
          return;
        }
        store := Store(generatedAt, Cleanup(posts, now), Cleanup(history, now));
        if |store.posts| != |posts| || |store.posted| != |history| {
          file := FileOf(store);
        }
    }

    /** `savePosts`: the new posts replace the pending ones; the history is kept. */
    method SavePosts(posts: seq<Post>, now: int) returns (store: Store)
      modifies this
      ensures store == Store(now, Cleanup(posts, now), Load(old(file), now).store.posted)
      ensures file == FileOf(store)
    {
      var existing := ReadPosts(now);
      LoadedPostsAreRecent(old(file), now);
      CleanupKeepsRecent(existing.posted, now);
      store := Store(now, Cleanup(posts, now), Cleanup(existing.posted, now));
      file := FileOf(store);
    }

    /** `deletePost`. */
    method DeletePost(postId: string, now: int) returns (store: Store)
      modifies this
      ensures store == Load(old(file), now).store.(posts := WithoutId(Load(old(file), now).store.posts, postId))
      ensures file == FileOf(store)
    {
      store := ReadPosts(now);
      store := store.(posts := WithoutId(store.posts, postId));
      file := FileOf(store);
    }

    /** `markAsPosted`. */
    method MarkAsPosted(postId: string, now: int) returns (store: Store)
      modifies this
      ensures store == MarkPosted(Load(old(file), now).store, postId, now)
      ensures file == FileOf(store)
    {
      store := ReadPosts(now);
      var postIndex := FindIndexById(store.posts, postId);
      if postIndex.Some? {
        var post := store.posts[postIndex.value].(postedAt := Some(now));
        store := store.(posted := [post] + store.posted);
        store := store.(posts := store.posts[..postIndex.value] + store.posts[postIndex.value + 1..]);
      }
      file := FileOf(store);
    }

    /** `clearPostedHistory`. */
    method ClearPostedHistory(now: int) returns (store: Store)
      modifies this
      ensures store == Load(old(file), now).store.(posted := [])
      ensures file == FileOf(store)
    {
      store := ReadPosts(now);
      store := store.(posted := []);
      file := FileOf(store);
    }
  }

  // ---- the filters ----

  /** The cleanup keeps exactly the recent posts. */
  lemma {:induction false} CleanupMembers(posts: seq<Post>, now: int, p: Post)
    ensures p in Cleanup(posts, now) <==> p in posts && IsRecent(p, now)
    decreases |posts|
  {
    if posts != [] {
      CleanupMembers(posts[1..], now, p);
      assert posts == [posts[0]] + posts[1..];
    }
  }

  /** The cleanup keeps the order: cleaning two lists one after the other is cleaning them joined. */
  lemma {:induction false} CleanupAppend(a: seq<Post>, b: seq<Post>, now: int)
    ensures Cleanup(a + b, now) == Cleanup(a, now) + Cleanup(b, now)
    decreases |a|
  {
    if a != [] {
      CleanupAppend(a[1..], b, now);
      assert (a + b)[1..] == a[1..] + b;
    } else {
      assert a + b == b;
    }
  }

  /** A list of recent posts is left as it is. */
  lemma {:induction false} CleanupKeepsRecent(posts: seq<Post>, now: int)
    requires forall k :: 0 <= k < |posts| ==> IsRecent(posts[k], now)
    ensures Cleanup(posts, now) == posts
    decreases |posts|
  {
    if posts != [] {
      CleanupKeepsRecent(posts[1..], now);
    }
  }

  /** The cleanup drops a post exactly when some post has expired. */
  lemma {:induction false} CleanupShrinks(posts: seq<Post>, now: int)
    ensures |Cleanup(posts, now)| < |posts| <==> exists k :: 0 <= k < |posts| && !IsRecent(posts[k], now)
    decreases |posts|
  {
    if posts != [] {
      CleanupShrinks(posts[1..], now);
      if exists k :: 0 <= k < |posts[1..]| && !IsRecent(posts[1..][k], now) {
        var k :| 0 <= k < |posts[1..]| && !IsRecent(posts[1..][k], now);
        assert posts[k + 1] == posts[1..][k];
      }
      if exists k :: 0 <= k < |posts| && !IsRecent(posts[k], now) {
        var k :| 0 <= k < |posts| && !IsRecent(posts[k], now);
        if k > 0 {
          assert posts[1..][k - 1] == posts[k];
        }
      }
    }
  }

  /** The filter by id keeps exactly the posts with another id. */
  lemma {:induction false} WithoutIdMembers(posts: seq<Post>, id: string, p: Post)
    ensures p in WithoutId(posts, id) <==> p in posts && p.id != id
    decreases |posts|
  {
    if posts != [] {
      WithoutIdMembers(posts[1..], id, p);
      assert posts == [posts[0]] + posts[1..];
    }
  }

  // ---- reading the store ----

  /** Every post of a store that has been read is recent. */
  lemma LoadedPostsAreRecent(file: StoredFile, now: int)
    ensures var store := Load(file, now).store;
            (forall k :: 0 <= k < |store.posts| ==> IsRecent(store.posts[k], now))
            && (forall k :: 0 <= k < |store.posted| ==> IsRecent(store.posted[k], now))
  {
  }

  /**
   * An unreadable file reads as an empty store stamped now and is not
   * rewritten; an expired store reads as an empty store stamped now and is
   * rewritten.
   */
  lemma LoadResets(file: StoredFile, now: int)
    requires file.Unreadable? || IsStorageExpired(file.generatedAt, now)
    ensures Load(file, now).store == Store(now, [], [])
    ensures Load(file, now).write <==> file.Stored?
  {
  }

  /**
   * A store that has not expired keeps its time stamp, loses its expired
   * posts (a missing history reads as empty) and is rewritten exactly when
   * one of its posts had expired.
   */
  lemma LoadCleans(file: StoredFile, now: int)
    requires file.Stored? && !IsStorageExpired(file.generatedAt, now)
    ensures var store := Load(file, now).store;
            var history := file.posted.GetOr([]);
            && store.generatedAt == file.generatedAt
            && store.posts == Cleanup(file.posts, now)
            && store.posted == Cleanup(history, now)
    ensures var history := file.posted.GetOr([]);
            Load(file, now).write <==>
              (exists k :: 0 <= k < |file.posts| && !IsRecent(file.posts[k], now))
              || (exists k :: 0 <= k < |history| && !IsRecent(history[k], now))
  {
    CleanupShrinks(file.posts, now);
    CleanupShrinks(file.posted.GetOr([]), now);
  }

  /** Reading a store that was just read changes nothing and writes nothing. */
  lemma LoadTwice(file: StoredFile, now: int)
    requires Load(file, now).write
    ensures Load(FileOf(Load(file, now).store), now) == Loaded(Load(file, now).store, false)
  {
    var store := Load(file, now).store;
    LoadedPostsAreRecent(file, now);
    CleanupKeepsRecent(store.posts, now);
    CleanupKeepsRecent(store.posted, now);
  }

  // ---- the changes ----

  /** `deletePost` removes every pending post with the id and nothing else; the history is unchanged. */
  lemma DeleteRemovesId(store: Store, id: string, p: Post)
    ensures p in store.(posts := WithoutId(store.posts, id)).posts <==> p in store.posts && p.id != id
  {
    WithoutIdMembers(store.posts, id, p);
  }

  /**
   * `markAsPosted` moves the first pending post with the id to the front
   * of the history, stamped with the time; the others keep their order.
   */
  lemma MarkPostedMoves(store: Store, id: string, now: int, i: nat)
    requires i < |store.posts| && store.posts[i].id == id
    requires forall k :: 0 <= k < i ==> store.posts[k].id != id
    ensures var after := MarkPosted(store, id, now);
            && after.posted == [store.posts[i].(postedAt := Some(now))] + store.posted
            && after.posts == store.posts[..i] + store.posts[i + 1..]
            && after.generatedAt == store.generatedAt
  {
    assert FindIndexById(store.posts, id) == Some(i);
  }

  /** `markAsPosted` neither loses nor adds a post. */
  lemma MarkPostedTotal(store: Store, id: string, now: int)
    ensures var after := MarkPosted(store, id, now);
            |after.posts| + |after.posted| == |store.posts| + |store.posted|
  {
  }

  /** With no pending post of that id, `markAsPosted` changes nothing. */
  lemma MarkPostedMissing(store: Store, id: string, now: int)
    requires forall k :: 0 <= k < |store.posts| ==> store.posts[k].id != id
    ensures MarkPosted(store, id, now) == store
  {
    assert FindIndexById(store.posts, id).None?;
  }
}
