/**
 * The topic matcher (`areSameTopic`): two titles are about the same story
 * when their signatures are equal, or when the words they share make up at
 * least 60% of the smaller word set.
 */
module Topic {
  import opened Text
  import opened Signature

  /** `new Set(signature.split(' '))`. */
  function WordSet(signature: string): set<string> {
    set w | w in SplitOnSpace(signature)
  }

  function Min(a: int, b: int): int {
    if a < b then a else b
  }

  /**
   * `areSameTopic`. The ratio test `matches / minSize >= 0.6` is written as
   * `5 * matches >= 3 * minSize`: both word sets hold at most eight words
   * (`WordSetBounds`), and for such sizes the floating-point test and the
   * integer test agree.
   */
  predicate SameTopic(title1: string, title2: string) {
    SignaturesMatch(NormalizeForComparison(title1), NormalizeForComparison(title2))
  }

  /** The test `areSameTopic` applies to the two signatures. */
  predicate SignaturesMatch(norm1: string, norm2: string) {
    norm1 == norm2
    || (var words1, words2 := WordSet(norm1), WordSet(norm2);
        var minSize := Min(|words1|, |words2|);
        minSize > 0 && 5 * |words1 * words2| >= 3 * minSize)
  }

  /** `areSameTopic` as the source runs it: `matches` counted over the first word set. */
  method AreSameTopic(title1: string, title2: string) returns (same: bool)
    ensures same == SameTopic(title1, title2)
  {
    var norm1 := NormalizeForComparison(title1);
    var norm2 := NormalizeForComparison(title2);
    same := MatchSignatures(norm1, norm2);
  }

  /** The body of `areSameTopic` after the two calls to the normaliser. */
  method MatchSignatures(norm1: string, norm2: string) returns (same: bool)
    ensures same == SignaturesMatch(norm1, norm2)
  {
    if norm1 == norm2 {
      return true;
    }
    var words1 := WordSet(norm1);
    var words2 := WordSet(norm2);
    var matches := CountShared(words1, words2);
    var minSize := Min(|words1|, |words2|);
    same := minSize > 0 && 5 * matches >= 3 * minSize;
  }

  /** `words1.forEach(word => { if (words2.has(word)) matches++; })`. */
  method CountShared(words1: set<string>, words2: set<string>) returns (matches: nat)
    ensures matches == |words1 * words2|
  {
    matches := 0;
    var unvisited := words1;
    while unvisited != {}
      invariant unvisited <= words1
      invariant matches == |(words1 - unvisited) * words2|
      decreases |unvisited|
    {
      var word :| word in unvisited;
      VisitWord(words1, words2, unvisited, word);
      if word in words2 {
        matches := matches + 1;
      }
      unvisited := unvisited - {word};
    }
    assert words1 - unvisited == words1;
  }

  /** Visiting one more word of the first set adds one shared word exactly when the second set has it. */
  lemma VisitWord(words1: set<string>, words2: set<string>, unvisited: set<string>, word: string)
    requires word in unvisited && unvisited <= words1
    ensures |(words1 - (unvisited - {word})) * words2| == |(words1 - unvisited) * words2| + (if word in words2 then 1 else 0)
  {
    var visited := (words1 - unvisited) * words2;
    if word in words2 {
      assert (words1 - (unvisited - {word})) * words2 == visited + {word};
    } else {
      assert (words1 - (unvisited - {word})) * words2 == visited;
    }
  }

  /** Matching is symmetric. */
  lemma SameTopicSymmetric(a: string, b: string)
    ensures SameTopic(a, b) == SameTopic(b, a)
  {
    SignaturesMatchSymmetric(NormalizeForComparison(a), NormalizeForComparison(b));
  }

  lemma SignaturesMatchSymmetric(norm1: string, norm2: string)
    ensures SignaturesMatch(norm1, norm2) == SignaturesMatch(norm2, norm1)
  {
    assert WordSet(norm1) * WordSet(norm2) == WordSet(norm2) * WordSet(norm1);
  }

  /** Every title matches itself. */
  lemma SameTopicReflexive(a: string)
    ensures SameTopic(a, a)
  {
  }

  lemma {:induction false} SetOfSeqSize<T>(s: seq<T>)
    ensures |set x | x in s| <= |s|
  {
    if s != [] {
      SetOfSeqSize(s[1..]);
      assert (set x | x in s) == (set x | x in s[1..]) + {s[0]};
    }
  }

  /** The word set of words joined by single spaces: the words, or `{""}` when there are none. */
  lemma JoinedWordSet(ws: seq<string>)
    requires IsSignatureWords(ws)
    ensures ws != [] ==> WordSet(JoinWords(ws)) == set w | w in ws
    ensures ws == [] ==> WordSet(JoinWords(ws)) == {""}
    ensures 1 <= |WordSet(JoinWords(ws))| <= 8
  {
    if ws != [] {
      forall k, j | 0 <= k < |ws| && 0 <= j < |ws[k]| ensures ws[k][j] != ' ' {
        assert IsSignatureWord(ws[k]);
      }
      SplitJoin(ws);
      SetOfSeqSize(ws);
      assert ws[0] in WordSet(JoinWords(ws));
    } else {
      assert SplitOnSpace("") == [""];
      assert WordSet("") == {""};
    }
  }

  /**
   * The word set of a signature is the set of its words, or the set holding
   * the empty string when the signature is empty (`''.split(' ')` is
   * `['']`); so it has between one and eight members, and the guard
   * `minSize > 0` always holds.
   */
  lemma WordSetBounds(title: string)
    ensures SignatureWords(title) != [] ==>
              WordSet(NormalizeForComparison(title)) == set w | w in SignatureWords(title)
    ensures SignatureWords(title) == [] ==> WordSet(NormalizeForComparison(title)) == {""}
    ensures 1 <= |WordSet(NormalizeForComparison(title))| <= 8
  {
    SignatureWordsShape(title);
    JoinedWordSet(SignatureWords(title));
  }

  /** An empty signature matches another empty signature and nothing else. */
  lemma EmptySignatureMatchesOnlyEmpty(a: string, b: string)
    requires NormalizeForComparison(a) == ""
    ensures SameTopic(a, b) <==> NormalizeForComparison(b) == ""
  {
    var norm2 := NormalizeForComparison(b);
    if norm2 != "" {
      WordSetBounds(a);
      WordSetBounds(b);
      EmptyWordNotInSignature(b);
      EmptyAgainstNonEmpty(WordSet(NormalizeForComparison(a)), WordSet(norm2));
    }
  }

  lemma EmptyWordNotInSignature(b: string)
    requires NormalizeForComparison(b) != ""
    ensures "" !in WordSet(NormalizeForComparison(b))
  {
    var ws := SignatureWords(b);
    WordSetBounds(b);
    SignatureWordsShape(b);
    assert ws != [];
    forall w | w in ws ensures w != "" {
      var k :| 0 <= k < |ws| && ws[k] == w;
      assert IsSignatureWord(ws[k]);
    }
  }

  lemma EmptyAgainstNonEmpty(words1: set<string>, words2: set<string>)
    requires words1 == {""} && "" !in words2 && |words2| >= 1
    ensures !(5 * |words1 * words2| >= 3 * Min(|words1|, |words2|))
  {
    assert words1 * words2 == {};
  }

  /**
   * Matching depends only on the signatures, and a signature is its own
   * signature: so a title matches a signature (a group key, a de-duplicator
   * key) exactly when it matches the title the signature came from.
   */
  lemma SameTopicAgainstSignature(a: string, b: string)
    ensures SameTopic(a, NormalizeForComparison(b)) == SameTopic(a, b)
    ensures SameTopic(NormalizeForComparison(b), a) == SameTopic(b, a)
  {
    NormalizeIdempotent(b);
  }

  /** Titles with the same signature match exactly the same titles. */
  lemma SameSignatureSameMatches(a: string, b: string, c: string)
    requires NormalizeForComparison(b) == NormalizeForComparison(c)
    ensures SameTopic(a, b) == SameTopic(a, c)
    ensures SameTopic(b, c)
  {
  }
}
