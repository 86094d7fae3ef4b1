/**
 * The tweet helpers (`src/lib/gemini.ts`) around the language-model calls:
 * the call-to-action suffixes, the fallback tables, and the shaping of a
 * parsed model reply. The model itself is not part of this model: its reply
 * is a parameter, already parsed, or `Unusable` when the call, the JSON or
 * the expected field failed.
 */
module Tweets {
  import opened Wrappers
  import opened Text

  /** `TweetTone`. */
  datatype Tone = HotTake | Analytical | Sarcastic | Unhinged

  /** `GeneratedTweet`. `characterCount` is the JavaScript length, in UTF-16 code units. */
  datatype GeneratedTweet = GeneratedTweet(text: string, tone: Tone, characterCount: nat)

  /** `GeneratedThread`. */
  datatype GeneratedThread = GeneratedThread(tweets: seq<string>, tone: Tone)

  /** `QuickTweetCategory`. */
  datatype Category = Uncomfortable | Reflective | Debate | Punchy | Personal | Random

  /** `QuickTweet`. */
  datatype QuickTweet = QuickTweet(text: string, category: Category)

  /** A parsed model reply: the items of the expected array, or `Unusable` when the call, the JSON or the array failed. */
  datatype Reply<T> = Unusable | Items(items: seq<T>)

  /** The limit `addCTA` keeps to. */
  const MaxTweetLength: nat := 280

  /** One entry of `CTA_OPTIONS`; `caption` is its `label`. */
  datatype Cta = Cta(id: string, caption: string, text: string)

  /**
   * `CTA_OPTIONS`. The last text ends in the four characters U+00F0 U+0178
   * U+2018 U+2021 that the source file holds (a pointing-down emoji whose
   * UTF-8 bytes were read as Windows-1252).
   */
  const CtaOptions: seq<Cta> := [
    Cta("none", "No CTA", ""),
    Cta("thoughts", "Thoughts?", "\n\nthoughts?"),
    Cta("agree", "Agree/Disagree", "\n\nagree or disagree?"),
    Cta("reply", "Reply", "\n\nreply with your take"),
    Cta("predict", "Prediction", "\n\nwhat do you think happens next?"),
    Cta("hot", "Hot Take", "\n\nam I wrong?"),
    Cta("discuss", "Discuss", "\n\nlet's discuss \U{F0}\U{178}\U{2018}\U{2021}")
  ]

  /** `CTA_OPTIONS.find(c => c.id === ctaId)`, as an index. */
  function FindCta(ctaId: string): (r: Option<nat>)
    ensures r.Some? ==> r.value < |CtaOptions| && CtaOptions[r.value].id == ctaId
    ensures r.None? ==> forall i :: 0 <= i < |CtaOptions| ==> CtaOptions[i].id != ctaId
  {
    FindCtaFrom(ctaId, 0)
  }

  function FindCtaFrom(ctaId: string, i: nat): (r: Option<nat>)
    requires i <= |CtaOptions|
    ensures r.Some? ==> i <= r.value < |CtaOptions| && CtaOptions[r.value].id == ctaId
    ensures r.None? ==> forall j :: i <= j < |CtaOptions| ==> CtaOptions[j].id != ctaId
    decreases |CtaOptions| - i
  {
    if i == |CtaOptions| then None
    else if CtaOptions[i].id == ctaId then Some(i)
    else FindCtaFrom(ctaId, i + 1)
  }

  /** `addCTA`. */
  function AddCta(tweet: string, ctaId: string): string {
    match FindCta(ctaId)
    case None => tweet
    case Some(i) =>
      if CtaOptions[i].id == "none" then tweet
      else
        var combined := tweet + CtaOptions[i].text;
        if Utf16Length(combined) > MaxTweetLength then tweet else combined
  }

  /** Only the `none` option has an empty text. */
  lemma CtaTextsNonEmpty(i: nat)
    requires i < |CtaOptions| && CtaOptions[i].id != "none"
    ensures CtaOptions[i].text != ""
  {
    assert CtaOptions[0].id == ['n', 'o', 'n', 'e'];
  }

  /** With `none`, or an id that is not an option, the tweet comes back as it was. */
  lemma AddCtaWithoutOption(tweet: string, ctaId: string)
    requires ctaId == "none" || forall i :: 0 <= i < |CtaOptions| ==> CtaOptions[i].id != ctaId
    ensures AddCta(tweet, ctaId) == tweet
  {
  }

  /**
   * With any other option, the option's text is appended exactly when the
   * result stays within 280 UTF-16 code units; otherwise the tweet comes
   * back as it was.
   */
  lemma AddCtaWithOption(tweet: string, i: nat)
    requires i < |CtaOptions| && CtaOptions[i].id != "none"
    ensures AddCta(tweet, CtaOptions[i].id) == tweet + CtaOptions[i].text
            <==> Utf16Length(tweet + CtaOptions[i].text) <= MaxTweetLength
    ensures AddCta(tweet, CtaOptions[i].id) != tweet + CtaOptions[i].text ==> AddCta(tweet, CtaOptions[i].id) == tweet
  {
    var r := FindCta(CtaOptions[i].id);
    var j := r.value;
    assert CtaOptions[j].id == CtaOptions[i].id;
    CtaIdsDistinct(i, j);
    CtaTextsNonEmpty(i);
  }

  /** No two options share an id. */
  lemma CtaIdsDistinct(i: nat, j: nat)
    requires i < |CtaOptions| && j < |CtaOptions| && CtaOptions[i].id == CtaOptions[j].id
    ensures i == j
  {
  }

  /** The tweet is a prefix of the result, and a result that differs from the tweet is at most 280 units long. */
  lemma AddCtaBounds(tweet: string, ctaId: string)
    ensures tweet <= AddCta(tweet, ctaId)
    ensures AddCta(tweet, ctaId) != tweet ==> Utf16Length(AddCta(tweet, ctaId)) <= MaxTweetLength
  {
  }

  // ---- the fallbacks ----

  /** The fallback texts of each tone. */
  const HotTakeFallbacks: seq<string> := [
    "they've been saying the opposite for years but sure",
    "funny timing on this one",
    "we're really doing this again huh"]
  const AnalyticalFallbacks: seq<string> := [
    "this is really about their upcoming earnings, the rest is just positioning",
    "makes more sense when you look at what their competitors announced last week",
    "third time they've tried this approach. curious if anything's different now"]
  const SarcasticFallbacks: seq<string> := [
    "ah yes, because that worked so well last time",
    "can't wait to see how this gets quietly reversed",
    "the audacity is almost impressive"]
  const UnhingedFallbacks: seq<string> := [
    "me watching this knowing exactly how it ends",
    "we're really just doing this now",
    "not them acting like we wouldn't notice"]

  /** The three fallback texts of a tone. */
  function FallbackTexts(tone: Tone): (texts: seq<string>)
    ensures |texts| == 3
  {
    match tone
    case HotTake => HotTakeFallbacks
    case Analytical => AnalyticalFallbacks
    case Sarcastic => SarcasticFallbacks
    case Unhinged => UnhingedFallbacks
  }

  /** A tweet of `tone` with its text's length. */
  function ToTweet(text: string, tone: Tone): GeneratedTweet {
    GeneratedTweet(text, tone, Utf16Length(text))
  }

  /** The tweet carries its tone and its text's length. */
  predicate Counted(t: GeneratedTweet, tone: Tone) {
    t.tone == tone && t.characterCount == Utf16Length(t.text)
  }

  /** One tweet of `tone` per text, in order. */
  function TweetsOf(texts: seq<string>, tone: Tone): (tweets: seq<GeneratedTweet>)
    ensures |tweets| == |texts|
    ensures forall k :: 0 <= k < |texts| ==> Counted(tweets[k], tone) && tweets[k].text == texts[k]
  {
    seq(|texts|, k requires 0 <= k < |texts| => ToTweet(texts[k], tone))
  }

  /** `generateFallbackTweets`: the title is not used. */
  function FallbackTweets(title: string, tone: Tone): (tweets: seq<GeneratedTweet>)
    ensures |tweets| == 3
    ensures forall k :: 0 <= k < 3 ==> Counted(tweets[k], tone) && tweets[k].text == FallbackTexts(tone)[k]
  {
    TweetsOf(FallbackTexts(tone), tone)
  }

  /** The quick-tweet fallback texts of each category. */
  const UncomfortableQuickFallbacks: seq<string> := [
    "what's a tech opinion that would get you mass unfollowed",
    "what tool does everyone use that you refuse to touch",
    "what's the worst advice you followed early on",
    "what's something you pretend to understand",
    "what popular take are you tired of hearing"]
  const ReflectiveQuickFallbacks: seq<string> := [
    "what's something you stopped doing that improved your work",
    "what took you way too long to learn",
    "what small change made a big difference",
    "what do you wish you knew 5 years ago",
    "what's underrated in your workflow"]
  const DebateQuickFallbacks: seq<string> := [
    "is remote work actually more productive",
    "are code reviews worth the time",
    "is typescript worth the overhead",
    "should you specialize or generalize",
    "is perfectionism helping or hurting you"]
  const PunchyQuickFallbacks: seq<string> := [
    "most overrated tool in your stack?",
    "tabs or spaces and why",
    "unpopular tech opinion?",
    "what trend are you ignoring",
    "what's dying that nobody talks about"]
  const PersonalQuickFallbacks: seq<string> := [
    "what tool did you drop and never miss",
    "best career decision you made",
    "something you learned the hard way",
    "what habit actually stuck",
    "what did you stop caring about"]
  const RandomQuickFallbacks: seq<string> := [
    "what's a tech opinion that would get you unfollowed",
    "what took you way too long to learn",
    "is remote work actually more productive",
    "most overrated tool?",
    "what tool did you drop and never miss"]

  /** The five fallback texts of a category. */
  function QuickFallbackTexts(category: Category): (texts: seq<string>)
    ensures |texts| == 5
  {
    match category
    case Uncomfortable => UncomfortableQuickFallbacks
    case Reflective => ReflectiveQuickFallbacks
    case Debate => DebateQuickFallbacks
    case Punchy => PunchyQuickFallbacks
    case Personal => PersonalQuickFallbacks
    case Random => RandomQuickFallbacks
  }

  /** `texts.map(text => ({ text, category }))`. */
  function ToQuickTweets(texts: seq<string>, category: Category): (tweets: seq<QuickTweet>)
    ensures |tweets| == |texts|
    ensures forall k :: 0 <= k < |texts| ==> tweets[k] == QuickTweet(texts[k], category)
  {
    seq(|texts|, k requires 0 <= k < |texts| => QuickTweet(texts[k], category))
  }

  /** `getQuickTweetFallbacks`. */
  function QuickFallbacks(category: Category): (tweets: seq<QuickTweet>)
    ensures |tweets| == 5
    ensures forall k :: 0 <= k < 5 ==> tweets[k].category == category && tweets[k].text == QuickFallbackTexts(category)[k]
  {
    ToQuickTweets(QuickFallbackTexts(category), category)
  }

  // ---- shaping the model's replies ----

  /** `process.env.GEMINI_API_KEY` is set to something other than the empty string. */
  predicate HasKey(apiKey: Option<string>) {
    apiKey.Some? && apiKey.value != ""
  }

  /** The error `generateTweet` and `generateThread` throw without a key. */
  const MissingKeyError: string := "GEMINI_API_KEY not configured"

  /** The first `n` items, or all of them when there are fewer. */
  function Take<T>(items: seq<T>, n: nat): (r: seq<T>)
    ensures |r| == if |items| <= n then |items| else n
    ensures r == items[..|r|]
  {
    if |items| <= n then items else items[..n]
  }

  /** `.filter(t => t.text.length > 0)` over the mapped tweets. */
  function KeepNonEmpty(tweets: seq<GeneratedTweet>): (kept: seq<GeneratedTweet>)
    ensures |kept| <= |tweets|
    ensures forall k :: 0 <= k < |kept| ==> kept[k].text != "" && kept[k] in tweets
    decreases |tweets|
  {
    if tweets == [] then []
    else (if tweets[0].text != "" then [tweets[0]] else []) + KeepNonEmpty(tweets[1..])
  }

  /** `.map(t => ({ text: t.text || '', tone, characterCount }))`; a missing text is the empty string. */
  function ToTweets(texts: seq<Option<string>>, tone: Tone): (tweets: seq<GeneratedTweet>)
    ensures |tweets| == |texts|
    ensures forall k :: 0 <= k < |texts| ==> tweets[k] == ToTweet(texts[k].GetOr(""), tone)
  {
    seq(|texts|, k requires 0 <= k < |texts| => ToTweet(texts[k].GetOr(""), tone))
  }

  /** The tweets `generateTweet` makes of the `text` fields of a reply. */
  function ShapeTweets(texts: seq<Option<string>>, tone: Tone): (tweets: seq<GeneratedTweet>)
    ensures |tweets| <= 3
    ensures forall k :: 0 <= k < |tweets| ==> Counted(tweets[k], tone) && tweets[k].text != ""
  {
    KeepNonEmpty(ToTweets(Take(texts, 3), tone))
  }

  /** A text appears among the shaped tweets exactly when it is a non-empty text of one of the first three items. */
  lemma ShapeTweetsMembers(texts: seq<Option<string>>, tone: Tone, s: string)
    ensures (exists k :: 0 <= k < |ShapeTweets(texts, tone)| && ShapeTweets(texts, tone)[k].text == s)
            <==> s != "" && Some(s) in Take(texts, 3)
  {
    var first := Take(texts, 3);
    var mapped := ToTweets(first, tone);
    MappedTexts(first, mapped, s);
    KeepNonEmptyTexts(mapped, s);
    assert ShapeTweets(texts, tone) == KeepNonEmpty(mapped);
    assert HasText(ShapeTweets(texts, tone), s) <==> s != "" && Some(s) in first;
  }

  /** Tweets made one for one from optional texts hold a non-empty text exactly when some item is that text. */
  lemma MappedTexts(first: seq<Option<string>>, mapped: seq<GeneratedTweet>, s: string)
    requires |mapped| == |first|
    requires forall m :: 0 <= m < |first| ==> mapped[m].text == first[m].GetOr("")
    ensures s != "" ==> (HasText(mapped, s) <==> Some(s) in first)
  {
    if s != "" && HasText(mapped, s) {
      var m :| 0 <= m < |mapped| && mapped[m].text == s;
      assert first[m] == Some(s);
    }
    if s != "" && Some(s) in first {
      var m :| 0 <= m < |first| && first[m] == Some(s);
      assert mapped[m].text == s;
    }
  }

  /** Some tweet has the text `s`. */
  predicate HasText(tweets: seq<GeneratedTweet>, s: string) {
    exists k :: 0 <= k < |tweets| && tweets[k].text == s
  }

  /** A text survives the filter exactly when it is non-empty and some tweet has it. */
  lemma {:induction false} KeepNonEmptyTexts(tweets: seq<GeneratedTweet>, s: string)
    ensures HasText(KeepNonEmpty(tweets), s) <==> s != "" && HasText(tweets, s)
    decreases |tweets|
  {
    if tweets != [] {
      KeepNonEmptyTexts(tweets[1..], s);
      var head := if tweets[0].text != "" then [tweets[0]] else [];
      var rest := KeepNonEmpty(tweets[1..]);
      assert KeepNonEmpty(tweets) == head + rest;
      if HasText(head + rest, s) {
        var k :| 0 <= k < |head + rest| && (head + rest)[k].text == s;
        if k >= |head| {
          assert rest[k - |head|].text == s;
          var m :| 0 <= m < |tweets[1..]| && tweets[1..][m].text == s;
          assert tweets[m + 1].text == s;
        }
      }
      if s != "" && HasText(tweets, s) {
        var m :| 0 <= m < |tweets| && tweets[m].text == s;
        if m == 0 {
          assert (head + rest)[0].text == s;
        } else {
          assert tweets[1..][m - 1].text == s;
          var k :| 0 <= k < |rest| && rest[k].text == s;
          assert (head + rest)[k + |head|].text == s;
        }
      }
    }
  }

  lemma {:induction false} KeepNonEmptyMembers(tweets: seq<GeneratedTweet>, t: GeneratedTweet)
    ensures t in KeepNonEmpty(tweets) <==> t in tweets && t.text != ""
    decreases |tweets|
  {
    if tweets != [] {
      KeepNonEmptyMembers(tweets[1..], t);
      assert tweets == [tweets[0]] + tweets[1..];
    }
  }

  /** The tone `generateTweet` uses when its caller gives none. */
  const DefaultTweetTone: Tone := HotTake

  /**
   * `generateTweet`, with its reply given: an error without a key, the
   * fallback tweets when the reply is unusable or empty, and the shaped
   * tweets otherwise (which may be none, when every text is empty).
   */
  function GenerateTweet(apiKey: Option<string>, reply: Reply<Option<string>>, title: string, tone: Tone): (r: Result<seq<GeneratedTweet>, string>)
    ensures r.Failure? <==> !HasKey(apiKey)
    ensures r.Failure? ==> r.error == MissingKeyError
    ensures r.Success? ==> |r.value| <= 3 && forall k :: 0 <= k < |r.value| ==> Counted(r.value[k], tone)
    ensures r.Success? && reply.Items? && reply.items != [] ==> forall k :: 0 <= k < |r.value| ==> r.value[k].text != ""
    ensures r.Success? && (reply.Unusable? || reply.items == []) ==> r.value == FallbackTweets(title, tone)
    ensures HasKey(apiKey) && reply.Items? && reply.items != [] ==> r == Success(ShapeTweets(reply.items, tone))
  {
    if !HasKey(apiKey) then Failure(MissingKeyError)
    else match reply
      case Unusable => Success(FallbackTweets(title, tone))
      case Items(items) => if items == [] then Success(FallbackTweets(title, tone)) else Success(ShapeTweets(items, tone))
  }

  /** The three fixed tweets after the title in the fallback thread. */
  const FallbackThreadTail: seq<string> := [
    "Here's why this matters and what you need to know.",
    "The implications of this could be significant for the industry.",
    "What do you think - is this a good move? Reply with your take."]

  /** The thread `generateThread` falls back to: the title and three fixed tweets. */
  function FallbackThread(title: string, tone: Tone): (thread: GeneratedThread)
    ensures |thread.tweets| == 4 && thread.tweets[0] == title && thread.tone == tone
  {
    GeneratedThread([title] + FallbackThreadTail, tone)
  }

  /** The tone `generateThread` uses when its caller gives none. */
  const DefaultThreadTone: Tone := Analytical

  /**
   * `generateThread`, with its reply given: an error without a key, the
   * fallback thread when the reply is unusable or empty, and at most the
   * first five tweets of the reply otherwise.
   */
  function GenerateThread(apiKey: Option<string>, reply: Reply<string>, title: string, tone: Tone): (r: Result<GeneratedThread, string>)
    ensures r.Failure? <==> !HasKey(apiKey)
    ensures r.Failure? ==> r.error == MissingKeyError
    ensures r.Success? ==> r.value.tone == tone && 1 <= |r.value.tweets| <= 5
    ensures r.Success? && reply.Items? && reply.items != [] ==>
              |r.value.tweets| == (if |reply.items| <= 5 then |reply.items| else 5)
              && r.value.tweets == reply.items[..|r.value.tweets|]
    ensures r.Success? && (reply.Unusable? || reply.items == []) ==> r.value == FallbackThread(title, tone)
  {
    if !HasKey(apiKey) then Failure(MissingKeyError)
    else match reply
      case Unusable => Success(FallbackThread(title, tone))
      case Items(items) => if items == [] then Success(FallbackThread(title, tone)) else Success(GeneratedThread(Take(items, 5), tone))
  }

  /** The category `generateQuickTweets` uses when its caller gives none. */
  const DefaultCategory: Category := Random

  /**
   * `generateQuickTweets`, with its reply given: the fallbacks without a
   * key or with an unusable or empty reply, and at most the first five
   * texts of the reply otherwise, each with the category.
   */
  function GenerateQuickTweets(apiKey: Option<string>, reply: Reply<string>, category: Category): (r: seq<QuickTweet>)
    ensures 1 <= |r| <= 5
    ensures forall k :: 0 <= k < |r| ==> r[k].category == category
    ensures !HasKey(apiKey) || reply.Unusable? || reply.items == [] ==> r == QuickFallbacks(category)
    ensures HasKey(apiKey) && reply.Items? && reply.items != [] ==>
              |r| == (if |reply.items| <= 5 then |reply.items| else 5)
              && forall k :: 0 <= k < |r| ==> r[k].text == reply.items[k]
  {
    if !HasKey(apiKey) then QuickFallbacks(category)
    else match reply
      case Unusable => QuickFallbacks(category)
      case Items(items) => if items == [] then QuickFallbacks(category) else ToQuickTweets(Take(items, 5), category)
  }
}
