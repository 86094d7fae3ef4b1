/**
 * The title normaliser of the topic de-duplicator (`normalizeForComparison`):
 * a title becomes its topic signature, at most eight lower-case words longer
 * than three characters, sorted and joined by single spaces.
 */
module Signature {
  import opened Text
  import Sorting

  /** `.replace(/[^a-z0-9\s]/g, '')`: keeps lower-case letters, digits and white space. */
  function RemoveDisallowed(s: string): (r: string)
    ensures forall i :: 0 <= i < |r| ==> IsLowerAlnum(r[i]) || IsSpace(r[i])
  {
    if s == [] then []
    else (if IsLowerAlnum(s[0]) || IsSpace(s[0]) then [s[0]] else []) + RemoveDisallowed(s[1..])
  }

  /** The leading half of `String.prototype.trim`. */
  function TrimStart(s: string): (r: string)
    ensures |r| <= |s|
    ensures r == [] || !IsSpace(r[0])
  {
    if s != [] && IsSpace(s[0]) then TrimStart(s[1..]) else s
  }

  /** The trailing half of `String.prototype.trim`. */
  function TrimEnd(s: string): (r: string)
    ensures |r| <= |s|
    ensures r == [] || !IsSpace(r[|r| - 1])
  {
    if s != [] && IsSpace(s[|s| - 1]) then TrimEnd(s[..|s| - 1]) else s
  }

  /** Trimming the front leaves a suffix. */
  lemma {:induction false} TrimStartIsSuffix(s: string)
    ensures TrimStart(s) == s[|s| - |TrimStart(s)|..]
  {
    if s != [] && IsSpace(s[0]) {
      TrimStartIsSuffix(s[1..]);
    }
  }

  /** Trimming the back leaves a prefix. */
  lemma {:induction false} TrimEndIsPrefix(s: string)
    ensures TrimEnd(s) == s[..|TrimEnd(s)|]
  {
    if s != [] && IsSpace(s[|s| - 1]) {
      TrimEndIsPrefix(s[..|s| - 1]);
    }
  }

  /** `String.prototype.trim`. */
  function Trim(s: string): string {
    TrimEnd(TrimStart(s))
  }

  /** Only lower-case letters, digits and plain spaces. */
  ghost predicate WordsAndBlanks(s: string) {
    forall i :: 0 <= i < |s| ==> IsLowerAlnum(s[i]) || s[i] == ' '
  }

  /** `.replace(/\s+/g, ' ')`: every maximal run of white space becomes one space. */
  function CollapseWhitespace(s: string): string
    decreases |s|
  {
    if s == [] then []
    else if IsSpace(s[0]) then " " + CollapseWhitespace(TrimStart(s[1..]))
    else [s[0]] + CollapseWhitespace(s[1..])
  }

  /** `.split(' ')`: the pieces between single spaces; the empty string gives one empty piece. */
  function SplitOnSpace(s: string): (r: seq<string>)
    ensures |r| >= 1
    ensures forall k, j :: 0 <= k < |r| && 0 <= j < |r[k]| ==> r[k][j] != ' '
    ensures WordsAndBlanks(s) ==> forall k, j :: 0 <= k < |r| && 0 <= j < |r[k]| ==> IsLowerAlnum(r[k][j])
  {
    if s == [] then [""]
    else
      var rest := SplitOnSpace(s[1..]);
      if s[0] == ' ' then [""] + rest
      else [[s[0]] + rest[0]] + rest[1..]
  }

  /** `.filter(word => word.length > 3)`. */
  function KeepLongWords(ws: seq<string>): (r: seq<string>)
    ensures forall k :: 0 <= k < |r| ==> |r[k]| > 3 && r[k] in ws
  {
    if ws == [] then []
    else (if |ws[0]| > 3 then [ws[0]] else []) + KeepLongWords(ws[1..])
  }

  /** `.slice(0, 8)`. */
  function FirstEight(ws: seq<string>): (r: seq<string>)
    ensures |r| <= 8 && r <= ws
    ensures |ws| <= 8 ==> r == ws
  {
    if |ws| <= 8 then ws else ws[..8]
  }

  /** The default comparison of `Array.prototype.sort` on strings: code unit by code unit. */
  function CompareWords(a: string, b: string): int {
    if a == [] && b == [] then 0
    else if a == [] then -1
    else if b == [] then 1
    else if a[0] < b[0] then -1
    else if b[0] < a[0] then 1
    else CompareWords(a[1..], b[1..])
  }

  lemma {:induction false} CompareWordsFlip(a: string, b: string)
    ensures CompareWords(b, a) == -CompareWords(a, b)
  {
    if a != [] && b != [] && a[0] == b[0] {
      CompareWordsFlip(a[1..], b[1..]);
    }
  }

  lemma CompareWordsAntisymmetric()
    ensures Sorting.Antisymmetric(CompareWords)
  {
    forall a, b ensures CompareWords(a, b) > 0 ==> CompareWords(b, a) < 0 {
      CompareWordsFlip(a, b);
    }
  }

  /** `.join(' ')`. */
  function JoinWords(ws: seq<string>): string {
    if ws == [] then ""
    else if |ws| == 1 then ws[0]
    else ws[0] + " " + JoinWords(ws[1..])
  }

  /** The steps up to the sort: the first eight long words of the cleaned title. */
  function FirstLongWords(title: string): seq<string> {
    FirstEight(KeepLongWords(SplitOnSpace(Trim(CollapseWhitespace(RemoveDisallowed(ToLowerCase(title)))))))
  }

  /** The words of the signature, after `.sort()`. */
  function SignatureWords(title: string): seq<string> {
    Sorting.SortBy(FirstLongWords(title), CompareWords)
  }

  /** `normalizeForComparison`. */
  function NormalizeForComparison(title: string): string {
    JoinWords(SignatureWords(title))
  }

  /** A word a signature may hold: longer than three characters, only `[a-z0-9]`. */
  ghost predicate IsSignatureWord(w: string) {
    |w| > 3 && forall j :: 0 <= j < |w| ==> IsLowerAlnum(w[j])
  }

  /** What a signature's word list looks like. */
  ghost predicate IsSignatureWords(ws: seq<string>) {
    && |ws| <= 8
    && (forall k :: 0 <= k < |ws| ==> IsSignatureWord(ws[k]))
    && Sorting.SortedBy(ws, CompareWords)
  }

  lemma {:induction false} CollapseKeepsWordsAndBlanks(s: string)
    requires forall i :: 0 <= i < |s| ==> IsLowerAlnum(s[i]) || IsSpace(s[i])
    ensures WordsAndBlanks(CollapseWhitespace(s))
  {
    if s != [] {
      if IsSpace(s[0]) {
        var t := TrimStart(s[1..]);
        TrimStartIsSuffix(s[1..]);
        assert forall i :: 0 <= i < |t| ==> t[i] == s[|s| - |t| + i];
        CollapseKeepsWordsAndBlanks(t);
      } else {
        CollapseKeepsWordsAndBlanks(s[1..]);
      }
    }
  }

  lemma TrimKeepsWordsAndBlanks(s: string)
    requires WordsAndBlanks(s)
    ensures WordsAndBlanks(Trim(s))
  {
    var t := TrimStart(s);
    TrimStartIsSuffix(s);
    TrimEndIsPrefix(t);
    assert forall i :: 0 <= i < |t| ==> t[i] == s[|s| - |t| + i];
  }

  lemma FirstLongWordsShape(title: string)
    ensures forall k :: 0 <= k < |FirstLongWords(title)| ==> IsSignatureWord(FirstLongWords(title)[k])
  {
    var stripped := RemoveDisallowed(ToLowerCase(title));
    CollapseKeepsWordsAndBlanks(stripped);
    var cleaned := CollapseWhitespace(stripped);
    TrimKeepsWordsAndBlanks(cleaned);
    var pieces := SplitOnSpace(Trim(cleaned));
    var first := FirstLongWords(title);
    assert forall k :: 0 <= k < |first| ==> first[k] in pieces;
  }

  /**
   * The signature holds at most eight words, each longer than three
   * characters and made of `[a-z0-9]` only, in ascending order; they are the
   * first eight long words of the cleaned title, rearranged.
   */
  lemma SignatureWordsShape(title: string)
    ensures IsSignatureWords(SignatureWords(title))
    ensures multiset(SignatureWords(title)) == multiset(FirstLongWords(title))
    ensures NormalizeForComparison(title) == JoinWords(SignatureWords(title))
  {
    var first := FirstLongWords(title);
    FirstLongWordsShape(title);
    var ws := SignatureWords(title);
    Sorting.SortByPermutes(first, CompareWords);
    forall k | 0 <= k < |ws| ensures IsSignatureWord(ws[k]) {
      assert ws[k] in multiset(first);
    }
    CompareWordsAntisymmetric();
    Sorting.SortBySorted(first, CompareWords);
  }

  // ---- The signature is a fixed point of the normaliser ----

  lemma {:induction false} JoinWordsShape(ws: seq<string>)
    requires forall k {:trigger ws[k]} :: 0 <= k < |ws| ==> IsSignatureWord(ws[k])
    ensures WordsAndBlanks(JoinWords(ws))
    ensures ws != [] ==> IsSignatureWord(ws[0]) && JoinWords(ws) != [] && JoinWords(ws)[0] == ws[0][0]
    ensures ws != [] ==>
              IsSignatureWord(ws[|ws| - 1]) && JoinWords(ws) != []
              && JoinWords(ws)[|JoinWords(ws)| - 1] == ws[|ws| - 1][|ws[|ws| - 1]| - 1]
  {
    if |ws| > 1 {
      JoinWordsShape(ws[1..]);
      var w, rest := ws[0], JoinWords(ws[1..]);
      assert JoinWords(ws) == w + " " + rest;
      forall i | 0 <= i < |JoinWords(ws)| ensures IsLowerAlnum(JoinWords(ws)[i]) || JoinWords(ws)[i] == ' ' {
        if i > |w| {
          assert JoinWords(ws)[i] == rest[i - |w| - 1];
        }
      }
    }
  }

  lemma {:induction false} RemoveDisallowedKeeps(s: string)
    requires WordsAndBlanks(s)
    ensures RemoveDisallowed(s) == s
  {
    if s != [] {
      RemoveDisallowedKeeps(s[1..]);
      assert s == [s[0]] + s[1..];
    }
  }

  lemma {:induction false} CollapseAfterWord(w: string, x: string)
    requires forall j :: 0 <= j < |w| ==> IsLowerAlnum(w[j])
    ensures CollapseWhitespace(w + x) == w + CollapseWhitespace(x)
  {
    if w != [] {
      assert (w + x)[0] == w[0] && (w + x)[1..] == w[1..] + x;
      CollapseAfterWord(w[1..], x);
    } else {
      assert w + x == x;
    }
  }

  lemma {:induction false} CollapseJoin(ws: seq<string>)
    requires forall k {:trigger ws[k]} :: 0 <= k < |ws| ==> IsSignatureWord(ws[k])
    ensures CollapseWhitespace(JoinWords(ws)) == JoinWords(ws)
  {
    if |ws| == 1 {
      CollapseAfterWord(ws[0], "");
      assert ws[0] + "" == ws[0];
    } else if |ws| > 1 {
      var rest := JoinWords(ws[1..]);
      CollapseJoin(ws[1..]);
      JoinWordsShape(ws[1..]);
      assert ws[0] + " " + rest == ws[0] + (" " + rest);
      CollapseAfterWord(ws[0], " " + rest);
      assert (" " + rest)[1..] == rest;
    }
  }

  lemma {:induction false} SplitAfterWord(w: string, x: string)
    requires forall j :: 0 <= j < |w| ==> w[j] != ' '
    ensures SplitOnSpace(w + x) == [w + SplitOnSpace(x)[0]] + SplitOnSpace(x)[1..]
  {
    if w != [] {
      assert (w + x)[0] == w[0] && (w + x)[1..] == w[1..] + x;
      SplitAfterWord(w[1..], x);
      assert [w[0]] + (w[1..] + SplitOnSpace(x)[0]) == w + SplitOnSpace(x)[0];
    } else {
      assert w + x == x;
      assert w + SplitOnSpace(x)[0] == SplitOnSpace(x)[0];
      assert SplitOnSpace(x) == [SplitOnSpace(x)[0]] + SplitOnSpace(x)[1..];
    }
  }

  lemma {:induction false} SplitJoin(ws: seq<string>)
    requires ws != []
    requires forall k, j :: 0 <= k < |ws| && 0 <= j < |ws[k]| ==> ws[k][j] != ' '
    ensures SplitOnSpace(JoinWords(ws)) == ws
  {
    if |ws| == 1 {
      SplitAfterWord(ws[0], "");
      assert ws[0] + "" == ws[0] && ws[0] + [] == ws[0];
    } else {
      var rest := JoinWords(ws[1..]);
      SplitJoin(ws[1..]);
      assert ws[0] + " " + rest == ws[0] + (" " + rest);
      SplitAfterWord(ws[0], " " + rest);
      assert (" " + rest)[1..] == rest;
      assert ws[0] + "" == ws[0];
      assert ws == [ws[0]] + ws[1..];
    }
  }

  lemma {:induction false} KeepLongWordsKeepsAll(ws: seq<string>)
    requires forall k :: 0 <= k < |ws| ==> |ws[k]| > 3
    ensures KeepLongWords(ws) == ws
  {
    if ws != [] {
      KeepLongWordsKeepsAll(ws[1..]);
      assert ws == [ws[0]] + ws[1..];
    }
  }

  lemma CleaningKeepsJoin(ws: seq<string>)
    requires forall k {:trigger ws[k]} :: 0 <= k < |ws| ==> IsSignatureWord(ws[k])
    ensures Trim(CollapseWhitespace(RemoveDisallowed(ToLowerCase(JoinWords(ws))))) == JoinWords(ws)
  {
    var s := JoinWords(ws);
    JoinWordsShape(ws);
    LowerKeepsWordsAndBlanks(s);
    RemoveDisallowedKeeps(s);
    CollapseJoin(ws);
    TrimKeepsInnerText(s);
  }

  lemma LowerKeepsWordsAndBlanks(s: string)
    requires WordsAndBlanks(s)
    ensures ToLowerCase(s) == s
  {
  }

  lemma TrimKeepsInnerText(s: string)
    requires s == [] || (!IsSpace(s[0]) && !IsSpace(s[|s| - 1]))
    ensures Trim(s) == s
  {
    assert TrimStart(s) == s;
  }

  /** Normalising a signature's text gives back the same word list. */
  lemma SignatureFixpoint(ws: seq<string>)
    requires IsSignatureWords(ws)
    ensures SignatureWords(JoinWords(ws)) == ws
  {
    var s := JoinWords(ws);
    CleaningKeepsJoin(ws);
    if ws == [] {
      assert SplitOnSpace(s) == [""];
      assert KeepLongWords([""]) == [];
    } else {
      SplitJoin(ws);
      KeepLongWordsKeepsAll(ws);
    }
    assert FirstLongWords(s) == ws;
    Sorting.SortBySortedIsIdentity(ws, CompareWords);
  }

  /** Normalisation is idempotent. */
  lemma NormalizeIdempotent(title: string)
    ensures NormalizeForComparison(NormalizeForComparison(title)) == NormalizeForComparison(title)
  {
    SignatureWordsShape(title);
    SignatureFixpoint(SignatureWords(title));
  }

  // ---- Titles that differ in case or punctuation only ----

  /** Titles that differ only in the case of ASCII letters have the same signature. */
  lemma SignatureIgnoresCase(a: string, b: string)
    requires |a| == |b|
    requires forall i :: 0 <= i < |a| ==> LowerChar(a[i]) == LowerChar(b[i])
    ensures NormalizeForComparison(a) == NormalizeForComparison(b)
  {
    assert ToLowerCase(a) == ToLowerCase(b);
  }

  lemma {:induction false} RemoveDisallowedAppend(x: string, y: string)
    ensures RemoveDisallowed(x + y) == RemoveDisallowed(x) + RemoveDisallowed(y)
  {
    if x == [] {
      assert x + y == y;
    } else {
      assert (x + y)[0] == x[0] && (x + y)[1..] == x[1..] + y;
      RemoveDisallowedAppend(x[1..], y);
    }
  }

  /** Inserting a character that is neither a letter, a digit nor white space leaves the signature alone. */
  lemma SignatureIgnoresPunctuation(a: string, c: char, b: string)
    requires !IsLowerAlnum(LowerChar(c)) && !IsSpace(c)
    ensures NormalizeForComparison(a + [c] + b) == NormalizeForComparison(a + b)
  {
    PunctuationRemoved(a, c, b);
  }

  lemma PunctuationRemoved(a: string, c: char, b: string)
    requires !IsLowerAlnum(LowerChar(c)) && !IsSpace(c)
    ensures RemoveDisallowed(ToLowerCase(a + [c] + b)) == RemoveDisallowed(ToLowerCase(a + b))
  {
    var la, lb := ToLowerCase(a), ToLowerCase(b);
    assert ToLowerCase(a + [c] + b) == la + [LowerChar(c)] + lb;
    assert ToLowerCase(a + b) == la + lb;
    RemoveDisallowedAppend(la + [LowerChar(c)], lb);
    RemoveDisallowedAppend(la, [LowerChar(c)]);
    RemoveDisallowedAppend(la, lb);
    assert RemoveDisallowed([LowerChar(c)]) == [];
    assert RemoveDisallowed(la) + [] == RemoveDisallowed(la);
  }
}
