/** The comparison string of a work (`getTitleFromWork` and the lower-casing
    its callers apply). */
module Titles {
  import opened Works

  /** The stop words, in the order they are replaced. */
  const StopWords: seq<string> := ["the", "and", "at"]

  /** The character class [A-Za-z0-9 ] that the single-character strip keeps. */
  predicate Kept(c: char) {
    ('A' <= c <= 'Z') || ('a' <= c <= 'z') || ('0' <= c <= '9') || c == ' '
  }

  /** Position of the first character outside [A-Za-z0-9 ], or |s| if there is none. */
  function FirstUnkept(s: string): (k: nat)
    ensures k <= |s|
    ensures forall j | 0 <= j < k :: Kept(s[j])
    ensures k < |s| ==> !Kept(s[k])
  {
    if s == [] then 0
    else if !Kept(s[0]) then 0
    else 1 + FirstUnkept(s[1..])
  }

  /** `s.replace(/[^A-Za-z0-9 ]/, '')`: the regular expression is not global, so only
      the first offending character goes; every other character stays in place. */
  function StripFirstUnkept(s: string): (r: string)
    ensures |r| == |s| || |r| == |s| - 1
  {
    var k := FirstUnkept(s);
    if k == |s| then s else s[..k] + s[k + 1..]
  }

  /** The strip removes nothing from a string of kept characters, and otherwise
      exactly one character: the first one outside the class. */
  lemma StripRemovesFirstUnkeptOnly(s: string)
    ensures (forall i | 0 <= i < |s| :: Kept(s[i])) ==> StripFirstUnkept(s) == s
    ensures (exists i | 0 <= i < |s| :: !Kept(s[i])) ==>
      exists k | 0 <= k < |s| ::
        && !Kept(s[k]) && (forall j | 0 <= j < k :: Kept(s[j]))
        && StripFirstUnkept(s) == s[..k] + s[k + 1..]
  {
    var k := FirstUnkept(s);
    if k == |s| {
      assert forall i | 0 <= i < |s| :: Kept(s[i]);
    } else {
      assert !Kept(s[k]);
    }
  }

  /** `pat` occurs in `s` at position i. */
  predicate OccursAt(pat: string, s: string, i: nat) {
    i + |pat| <= |s| && s[i..i + |pat|] == pat
  }

  /** `pat` occurs somewhere in `s`. */
  ghost predicate Occurs(pat: string, s: string) {
    exists i: nat :: OccursAt(pat, s, i)
  }

  lemma OccursInTail(pat: string, s: string)
    requires s != [] && Occurs(pat, s[1..])
    ensures Occurs(pat, s)
  {
    var i: nat :| OccursAt(pat, s[1..], i);
    assert s[i + 1..i + 1 + |pat|] == s[1..][i..i + |pat|];
    assert OccursAt(pat, s, i + 1);
  }

  /** `s.replaceAll(pat, rep)` for a literal pattern: scan from the left, replace each
      occurrence and resume after it, so occurrences never overlap. */
  function ReplaceAll(s: string, pat: string, rep: string): (r: string)
    requires pat != []
    ensures |rep| <= |pat| ==> |r| <= |s|
    ensures !Occurs(pat, s) ==> r == s
    decreases |s|
  {
    if |s| < |pat| then s
    else if s[..|pat|] == pat then
      assert OccursAt(pat, s, 0);
      rep + ReplaceAll(s[|pat|..], pat, rep)
    else
      assert Occurs(pat, s[1..]) ==> Occurs(pat, s) by {
        if Occurs(pat, s[1..]) { OccursInTail(pat, s); }
      }
      [s[0]] + ReplaceAll(s[1..], pat, rep)
  }

  lemma OccursPastHead(pat: string, s: string)
    requires s != [] && Occurs(pat, s) && !OccursAt(pat, s, 0)
    ensures Occurs(pat, s[1..])
  {
    var i: nat :| OccursAt(pat, s, i);
    assert i > 0;
    assert s[1..][i - 1..i - 1 + |pat|] == s[i..i + |pat|];
    assert OccursAt(pat, s[1..], i - 1);
  }

  /** With a shorter replacement, the title gets shorter exactly when the pattern
      occurs in it. */
  lemma {:induction false} ReplaceAllShrinks(s: string, pat: string, rep: string)
    requires pat != [] && |rep| < |pat|
    ensures |ReplaceAll(s, pat, rep)| < |s| <==> Occurs(pat, s)
    decreases |s|
  {
    if |s| < |pat| {
      assert !Occurs(pat, s);
    } else if s[..|pat|] == pat {
      assert OccursAt(pat, s, 0);
    } else {
      ReplaceAllShrinks(s[1..], pat, rep);
      if Occurs(pat, s) {
        OccursPastHead(pat, s);
      } else if Occurs(pat, s[1..]) {
        OccursInTail(pat, s);
      }
    }
  }

  lemma ReplaceAllPastHead(s: string, pat: string, rep: string)
    requires pat != [] && |pat| <= |s| && !OccursAt(pat, s, 0)
    ensures ReplaceAll(s, pat, rep) == [s[0]] + ReplaceAll(s[1..], pat, rep)
  {
  }

  /** `pat` does not occur in `s` at any position before n. */
  predicate NoMatchBefore(pat: string, s: string, n: nat) {
    forall i | 0 <= i < n :: !OccursAt(pat, s, i)
  }

  lemma NoMatchPastHead(pat: string, s: string, n: nat)
    requires 0 < n <= |s| && NoMatchBefore(pat, s, n)
    ensures NoMatchBefore(pat, s[1..], n - 1)
  {
    forall i | 0 <= i < n - 1 ensures !OccursAt(pat, s[1..], i) {
      assert !OccursAt(pat, s, i + 1);
      if i + |pat| <= |s[1..]| {
        assert s[i + 1..i + 1 + |pat|] == s[1..][i..i + |pat|];
      }
    }
  }

  /** The scan replaces the leftmost occurrence first and resumes right after it:
      `rest` is what follows the occurrence at k. */
  lemma {:induction false} ReplaceAllLeftmostAt(s: string, k: nat, pat: string, rep: string, rest: string)
    requires pat != [] && OccursAt(pat, s, k) && NoMatchBefore(pat, s, k)
    requires rest == s[k + |pat|..]
    ensures ReplaceAll(s, pat, rep) == s[..k] + rep + ReplaceAll(rest, pat, rep)
    decreases k
  {
    if k == 0 {
      ReplaceAllAtMatch(s, pat, rep);
      assert s[..k] == [];
    } else {
      NoMatchPastHead(pat, s, k);
      assert s[1..][k - 1..k - 1 + |pat|] == s[k..k + |pat|];
      assert s[1..][k - 1 + |pat|..] == rest;
      ReplaceAllLeftmostAt(s[1..], k - 1, pat, rep, rest);
      ReplaceAllLeftmostStep(s, k, pat, rep, ReplaceAll(rest, pat, rep));
    }
  }

  /** One step of the scan before the first occurrence: the head character is kept. */
  lemma ReplaceAllLeftmostStep(s: string, k: nat, pat: string, rep: string, tail: string)
    requires pat != [] && 0 < k && OccursAt(pat, s, k) && !OccursAt(pat, s, 0)
    requires ReplaceAll(s[1..], pat, rep) == s[1..][..k - 1] + rep + tail
    ensures ReplaceAll(s, pat, rep) == s[..k] + rep + tail
  {
    var t := s[1..];
    ReplaceAllPastHead(s, pat, rep);
    HeadAndPrefix(s, k);
    ConsRegroup(ReplaceAll(s, pat, rep), s[0], ReplaceAll(t, pat, rep), t[..k - 1], s[..k], rep, tail);
  }

  lemma HeadAndPrefix(s: string, k: nat)
    requires 0 < k <= |s|
    ensures [s[0]] + s[1..][..k - 1] == s[..k]
  {
  }

  lemma ConsRegroup(a: string, c: char, b: string, x: string, p: string, y: string, z: string)
    requires a == [c] + b && b == x + y + z && [c] + x == p
    ensures a == p + y + z
  {
  }

  /** The same, with the title cut at its first occurrence of the pattern. */
  lemma ReplaceAllLeftmost(p: string, pat: string, q: string, rep: string)
    requires pat != [] && NoMatchBefore(pat, p + pat + q, |p|)
    ensures ReplaceAll(p + pat + q, pat, rep) == p + rep + ReplaceAll(q, pat, rep)
  {
    var s := p + pat + q;
    assert s[|p|..|p| + |pat|] == pat && s[..|p|] == p && s[|p| + |pat|..] == q;
    ReplaceAllLeftmostAt(s, |p|, pat, rep, q);
  }

  /** The title after the stop-word loop has run over `words`, in order: each word,
      surrounded by single spaces, is replaced by one space. */
  function StripStopWords(t: string, words: seq<string>): (r: string)
    ensures |r| <= |t|
  {
    if words == [] then t
    else
      var w := words[|words| - 1];
      ReplaceAll(StripStopWords(t, words[..|words| - 1]), " " + w + " ", " ")
  }

  /** The title, followed by a space and the subtitle when subtitles are included and
      the work has a non-empty one. */
  function Concatenated(w: Work, cfg: Settings): (r: string)
    ensures |w.title| <= |r| && r[..|w.title|] == w.title
    ensures |r| > |w.title| <==> cfg.includeSubtitles && HasSubtitle(w)
  {
    if cfg.includeSubtitles && HasSubtitle(w) then w.title + " " + w.subtitle.value else w.title
  }

  /** What `getTitleFromWork` returns. */
  function NormalizedTitle(w: Work, cfg: Settings): (r: string)
    ensures |r| <= |Concatenated(w, cfg)|
    ensures !cfg.aggressiveNormalization ==>
      r == (if cfg.includeSubtitles && w.subtitle.Some? && w.subtitle.value != ""
            then w.title + " " + w.subtitle.value else w.title)
  {
    var t := Concatenated(w, cfg);
    if cfg.aggressiveNormalization then StripStopWords(StripFirstUnkept(t), StopWords) else t
  }

  /** `getTitleFromWork`: `title` is reassigned step by step, once per stop word. */
  method TitleFromWork(w: Work, cfg: Settings) returns (title: string)
    ensures title == NormalizedTitle(w, cfg)
  {
    title := w.title;
    if cfg.includeSubtitles && HasSubtitle(w) {
      title := title + " " + w.subtitle.value;
    }
    if cfg.aggressiveNormalization {
      title := StripFirstUnkept(title);
      ghost var stripped := title;
      for i := 0 to |StopWords|
        invariant title == StripStopWords(stripped, StopWords[..i])
      {
        ghost var done := StopWords[..i + 1];
        assert done[..i] == StopWords[..i] && done[i] == StopWords[i];
        title := ReplaceAll(title, " " + StopWords[i] + " ", " ");
      }
      assert StopWords[..|StopWords|] == StopWords;
    }
  }

  /** JavaScript `toLowerCase` restricted to ASCII letters. */
  function LowerChar(c: char): char {
    if 'A' <= c <= 'Z' then (c as int + 32) as char else c
  }

  function ToLower(s: string): (r: string)
    ensures |r| == |s|
    ensures forall i | 0 <= i < |s| :: r[i] == LowerChar(s[i])
  {
    if s == [] then [] else [LowerChar(s[0])] + ToLower(s[1..])
  }

  /** A string without a space followed by 'a' holds neither " and " nor " at ". */
  lemma NoAndOrAt(s: string)
    requires forall i | 0 <= i < |s| - 1 :: !(s[i] == ' ' && s[i + 1] == 'a')
    ensures ReplaceAll(s, " and ", " ") == s && ReplaceAll(s, " at ", " ") == s
  {
    forall i: nat ensures !OccursAt(" and ", s, i) && !OccursAt(" at ", s, i) {
      if i + 4 <= |s| {
        assert !(s[i] == ' ' && s[i + 1] == 'a');
        assert s[i..i + 4][0] == s[i] && s[i..i + 4][1] == s[i + 1];
        if i + 5 <= |s| {
          assert s[i..i + 5][0] == s[i] && s[i..i + 5][1] == s[i + 1];
        }
      }
    }
  }

  /** The stop-word loop spelled out: " the ", then " and ", then " at ". */
  lemma StripStopWordsInOrder(t: string)
    ensures StripStopWords(t, StopWords)
         == ReplaceAll(ReplaceAll(ReplaceAll(t, " the ", " "), " and ", " "), " at ", " ")
  {
    StopWordsPrefixes();
    var w1: seq<string>, w2: seq<string> := ["the"], ["the", "and"];
    assert StripStopWords(t, w1) == ReplaceAll(t, " the ", " ");
    assert StripStopWords(t, w2) == ReplaceAll(ReplaceAll(t, " the ", " "), " and ", " ");
  }

  lemma StopWordsPrefixes()
    ensures StopWords[..2] == ["the", "and"] && ["the", "and"][..1] == ["the"] && ["the"][..0] == []
    ensures " " + StopWords[2] + " " == " at " && " " + "and" + " " == " and " && " " + "the" + " " == " the "
  {
  }

  /** A title made of letters and spaces passes the single-character strip unchanged. */
  lemma LettersAndSpacesKept(s: string)
    requires forall i | 0 <= i < |s| :: Kept(s[i])
    ensures StripFirstUnkept(s) == s
  {
  }

  lemma ReplaceAllAtMatch(s: string, pat: string, rep: string)
    requires pat != [] && |pat| <= |s| && s[..|pat|] == pat
    ensures ReplaceAll(s, pat, rep) == rep + ReplaceAll(s[|pat|..], pat, rep)
  {
  }

  lemma ReplaceAllPastMismatch(s: string, pat: string, rep: string)
    requires pat != [] && |pat| <= |s| && s[0] != pat[0]
    ensures ReplaceAll(s, pat, rep) == [s[0]] + ReplaceAll(s[1..], pat, rep)
  {
    assert s[..|pat|][0] != pat[0];
  }

  lemma ReplaceDoubledThe(s: string, once: string)
    requires s == "a the the b" && once == "a the b"
    ensures ReplaceAll(s, " the ", " ") == once
  {
    ReplaceAllPastMismatch(s, " the ", " ");
    assert s[1..] == " the the b";
    ReplaceAllAtMatch(s[1..], " the ", " ");
    assert s[1..][5..] == "the b";
    ReplaceAllPastMismatch("the b", " the ", " ");
    assert "the b"[1..] == "he b";
  }

  lemma ReplaceSingleThe(s: string, twice: string)
    requires s == "a the b" && twice == "a b"
    ensures ReplaceAll(s, " the ", " ") == twice
  {
    ReplaceAllPastMismatch(s, " the ", " ");
    assert s[1..] == " the b";
    ReplaceAllAtMatch(s[1..], " the ", " ");
    assert s[1..][5..] == "b";
  }

  /** With aggressive normalisation on and no subtitle, the title goes through the
      single-character strip and then the stop-word loop. */
  lemma AggressiveTitleOnly(w: Work, cfg: Settings)
    requires cfg.aggressiveNormalization && !HasSubtitle(w)
    ensures NormalizedTitle(w, cfg) == StripStopWords(StripFirstUnkept(w.title), StopWords)
  {
  }

  /** A title that the single-character strip leaves alone, without a subtitle, is
      normalised by the three replacements alone. */
  lemma PlainTitle(t: string)
    requires StripFirstUnkept(t) == t
    ensures NormalizedTitle(Work("", t, None), Settings(false, true))
         == ReplaceAll(ReplaceAll(ReplaceAll(t, " the ", " "), " and ", " "), " at ", " ")
  {
    AggressiveTitleOnly(Work("", t, None), Settings(false, true));
    StripStopWordsInOrder(t);
  }

  /** The two test titles are made of letters and spaces only. */
  lemma StopWordTitlesPlain(t: string)
    requires t == "a the the b" || t == "a the b"
    ensures StripFirstUnkept(t) == t
  {
    LettersAndSpacesKept(t);
  }

  lemma NothingAfterThe(t: string)
    requires t == "a the b" || t == "a b"
    ensures ReplaceAll(ReplaceAll(t, " and ", " "), " at ", " ") == t
  {
    NoAndOrAt(t);
  }

  lemma FirstPassOnDoubledStopWord(t: string, once: string)
    requires t == "a the the b" && once == "a the b"
    ensures NormalizedTitle(Work("", t, None), Settings(false, true)) == once
  {
    StopWordTitlesPlain(t);
    PlainTitle(t);
    ReplaceDoubledThe(t, once);
    NothingAfterThe(once);
  }

  lemma SecondPassOnDoubledStopWord(t: string, twice: string)
    requires t == "a the b" && twice == "a b"
    ensures NormalizedTitle(Work("", t, None), Settings(false, true)) == twice
  {
    StopWordTitlesPlain(t);
    PlainTitle(t);
    ReplaceSingleThe(t, twice);
    NothingAfterThe(twice);
  }

  /** A doubled stop word survives the first pass, because the replacement resumes
      after the first match, so normalising twice is not normalising once. */
  lemma DoubledStopWordSurvives()
    ensures
      var cfg := Settings(false, true);
      var once := NormalizedTitle(Work("", "a the the b", None), cfg);
      once == "a the b" && NormalizedTitle(Work("", once, None), cfg) == "a b"
  {
    FirstPassOnDoubledStopWord("a the the b", "a the b");
    SecondPassOnDoubledStopWord("a the b", "a b");
  }

  lemma FirstPassOnPunctuation(t: string)
    requires t == "a!b?"
    ensures NormalizedTitle(Work("", t, None), Settings(false, true)) == "ab?"
  {
    AggressiveTitleOnly(Work("", t, None), Settings(false, true));
    assert FirstUnkept(t) == 1;
    assert t[..1] + t[2..] == "ab?";
    NoAndOrAt("ab?");
    StripStopWordsInOrder("ab?");
  }

  lemma SecondPassOnPunctuation(t: string)
    requires t == "ab?"
    ensures NormalizedTitle(Work("", t, None), Settings(false, true)) == "ab"
  {
    AggressiveTitleOnly(Work("", t, None), Settings(false, true));
    assert Kept(t[0]) && Kept(t[1]) && !Kept(t[2]);
    assert FirstUnkept(t) == 2;
    assert t[..2] + t[3..] == "ab";
    NoAndOrAt("ab");
    StripStopWordsInOrder("ab");
  }

  /** Only the first character outside [A-Za-z0-9 ] goes on each pass. */
  lemma SecondPunctuationSurvives()
    ensures
      var cfg := Settings(false, true);
      var once := NormalizedTitle(Work("", "a!b?", None), cfg);
      once == "ab?" && NormalizedTitle(Work("", once, None), cfg) == "ab"
  {
    FirstPassOnPunctuation("a!b?");
    SecondPassOnPunctuation("ab?");
  }

  lemma CapitalHasNoThe(t: string)
    requires t == "a The b"
    ensures !Occurs(" the ", t)
  {
    forall i: nat ensures !OccursAt(" the ", t, i) {
      if i + 5 <= |t| {
        assert t[i..i + 5][0] == t[i] && t[i..i + 5][1] == t[i + 1];
        assert t[i] != ' ' || t[i + 1] != 't';
      }
    }
  }

  lemma CapitalIsPlain(t: string)
    requires t == "a The b"
    ensures StripFirstUnkept(t) == t
    ensures ReplaceAll(ReplaceAll(ReplaceAll(t, " the ", " "), " and ", " "), " at ", " ") == t
  {
    LettersAndSpacesKept(t);
    CapitalHasNoThe(t);
    NoAndOrAt(t);
  }

  lemma LowerCapital(t: string, lower: string)
    requires t == "a The b" && lower == "a the b"
    ensures ToLower(t) == lower
  {
    var r := ToLower(t);
    assert r[0] == 'a' && r[1] == ' ' && r[2] == 't' && r[3] == 'h';
    assert r[4] == 'e' && r[5] == ' ' && r[6] == 'b';
  }

  /** The stop words are matched before lower-casing, so a capitalised stop word stays
      and only its case changes. */
  lemma CapitalStopWordKept(t: string, lower: string)
    requires t == "a The b" && lower == "a the b"
    ensures ToLower(NormalizedTitle(Work("", t, None), Settings(false, true))) == lower
  {
    CapitalIsPlain(t);
    PlainTitle(t);
    LowerCapital(t, lower);
  }
}
