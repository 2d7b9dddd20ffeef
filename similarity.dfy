/** `getSimilarWorksByTitle` and the part of the string-similarity library it relies
    on. The library's scoring is a parameter `rating`: the model assumes nothing about
    it, so every property below holds whatever scores it returns. */
module Similarity {
  import opened Works
  import Titles

  /** The fixed similarity threshold (`similarityThreshold`). */
  const Threshold: real := 0.9

  /** The lower-cased comparison string of a work. */
  function ComparisonKey(w: Work, cfg: Settings): string {
    Titles.ToLower(Titles.NormalizedTitle(w, cfg))
  }

  /** The comparison strings of all works, by position. `getTitleFromWork` is pure, so
      computing each string once gives the values the source recomputes on every pass. */
  function ComparisonKeys(works: seq<Work>, cfg: Settings): (keys: seq<string>)
    ensures |keys| == |works|
    ensures forall i | 0 <= i < |works| :: keys[i] == ComparisonKey(works[i], cfg)
  {
    if |works| == 0 then []
    else
      var tail := works[1..];
      var rest := ComparisonKeys(tail, cfg);
      assert forall i | 1 <= i < |works| :: tail[i - 1] == works[i];
      [ComparisonKey(works[0], cfg)] + rest
  }

  /** The library's score of the work at position x against the anchor at position a. */
  function Score(keys: seq<string>, a: nat, x: nat, rating: (string, string) -> real): real
    requires a < |keys| && x < |keys|
  {
    rating(keys[a], keys[x])
  }

  /** A group of similar works: the best score seen and the positions of its works,
      the anchor last. */
  datatype WorkGroup = WorkGroup(maxSimilarity: real, works: seq<nat>)

  function Anchor(g: WorkGroup): nat
    requires g.works != []
  {
    g.works[|g.works| - 1]
  }

  /** The members other than the anchor. */
  function Matched(g: WorkGroup): seq<nat>
    requires g.works != []
  {
    g.works[..|g.works| - 1]
  }

  /** `allWorks.filter(work => work !== mainWork)`. */
  function Excluding(others: seq<nat>, anchor: nat): (r: seq<nat>)
    ensures forall x :: x in r <==> x in others && x != anchor
    ensures anchor !in others ==> r == others
    ensures Increasing(others) ==> Increasing(r)
  {
    if others == [] then []
    else
      var rest := Excluding(others[1..], anchor);
      assert others == [others[0]] + others[1..];
      assert Increasing(others) ==> forall k | 0 <= k < |rest| :: others[0] < rest[k] by {
        if Increasing(others) { AboveHead(others, rest); }
      }
      if others[0] == anchor then rest else [others[0]] + rest
  }

  /** `ratings` of `findBestMatch`: each candidate's score, in candidate order. */
  function Ratings(keys: seq<string>, a: nat, cands: seq<nat>, rating: (string, string) -> real): (rs: seq<real>)
    requires a < |keys| && InRange(cands, |keys|)
    ensures |rs| == |cands|
    ensures forall i | 0 <= i < |cands| :: rs[i] == Score(keys, a, cands[i], rating)
  {
    if cands == [] then []
    else
      assert cands[0] in cands;
      [Score(keys, a, cands[0], rating)] + Ratings(keys, a, cands[1..], rating)
  }

  /** `bestMatch.rating`: the library moves to a later candidate only on a strictly
      higher rating, so what it reports is the maximum rating. */
  function BestRating(rs: seq<real>): (m: real)
    requires rs != []
    ensures m in rs
    ensures forall x | x in rs :: x <= m
  {
    if |rs| == 1 then rs[0]
    else
      var rest := BestRating(rs[1..]);
      assert rs == [rs[0]] + rs[1..];
      if rest > rs[0] then rest else rs[0]
  }

  /** The map-then-filter of index.js: the candidates scored strictly above the
      threshold, in candidate order. */
  function Matches(keys: seq<string>, a: nat, cands: seq<nat>, rating: (string, string) -> real): (r: seq<nat>)
    requires a < |keys| && InRange(cands, |keys|)
    ensures forall x :: x in r <==> x in cands && Score(keys, a, x, rating) > Threshold
    ensures Increasing(cands) ==> Increasing(r)
  {
    if cands == [] then []
    else
      assert cands == [cands[0]] + cands[1..];
      assert cands[0] in cands;
      var rest := Matches(keys, a, cands[1..], rating);
      assert Increasing(cands) ==> forall k | 0 <= k < |rest| :: cands[0] < rest[k] by {
        if Increasing(cands) { AboveHead(cands, rest); }
      }
      if Score(keys, a, cands[0], rating) > Threshold then [cands[0]] + rest else rest
  }

  /** The best rating over the candidates is the best score over the works other than
      the anchor, and it exceeds the threshold exactly when some candidate matched. */
  lemma BestRatingIsBestScore(keys: seq<string>, anchor: nat, allWorks: seq<nat>, rating: (string, string) -> real)
    requires anchor < |keys| && InRange(allWorks, |keys|)
    requires Excluding(allWorks, anchor) != []
    ensures InRange(Excluding(allWorks, anchor), |keys|)
    ensures
      var cands := Excluding(allWorks, anchor);
      var best := BestRating(Ratings(keys, anchor, cands, rating));
      && (exists x | x in allWorks && x != anchor :: best == Score(keys, anchor, x, rating))
      && (forall x | x in allWorks && x != anchor :: Score(keys, anchor, x, rating) <= best)
      && (best > Threshold <==> Matches(keys, anchor, cands, rating) != [])
  {
    var cands := Excluding(allWorks, anchor);
    InRangeOfSubset(cands, allWorks, |keys|);
    var rs := Ratings(keys, anchor, cands, rating);
    var best := BestRating(rs);
    var matched := Matches(keys, anchor, cands, rating);
    var i :| 0 <= i < |rs| && rs[i] == best;
    assert cands[i] in cands;
    forall x | x in allWorks && x != anchor
      ensures Score(keys, anchor, x, rating) <= best
    {
      var j :| 0 <= j < |cands| && cands[j] == x;
      assert rs[j] in rs;
    }
    if matched != [] {
      assert matched[0] in matched;
    }
  }

  /** `getSimilarWorksByTitle(mainWork, allWorks)`: the matched works in candidate order,
      then the anchor, with the best rating. `findBestMatch` throws on an empty candidate
      list, hence the second requires. */
  function SimilarWorksByTitle(keys: seq<string>, anchor: nat, allWorks: seq<nat>, rating: (string, string) -> real): (g: WorkGroup)
    requires anchor < |keys| && InRange(allWorks, |keys|)
    requires Excluding(allWorks, anchor) != []
    ensures g.works != [] && Anchor(g) == anchor
    ensures forall x :: x in Matched(g) <==>
      x in allWorks && x != anchor && Score(keys, anchor, x, rating) > Threshold
    ensures Increasing(allWorks) ==> Increasing(Matched(g))
    ensures g.maxSimilarity > Threshold <==> |g.works| >= 2
  {
    var cands := Excluding(allWorks, anchor);
    InRangeOfSubset(cands, allWorks, |keys|);
    var matched := Matches(keys, anchor, cands, rating);
    BestRatingIsBestScore(keys, anchor, allWorks, rating);
    assert Increasing(allWorks) ==> Increasing(matched);
    var g := WorkGroup(BestRating(Ratings(keys, anchor, cands, rating)), matched + [anchor]);
    assert Matched(g) == matched && |g.works| == |matched| + 1;
    g
  }

  /** `maxSimilarity` is the highest score of any other work against the anchor. */
  lemma SimilarWorksBestScore(keys: seq<string>, anchor: nat, allWorks: seq<nat>, rating: (string, string) -> real)
    requires anchor < |keys| && InRange(allWorks, |keys|)
    requires Excluding(allWorks, anchor) != []
    ensures var g := SimilarWorksByTitle(keys, anchor, allWorks, rating);
      && (exists x | x in allWorks && x != anchor :: g.maxSimilarity == Score(keys, anchor, x, rating))
      && (forall x | x in allWorks && x != anchor :: Score(keys, anchor, x, rating) <= g.maxSimilarity)
  {
    BestRatingIsBestScore(keys, anchor, allWorks, rating);
  }

  /** When the group is kept, the best-scoring candidate is itself matched, so the
      reported score is the anchor's best score against the matched works. */
  lemma KeptGroupBestScore(keys: seq<string>, anchor: nat, allWorks: seq<nat>, rating: (string, string) -> real)
    requires anchor < |keys| && InRange(allWorks, |keys|)
    requires Excluding(allWorks, anchor) != []
    requires SimilarWorksByTitle(keys, anchor, allWorks, rating).maxSimilarity > Threshold
    ensures var g := SimilarWorksByTitle(keys, anchor, allWorks, rating);
      && (exists x | x in Matched(g) :: g.maxSimilarity == Score(keys, anchor, x, rating))
      && (forall x | x in Matched(g) :: Score(keys, anchor, x, rating) <= g.maxSimilarity)
  {
    var g := SimilarWorksByTitle(keys, anchor, allWorks, rating);
    SimilarWorksBestScore(keys, anchor, allWorks, rating);
    var best :| best in allWorks && best != anchor && g.maxSimilarity == Score(keys, anchor, best, rating);
    assert best in Matched(g);
  }
}
