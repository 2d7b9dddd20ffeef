/** `groupsOfSimilarWorks`: the greedy partition of an author's works into groups of
    similar titles. Works are identified by their position in the fetched `entries`:
    the deep clone makes every entry a distinct object, so the reference comparisons
    of the source (`!==`, `includes`) compare positions. */
module Clustering {
  import opened Works
  import opened Similarity

  /** `entries.filter(entry => !similarWorks.works.includes(entry))`. */
  function Without(entries: seq<nat>, members: seq<nat>): (r: seq<nat>)
    ensures forall x :: x in r <==> x in entries && x !in members
    ensures |r| <= |entries|
    ensures Increasing(entries) ==> Increasing(r)
  {
    if entries == [] then []
    else
      var rest := Without(entries[1..], members);
      assert entries == [entries[0]] + entries[1..];
      assert Increasing(entries) ==> forall k | 0 <= k < |rest| :: entries[0] < rest[k] by {
        if Increasing(entries) { AboveHead(entries, rest); }
      }
      if entries[0] in members then rest else [entries[0]] + rest
  }

  /** The positions 0 .. n-1 of the cloned entries. */
  function Positions(n: nat): (r: seq<nat>)
    ensures |r| == n && Increasing(r) && InRange(r, n)
    ensures forall i | 0 <= i < n :: r[i] == i
  {
    seq(n, i => i)
  }

  /** The groups the loop of `groupsOfSimilarWorks` produces from the working list
      `entries`: the first entry is the anchor; a group is kept when its best score is
      above the threshold, and then its members leave the working list. */
  function Cluster(keys: seq<string>, entries: seq<nat>, rating: (string, string) -> real): seq<WorkGroup>
    requires Increasing(entries) && InRange(entries, |keys|)
    decreases |entries|
  {
    if |entries| <= 1 then []
    else
      var anchor, rest := entries[0], entries[1..];
      assert anchor !in rest;
      var g := SimilarWorksByTitle(keys, anchor, rest, rating);
      if g.maxSimilarity > Threshold then
        var left := Without(rest, g.works);
        InRangeOfSubset(left, rest, |keys|);
        [g] + Cluster(keys, left, rating)
      else
        Cluster(keys, rest, rating)
  }

  /** What `groupsOfSimilarWorks` computes from `authorWorksJson`; `None` stands for a
      response without `entries` (and for the `{}` left by a failed fetch). */
  function SimilarGroups(authorWorks: Option<seq<Work>>, cfg: Settings, rating: (string, string) -> real): (r: seq<WorkGroup>)
    ensures authorWorks.None? ==> r == []
    ensures authorWorks.Some? && |authorWorks.value| <= 1 ==> r == []
  {
    match authorWorks
    case None => []
    case Some(works) => Cluster(ComparisonKeys(works, cfg), Positions(|works|), rating)
  }

  /** A reportable group: at least two works, the matched works in input order and
      after their anchor, each scored above the threshold against the anchor, and a best
      score above the threshold that is the anchor's highest score against a matched work. */
  ghost predicate WellFormedGroup(keys: seq<string>, g: WorkGroup, rating: (string, string) -> real) {
    && |g.works| >= 2
    && InRange(g.works, |keys|)
    && g.maxSimilarity > Threshold
    && Increasing(Matched(g))
    && (forall k | 0 <= k < |g.works| - 1 :: Anchor(g) < g.works[k])
    && (forall x | x in Matched(g) :: Score(keys, Anchor(g), x, rating) > Threshold)
    && (exists x | x in Matched(g) :: g.maxSimilarity == Score(keys, Anchor(g), x, rating))
    && (forall x | x in Matched(g) :: Score(keys, Anchor(g), x, rating) <= g.maxSimilarity)
  }

  /** No work is in two groups. */
  ghost predicate Disjoint(gs: seq<WorkGroup>) {
    forall i, j, x | 0 <= i < j < |gs| && x in gs[i].works :: x !in gs[j].works
  }

  /** Groups come out in the input order of their anchors. */
  ghost predicate AnchorsInOrder(gs: seq<WorkGroup>) {
    forall i, j | 0 <= i < j < |gs| :: gs[i].works != [] && gs[j].works != [] && Anchor(gs[i]) < Anchor(gs[j])
  }

  // The same properties stated group by group, in the shape of the recursion of Cluster.

  ghost predicate AllWellFormed(keys: seq<string>, gs: seq<WorkGroup>, rating: (string, string) -> real) {
    gs == [] || (WellFormedGroup(keys, gs[0], rating) && AllWellFormed(keys, gs[1..], rating))
  }

  /** Every member of every group is in `s`. */
  ghost predicate MembersWithin(gs: seq<WorkGroup>, s: seq<nat>) {
    gs == [] || ((forall x | x in gs[0].works :: x in s) && MembersWithin(gs[1..], s))
  }

  /** No member of any group is in `s`. */
  ghost predicate MembersAvoid(gs: seq<WorkGroup>, s: seq<nat>) {
    gs == [] || ((forall x | x in gs[0].works :: x !in s) && MembersAvoid(gs[1..], s))
  }

  /** Every member of every group is above `a`. */
  ghost predicate MembersAbove(gs: seq<WorkGroup>, a: nat) {
    gs == [] || ((forall x | x in gs[0].works :: a < x) && MembersAbove(gs[1..], a))
  }

  /** Each group shares no member with the groups after it. */
  ghost predicate Separated(gs: seq<WorkGroup>) {
    gs == [] || (MembersAvoid(gs[1..], gs[0].works) && Separated(gs[1..]))
  }

  /** Each group has an anchor, and the groups after it lie entirely above that anchor. */
  ghost predicate Ascending(gs: seq<WorkGroup>) {
    gs == [] || (gs[0].works != [] && MembersAbove(gs[1..], Anchor(gs[0])) && Ascending(gs[1..]))
  }

  lemma {:induction false} WithinWeaken(gs: seq<WorkGroup>, a: seq<nat>, b: seq<nat>)
    requires MembersWithin(gs, a) && forall x | x in a :: x in b
    ensures MembersWithin(gs, b)
  {
    if gs != [] { WithinWeaken(gs[1..], a, b); }
  }

  lemma {:induction false} WithinAvoid(gs: seq<WorkGroup>, a: seq<nat>, b: seq<nat>)
    requires MembersWithin(gs, a) && forall x | x in a :: x !in b
    ensures MembersAvoid(gs, b)
  {
    if gs != [] { WithinAvoid(gs[1..], a, b); }
  }

  lemma {:induction false} WithinAbove(gs: seq<WorkGroup>, a: seq<nat>, n: nat)
    requires MembersWithin(gs, a) && forall k | 0 <= k < |a| :: n < a[k]
    ensures MembersAbove(gs, n)
  {
    if gs != [] {
      WithinAbove(gs[1..], a, n);
      forall x | x in gs[0].works ensures n < x {
        var k :| 0 <= k < |a| && a[k] == x;
      }
    }
  }

  lemma {:induction false} AllWellFormedAt(keys: seq<string>, gs: seq<WorkGroup>, rating: (string, string) -> real)
    requires AllWellFormed(keys, gs, rating)
    ensures forall i | 0 <= i < |gs| :: WellFormedGroup(keys, gs[i], rating)
  {
    if gs != [] {
      AllWellFormedAt(keys, gs[1..], rating);
      forall i | 1 <= i < |gs| ensures WellFormedGroup(keys, gs[i], rating) {
        assert gs[i] == gs[1..][i - 1];
      }
    }
  }

  lemma {:induction false} AvoidAt(gs: seq<WorkGroup>, s: seq<nat>)
    requires MembersAvoid(gs, s)
    ensures forall j, x | 0 <= j < |gs| && x in s :: x !in gs[j].works
  {
    if gs != [] {
      AvoidAt(gs[1..], s);
      forall j, x | 1 <= j < |gs| && x in s ensures x !in gs[j].works {
        assert gs[j] == gs[1..][j - 1];
      }
    }
  }

  lemma {:induction false} AboveAt(gs: seq<WorkGroup>, a: nat)
    requires MembersAbove(gs, a)
    ensures forall j, x | 0 <= j < |gs| && x in gs[j].works :: a < x
  {
    if gs != [] {
      AboveAt(gs[1..], a);
      forall j, x | 1 <= j < |gs| && x in gs[j].works ensures a < x {
        assert gs[j] == gs[1..][j - 1];
      }
    }
  }

  lemma {:induction false} SeparatedDisjoint(gs: seq<WorkGroup>)
    requires Separated(gs)
    ensures Disjoint(gs)
  {
    if gs != [] {
      SeparatedDisjoint(gs[1..]);
      AvoidAt(gs[1..], gs[0].works);
      forall i, j, x | 0 <= i < j < |gs| && x in gs[i].works ensures x !in gs[j].works {
        assert gs[j] == gs[1..][j - 1];
        if i > 0 {
          assert gs[i] == gs[1..][i - 1];
        }
      }
    }
  }

  lemma {:induction false} AscendingInOrder(gs: seq<WorkGroup>)
    requires Ascending(gs)
    ensures AnchorsInOrder(gs)
  {
    if gs != [] {
      AscendingInOrder(gs[1..]);
      AboveAt(gs[1..], Anchor(gs[0]));
      forall i, j | 0 <= i < j < |gs|
        ensures gs[i].works != [] && gs[j].works != [] && Anchor(gs[i]) < Anchor(gs[j])
      {
        assert gs[j] == gs[1..][j - 1];
        if i > 0 {
          assert gs[i] == gs[1..][i - 1];
        } else {
          assert Anchor(gs[j]) in gs[j].works;
        }
      }
    }
  }

  /** The group of the first entry is drawn from the working list. */
  lemma GroupWithin(keys: seq<string>, entries: seq<nat>, rating: (string, string) -> real)
    requires Increasing(entries) && InRange(entries, |keys|) && |entries| > 1
    ensures entries[0] !in entries[1..]
    ensures forall x | x in SimilarWorksByTitle(keys, entries[0], entries[1..], rating).works :: x in entries
  {
    var g := SimilarWorksByTitle(keys, entries[0], entries[1..], rating);
    assert g.works == Matched(g) + [entries[0]];
  }

  /** Every grouped work comes from the working list. */
  lemma {:induction false} ClusterMembers(keys: seq<string>, entries: seq<nat>, rating: (string, string) -> real)
    requires Increasing(entries) && InRange(entries, |keys|)
    ensures MembersWithin(Cluster(keys, entries, rating), entries)
    decreases |entries|
  {
    var gs := Cluster(keys, entries, rating);
    if |entries| > 1 {
      var anchor, rest := entries[0], entries[1..];
      var g := SimilarWorksByTitle(keys, anchor, rest, rating);
      if g.maxSimilarity > Threshold {
        var left := Without(rest, g.works);
        InRangeOfSubset(left, rest, |keys|);
        var tail := Cluster(keys, left, rating);
        ClusterMembers(keys, left, rating);
        WithinWeaken(tail, left, entries);
        GroupWithin(keys, entries, rating);
        assert gs == [g] + tail;
        assert gs[0] == g && gs[1..] == tail;
      } else {
        ClusterMembers(keys, rest, rating);
        assert gs == Cluster(keys, rest, rating);
        WithinWeaken(gs, rest, entries);
      }
    }
  }

  /** The group formed around the first entry, when kept, is reportable. */
  lemma KeptGroupWellFormed(keys: seq<string>, entries: seq<nat>, rating: (string, string) -> real)
    requires Increasing(entries) && InRange(entries, |keys|) && |entries| > 1
    requires SimilarWorksByTitle(keys, entries[0], entries[1..], rating).maxSimilarity > Threshold
    ensures WellFormedGroup(keys, SimilarWorksByTitle(keys, entries[0], entries[1..], rating), rating)
  {
    var anchor, rest := entries[0], entries[1..];
    var g := SimilarWorksByTitle(keys, anchor, rest, rating);
    AboveHead(entries, Matched(g));
    assert g.works == Matched(g) + [anchor];
    InRangeOfSubset(g.works, entries, |keys|);
    KeptGroupBestScore(keys, anchor, rest, rating);
  }

  /** Every group is reportable. */
  lemma {:induction false} ClusterWellFormed(keys: seq<string>, entries: seq<nat>, rating: (string, string) -> real)
    requires Increasing(entries) && InRange(entries, |keys|)
    ensures AllWellFormed(keys, Cluster(keys, entries, rating), rating)
    decreases |entries|
  {
    var gs := Cluster(keys, entries, rating);
    if |entries| > 1 {
      var anchor, rest := entries[0], entries[1..];
      var g := SimilarWorksByTitle(keys, anchor, rest, rating);
      if g.maxSimilarity > Threshold {
        var left := Without(rest, g.works);
        InRangeOfSubset(left, rest, |keys|);
        var tail := Cluster(keys, left, rating);
        ClusterWellFormed(keys, left, rating);
        KeptGroupWellFormed(keys, entries, rating);
        assert gs == [g] + tail;
        assert gs[1..] == tail;
      } else {
        ClusterWellFormed(keys, rest, rating);
      }
    }
  }

  /** The groups share no work. */
  lemma {:induction false} ClusterSeparated(keys: seq<string>, entries: seq<nat>, rating: (string, string) -> real)
    requires Increasing(entries) && InRange(entries, |keys|)
    ensures Separated(Cluster(keys, entries, rating))
    decreases |entries|
  {
    var gs := Cluster(keys, entries, rating);
    if |entries| > 1 {
      var anchor, rest := entries[0], entries[1..];
      var g := SimilarWorksByTitle(keys, anchor, rest, rating);
      if g.maxSimilarity > Threshold {
        var left := Without(rest, g.works);
        InRangeOfSubset(left, rest, |keys|);
        var tail := Cluster(keys, left, rating);
        ClusterSeparated(keys, left, rating);
        ClusterMembers(keys, left, rating);
        WithinAvoid(tail, left, g.works);
        assert gs == [g] + tail;
        assert gs[1..] == tail;
      } else {
        ClusterSeparated(keys, rest, rating);
      }
    }
  }

  /** Each group's anchor is below every work of the later groups. */
  lemma {:induction false} ClusterAscending(keys: seq<string>, entries: seq<nat>, rating: (string, string) -> real)
    requires Increasing(entries) && InRange(entries, |keys|)
    ensures Ascending(Cluster(keys, entries, rating))
    decreases |entries|
  {
    var gs := Cluster(keys, entries, rating);
    if |entries| > 1 {
      var anchor, rest := entries[0], entries[1..];
      var g := SimilarWorksByTitle(keys, anchor, rest, rating);
      if g.maxSimilarity > Threshold {
        var left := Without(rest, g.works);
        InRangeOfSubset(left, rest, |keys|);
        var tail := Cluster(keys, left, rating);
        ClusterAscending(keys, left, rating);
        ClusterMembers(keys, left, rating);
        AboveHead(entries, left);
        WithinAbove(tail, left, anchor);
        assert gs == [g] + tail;
        assert gs[1..] == tail;
      } else {
        ClusterAscending(keys, rest, rating);
      }
    }
  }

  // Completeness: the groups hold every work they should, and an entry left out of every
  // group had nothing to group with.

  /** Every work above a group's anchor that no earlier group took and that scores
      above the threshold against the anchor is in the group. */
  ghost predicate Complete(keys: seq<string>, gs: seq<WorkGroup>, rating: (string, string) -> real) {
    forall i, x | 0 <= i < |gs| && gs[i].works != [] && Anchor(gs[i]) < x < |keys|
      && (forall j | 0 <= j < i :: x !in gs[j].works)
      && Score(keys, Anchor(gs[i]), x, rating) > Threshold
      :: x in gs[i].works
  }

  /** A work in no group scores no work above the threshold among the works after it
      that no group with an earlier anchor took: those were its candidates when it was
      the anchor, and its best score did not pass the threshold. */
  ghost predicate UngroupedUnmatched(keys: seq<string>, gs: seq<WorkGroup>, rating: (string, string) -> real) {
    forall a: nat, x: nat | a < x < |keys|
      && (forall j | 0 <= j < |gs| :: a !in gs[j].works)
      && (forall j | 0 <= j < |gs| && gs[j].works != [] && Anchor(gs[j]) < a :: x !in gs[j].works)
      :: Score(keys, a, x, rating) <= Threshold
  }

  // The same two properties in the shape of the recursion of Cluster.

  /** Each group holds every work of the working list above its anchor that scores above
      the threshold; the next group is drawn from what the filter leaves. */
  ghost predicate CompleteIn(keys: seq<string>, entries: seq<nat>, gs: seq<WorkGroup>, rating: (string, string) -> real)
    decreases |gs|
  {
    gs == [] ||
    (&& gs[0].works != []
     && (forall x | x in entries && Anchor(gs[0]) < x < |keys| && Score(keys, Anchor(gs[0]), x, rating) > Threshold
           :: x in gs[0].works)
     && CompleteIn(keys, Without(entries, gs[0].works), gs[1..], rating))
  }

  /** `a` is in no group. */
  ghost predicate Ungrouped(gs: seq<WorkGroup>, a: nat) {
    gs == [] || (a !in gs[0].works && Ungrouped(gs[1..], a))
  }

  /** `x` is in no group whose anchor comes before `a`. */
  ghost predicate LeftFor(gs: seq<WorkGroup>, a: nat, x: nat) {
    gs == [] || ((gs[0].works != [] && Anchor(gs[0]) < a ==> x !in gs[0].works) && LeftFor(gs[1..], a, x))
  }

  ghost predicate UnmatchedIn(keys: seq<string>, entries: seq<nat>, gs: seq<WorkGroup>, rating: (string, string) -> real) {
    forall a, x | a in entries && x in entries && a < x < |keys| && Ungrouped(gs, a) && LeftFor(gs, a, x)
      :: Score(keys, a, x, rating) <= Threshold
  }

  lemma {:induction false} CompleteAt(keys: seq<string>, entries: seq<nat>, gs: seq<WorkGroup>, rating: (string, string) -> real)
    requires CompleteIn(keys, entries, gs, rating)
    ensures forall i, x | 0 <= i < |gs| && gs[i].works != [] && x in entries && Anchor(gs[i]) < x < |keys|
      && (forall j | 0 <= j < i :: x !in gs[j].works)
      && Score(keys, Anchor(gs[i]), x, rating) > Threshold
      :: x in gs[i].works
    decreases |gs|
  {
    if gs != [] {
      var left := Without(entries, gs[0].works);
      CompleteAt(keys, left, gs[1..], rating);
      forall i, x | 0 < i < |gs| && gs[i].works != [] && x in entries && Anchor(gs[i]) < x < |keys|
        && (forall j | 0 <= j < i :: x !in gs[j].works)
        && Score(keys, Anchor(gs[i]), x, rating) > Threshold
        ensures x in gs[i].works
      {
        assert x !in gs[0].works;
        assert x in left;
        assert gs[i] == gs[1..][i - 1];
        forall j | 0 <= j < i - 1 ensures x !in gs[1..][j].works {
          assert gs[1..][j] == gs[j + 1];
        }
      }
    }
  }

  lemma {:induction false} UngroupedAt(gs: seq<WorkGroup>, a: nat)
    requires forall j | 0 <= j < |gs| :: a !in gs[j].works
    ensures Ungrouped(gs, a)
  {
    if gs != [] {
      assert a !in gs[0].works;
      forall j | 0 <= j < |gs[1..]| ensures a !in gs[1..][j].works {
        assert gs[1..][j] == gs[j + 1];
      }
      UngroupedAt(gs[1..], a);
    }
  }

  lemma {:induction false} LeftForAt(gs: seq<WorkGroup>, a: nat, x: nat)
    requires forall j | 0 <= j < |gs| && gs[j].works != [] && Anchor(gs[j]) < a :: x !in gs[j].works
    ensures LeftFor(gs, a, x)
  {
    if gs != [] {
      forall j | 0 <= j < |gs[1..]| && gs[1..][j].works != [] && Anchor(gs[1..][j]) < a
        ensures x !in gs[1..][j].works
      {
        assert gs[1..][j] == gs[j + 1];
      }
      LeftForAt(gs[1..], a, x);
    }
  }

  /** Putting an entry below every grouped work in front of the working list keeps the
      groups complete. */
  lemma {:induction false} CompleteExtend(keys: seq<string>, e: nat, rest: seq<nat>, gs: seq<WorkGroup>, rating: (string, string) -> real)
    requires CompleteIn(keys, rest, gs, rating) && MembersAbove(gs, e)
    ensures CompleteIn(keys, [e] + rest, gs, rating)
    decreases |gs|
  {
    if gs != [] {
      var m := gs[0].works;
      assert e !in m;
      assert ([e] + rest)[1..] == rest;
      assert Without([e] + rest, m) == [e] + Without(rest, m);
      CompleteExtend(keys, e, Without(rest, m), gs[1..], rating);
      assert Anchor(gs[0]) in m;
    }
  }

  /** Every entry after the first lies above it. */
  lemma HeadBelow(entries: seq<nat>, a: nat)
    requires Increasing(entries) && a in entries && a != entries[0]
    ensures entries[0] < a
  {
  }

  /** A kept group followed by groups complete for the filtered list. */
  lemma CompleteCons(keys: seq<string>, entries: seq<nat>, g: WorkGroup, tail: seq<WorkGroup>, rating: (string, string) -> real)
    requires entries != [] && entries[0] < |keys| && g.works != [] && g.works == Matched(g) + [entries[0]]
    requires forall x | x in entries[1..] && x < |keys| && Score(keys, entries[0], x, rating) > Threshold :: x in Matched(g)
    requires CompleteIn(keys, Without(entries[1..], g.works), tail, rating)
    ensures CompleteIn(keys, entries, [g] + tail, rating)
  {
    var gs := [g] + tail;
    assert gs[0] == g && gs[1..] == tail;
    assert Anchor(g) == entries[0] && entries[0] in g.works;
    assert Without(entries, g.works) == Without(entries[1..], g.works);
    forall x | x in entries && entries[0] < x < |keys| && Score(keys, entries[0], x, rating) > Threshold
      ensures x in g.works
    {
      assert entries == [entries[0]] + entries[1..];
      assert x in entries[1..];
    }
  }

  /** An anchor that formed no group, in front of a working list whose groups are
      complete. */
  lemma CompleteSkip(keys: seq<string>, entries: seq<nat>, gs: seq<WorkGroup>, rating: (string, string) -> real)
    requires Increasing(entries) && entries != []
    requires MembersWithin(gs, entries[1..]) && CompleteIn(keys, entries[1..], gs, rating)
    ensures CompleteIn(keys, entries, gs, rating)
  {
    var rest := entries[1..];
    forall k | 0 <= k < |rest| ensures entries[0] < rest[k] {
      assert rest[k] == entries[k + 1];
    }
    WithinAbove(gs, rest, entries[0]);
    assert entries == [entries[0]] + rest;
    CompleteExtend(keys, entries[0], rest, gs, rating);
  }

  /** The groups are complete: each holds every work left in the working list that
      scores above the threshold against its anchor. */
  lemma {:induction false} ClusterComplete(keys: seq<string>, entries: seq<nat>, rating: (string, string) -> real)
    requires Increasing(entries) && InRange(entries, |keys|)
    ensures CompleteIn(keys, entries, Cluster(keys, entries, rating), rating)
    decreases |entries|
  {
    if |entries| > 1 {
      ClusterStep(keys, entries, rating);
      var anchor, rest := entries[0], entries[1..];
      var g := SimilarWorksByTitle(keys, anchor, rest, rating);
      var left := Without(rest, g.works);
      if g.maxSimilarity > Threshold {
        ClusterComplete(keys, left, rating);
        assert g.works == Matched(g) + [anchor];
        CompleteCons(keys, entries, g, Cluster(keys, left, rating), rating);
      } else {
        ClusterComplete(keys, rest, rating);
        ClusterMembers(keys, rest, rating);
        CompleteSkip(keys, entries, Cluster(keys, rest, rating), rating);
      }
    }
  }

  /** A kept group followed by groups that meet the property for the filtered list. */
  lemma UnmatchedCons(keys: seq<string>, entries: seq<nat>, g: WorkGroup, tail: seq<WorkGroup>, rating: (string, string) -> real)
    requires Increasing(entries) && entries != [] && g.works != [] && Anchor(g) == entries[0]
    requires UnmatchedIn(keys, Without(entries[1..], g.works), tail, rating)
    ensures UnmatchedIn(keys, entries, [g] + tail, rating)
  {
    var gs := [g] + tail;
    assert gs[0] == g && gs[1..] == tail;
    assert entries[0] in g.works;
    forall a, x | a in entries && x in entries && a < x < |keys| && Ungrouped(gs, a) && LeftFor(gs, a, x)
      ensures Score(keys, a, x, rating) <= Threshold
    {
      assert a !in g.works && Ungrouped(tail, a);
      HeadBelow(entries, a);
      assert x !in g.works && LeftFor(tail, a, x);
      assert entries == [entries[0]] + entries[1..];
      assert a in entries[1..] && x in entries[1..];
    }
  }

  /** An anchor that formed no group, in front of a working list that meets the
      property. */
  lemma UnmatchedSkip(keys: seq<string>, entries: seq<nat>, gs: seq<WorkGroup>, rating: (string, string) -> real)
    requires Increasing(entries) && entries != [] && entries[0] < |keys|
    requires forall x | x in entries[1..] && x < |keys| :: Score(keys, entries[0], x, rating) <= Threshold
    requires UnmatchedIn(keys, entries[1..], gs, rating)
    ensures UnmatchedIn(keys, entries, gs, rating)
  {
    forall a, x | a in entries && x in entries && a < x < |keys| && Ungrouped(gs, a) && LeftFor(gs, a, x)
      ensures Score(keys, a, x, rating) <= Threshold
    {
      assert entries == [entries[0]] + entries[1..];
      if a != entries[0] {
        HeadBelow(entries, a);
      }
      assert x in entries[1..];
    }
  }

  /** An entry that formed no group had nothing above the threshold left to group with. */
  lemma {:induction false} ClusterUnmatched(keys: seq<string>, entries: seq<nat>, rating: (string, string) -> real)
    requires Increasing(entries) && InRange(entries, |keys|)
    ensures UnmatchedIn(keys, entries, Cluster(keys, entries, rating), rating)
    decreases |entries|
  {
    if |entries| > 1 {
      ClusterStep(keys, entries, rating);
      var rest := entries[1..];
      var g := SimilarWorksByTitle(keys, entries[0], rest, rating);
      if g.maxSimilarity > Threshold {
        ClusterUnmatched(keys, Without(rest, g.works), rating);
        UnmatchedGroupedStep(keys, entries, rating);
      } else {
        ClusterUnmatched(keys, rest, rating);
        UnmatchedSkippedStep(keys, entries, rating);
      }
    } else {
      UnmatchedSingle(keys, entries, Cluster(keys, entries, rating), rating);
    }
  }

  lemma UnmatchedGroupedStep(keys: seq<string>, entries: seq<nat>, rating: (string, string) -> real)
    requires Increasing(entries) && InRange(entries, |keys|) && |entries| > 1
    requires
      var g := SimilarWorksByTitle(keys, entries[0], entries[1..], rating);
      var left := Without(entries[1..], g.works);
      && g.maxSimilarity > Threshold && Increasing(left) && InRange(left, |keys|)
      && UnmatchedIn(keys, left, Cluster(keys, left, rating), rating)
    ensures UnmatchedIn(keys, entries, Cluster(keys, entries, rating), rating)
  {
    ClusterStep(keys, entries, rating);
    var g := SimilarWorksByTitle(keys, entries[0], entries[1..], rating);
    var tail := Cluster(keys, Without(entries[1..], g.works), rating);
    UnmatchedCons(keys, entries, g, tail, rating);
  }

  lemma UnmatchedSkippedStep(keys: seq<string>, entries: seq<nat>, rating: (string, string) -> real)
    requires Increasing(entries) && InRange(entries, |keys|) && |entries| > 1
    requires SimilarWorksByTitle(keys, entries[0], entries[1..], rating).maxSimilarity <= Threshold
    requires Increasing(entries[1..]) && InRange(entries[1..], |keys|)
    requires UnmatchedIn(keys, entries[1..], Cluster(keys, entries[1..], rating), rating)
    ensures UnmatchedIn(keys, entries, Cluster(keys, entries, rating), rating)
  {
    ClusterStep(keys, entries, rating);
    NothingAboveUngroupedAnchor(keys, entries, rating);
    UnmatchedSkip(keys, entries, Cluster(keys, entries[1..], rating), rating);
  }


  /** An anchor that forms no group scores at most the threshold against every work
      after it. */
  lemma NothingAboveUngroupedAnchor(keys: seq<string>, entries: seq<nat>, rating: (string, string) -> real)
    requires Increasing(entries) && InRange(entries, |keys|) && |entries| > 1
    requires SimilarWorksByTitle(keys, entries[0], entries[1..], rating).maxSimilarity <= Threshold
    ensures forall x | x in entries[1..] && x < |keys| :: Score(keys, entries[0], x, rating) <= Threshold
  {
    var g := SimilarWorksByTitle(keys, entries[0], entries[1..], rating);
    forall x | x in entries[1..] && x < |keys| ensures Score(keys, entries[0], x, rating) <= Threshold {
      assert x !in Matched(g);
    }
  }

  lemma UnmatchedSingle(keys: seq<string>, entries: seq<nat>, gs: seq<WorkGroup>, rating: (string, string) -> real)
    requires |entries| <= 1
    ensures UnmatchedIn(keys, entries, gs, rating)
  {
    forall a, x | a in entries && x in entries ensures a == x {
      assert a == entries[0] && x == entries[0];
    }
  }


  /** Every position below n is one of the cloned entries. */
  lemma PositionsHold(n: nat)
    ensures forall x: nat | x < n :: x in Positions(n)
  {
    forall x: nat | x < n ensures x in Positions(n) {
      assert Positions(n)[x] == x;
    }
  }

  lemma CompleteAll(keys: seq<string>, entries: seq<nat>, gs: seq<WorkGroup>, rating: (string, string) -> real)
    requires CompleteIn(keys, entries, gs, rating) && forall x: nat | x < |keys| :: x in entries
    ensures Complete(keys, gs, rating)
  {
    CompleteAt(keys, entries, gs, rating);
  }

  lemma UnmatchedAll(keys: seq<string>, entries: seq<nat>, gs: seq<WorkGroup>, rating: (string, string) -> real)
    requires UnmatchedIn(keys, entries, gs, rating) && forall x: nat | x < |keys| :: x in entries
    ensures UngroupedUnmatched(keys, gs, rating)
  {
    forall a: nat, x: nat | a < x < |keys|
      && (forall j | 0 <= j < |gs| :: a !in gs[j].works)
      && (forall j | 0 <= j < |gs| && gs[j].works != [] && Anchor(gs[j]) < a :: x !in gs[j].works)
      ensures Score(keys, a, x, rating) <= Threshold
    {
      UngroupedAt(gs, a);
      LeftForAt(gs, a, x);
      assert a in entries && x in entries;
    }
  }

  /** From the cloned entries, the groups are complete and an ungrouped work matched
      nothing left to it. */
  lemma ClusterCompleteFromStart(keys: seq<string>, rating: (string, string) -> real)
    ensures Complete(keys, Cluster(keys, Positions(|keys|), rating), rating)
    ensures UngroupedUnmatched(keys, Cluster(keys, Positions(|keys|), rating), rating)
  {
    var entries := Positions(|keys|);
    var gs := Cluster(keys, entries, rating);
    PositionsHold(|keys|);
    ClusterComplete(keys, entries, rating);
    CompleteAll(keys, entries, gs, rating);
    ClusterUnmatched(keys, entries, rating);
    UnmatchedAll(keys, entries, gs, rating);
  }

  /** Every group `groupsOfSimilarWorks` reports is well formed and complete, an
      ungrouped work matched nothing left to it, no work is in two groups, and the
      groups come in the order of their anchors. */
  lemma SimilarGroupsReportable(authorWorks: Option<seq<Work>>, cfg: Settings, rating: (string, string) -> real)
    ensures var groups := SimilarGroups(authorWorks, cfg, rating);
      && (authorWorks.None? || |authorWorks.value| <= 1 ==> groups == [])
      && (authorWorks.Some? ==> forall i | 0 <= i < |groups| ::
            WellFormedGroup(ComparisonKeys(authorWorks.value, cfg), groups[i], rating))
      && (authorWorks.Some? ==> Complete(ComparisonKeys(authorWorks.value, cfg), groups, rating))
      && (authorWorks.Some? ==> UngroupedUnmatched(ComparisonKeys(authorWorks.value, cfg), groups, rating))
      && Disjoint(groups) && AnchorsInOrder(groups)
  {
    if authorWorks.Some? {
      var works := authorWorks.value;
      var keys := ComparisonKeys(works, cfg);
      var entries := Positions(|works|);
      var all := Cluster(keys, entries, rating);
      ClusterWellFormed(keys, entries, rating);
      ClusterSeparated(keys, entries, rating);
      ClusterAscending(keys, entries, rating);
      AllWellFormedAt(keys, all, rating);
      SeparatedDisjoint(all);
      AscendingInOrder(all);
      ClusterCompleteFromStart(keys, rating);
    }
  }

  /** The working list after the anchor leaves it. */
  lemma RestOfEntries(keys: seq<string>, entries: seq<nat>)
    requires Increasing(entries) && InRange(entries, |keys|) && |entries| > 1
    ensures Increasing(entries[1..]) && InRange(entries[1..], |keys|)
    ensures entries[0] !in entries[1..] && Excluding(entries[1..], entries[0]) == entries[1..]
  {
    assert entries[0] !in entries[1..];
  }

  /** One pass of the loop, as Cluster unfolds it. */
  lemma ClusterStep(keys: seq<string>, entries: seq<nat>, rating: (string, string) -> real)
    requires Increasing(entries) && InRange(entries, |keys|) && |entries| > 1
    ensures Increasing(entries[1..]) && InRange(entries[1..], |keys|)
    ensures entries[0] !in entries[1..] && Excluding(entries[1..], entries[0]) == entries[1..]
    ensures
      var rest := entries[1..];
      var g := SimilarWorksByTitle(keys, entries[0], rest, rating);
      var left := Without(rest, g.works);
      && Increasing(left) && InRange(left, |keys|)
      && Cluster(keys, entries, rating)
         == if g.maxSimilarity > Threshold then [g] + Cluster(keys, left, rating) else Cluster(keys, rest, rating)
  {
    RestOfEntries(keys, entries);
    var rest := entries[1..];
    var g := SimilarWorksByTitle(keys, entries[0], rest, rating);
    InRangeOfSubset(Without(rest, g.works), rest, |keys|);
  }

  lemma AppendOne(a: seq<WorkGroup>, g: WorkGroup, b: seq<WorkGroup>)
    ensures (a + [g]) + b == a + ([g] + b)
  {
  }

  /** `groupsOfSimilarWorks`: the working list shrinks by the anchor (and by the group's
      members when a group is kept) on every pass, so the loop ends. */
  method GroupsOfSimilarWorks(authorWorks: Option<seq<Work>>, cfg: Settings, rating: (string, string) -> real)
    returns (groups: seq<WorkGroup>)
    ensures groups == SimilarGroups(authorWorks, cfg, rating)
    ensures authorWorks.None? || |authorWorks.value| <= 1 ==> groups == []
    ensures authorWorks.Some? ==> forall i | 0 <= i < |groups| ::
      WellFormedGroup(ComparisonKeys(authorWorks.value, cfg), groups[i], rating)
    ensures authorWorks.Some? ==> Complete(ComparisonKeys(authorWorks.value, cfg), groups, rating)
    ensures authorWorks.Some? ==> UngroupedUnmatched(ComparisonKeys(authorWorks.value, cfg), groups, rating)
    ensures Disjoint(groups) && AnchorsInOrder(groups)
  {
    groups := [];
    if authorWorks.None? {
      SimilarGroupsReportable(authorWorks, cfg, rating);
      return;
    }
    var keys := ComparisonKeys(authorWorks.value, cfg);
    var entries := Positions(|keys|);
    ghost var all := Cluster(keys, entries, rating);
    while |entries| > 1
      invariant Increasing(entries) && InRange(entries, |keys|)
      invariant groups + Cluster(keys, entries, rating) == all
      decreases |entries|
    {
      ClusterStep(keys, entries, rating);
      var mainWork := entries[0];
      entries := entries[1..];
      var similarWorks := SimilarWorksByTitle(keys, mainWork, entries, rating);
      if similarWorks.maxSimilarity > Threshold {
        var left := Without(entries, similarWorks.works);
        AppendOne(groups, similarWorks, Cluster(keys, left, rating));
        groups := groups + [similarWorks];
        entries := left;
      }
    }
    SimilarGroupsReportable(authorWorks, cfg, rating);
  }
}
