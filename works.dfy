/** Entities shared by the whole model: the works of an author and the two
    title-comparison settings. */
module Works {

  datatype Option<+T> = None | Some(value: T)

  /** One entry of an author's works list. Only the fields the core reads are kept. */
  datatype Work = Work(key: string, title: string, subtitle: Option<string>)

  /** The settings `includeSubtitles` and `aggressiveNormalization`. */
  datatype Settings = Settings(includeSubtitles: bool, aggressiveNormalization: bool)

  /** JavaScript truthiness of `work.subtitle`: present and not the empty string. */
  predicate HasSubtitle(w: Work) {
    w.subtitle.Some? && w.subtitle.value != ""
  }

  /** Strictly increasing positions; in particular no position occurs twice. */
  predicate Increasing(s: seq<nat>) {
    forall i, j | 0 <= i < j < |s| :: s[i] < s[j]
  }

  /** Every position names an entry of a list of length n. */
  predicate InRange(s: seq<nat>, n: nat) {
    forall i | 0 <= i < |s| :: s[i] < n
  }

  lemma InRangeOfSubset(r: seq<nat>, s: seq<nat>, n: nat)
    requires InRange(s, n) && forall x | x in r :: x in s
    ensures InRange(r, n)
  {
    forall i | 0 <= i < |r| ensures r[i] < n {
      assert r[i] in r;
      var j :| 0 <= j < |s| && s[j] == r[i];
    }
  }

  /** Every element of r is an element of s[1..], and s is increasing, so every element
      of r is above s[0]. */
  lemma AboveHead(s: seq<nat>, r: seq<nat>)
    requires s != [] && Increasing(s) && forall x | x in r :: x in s[1..]
    ensures forall k | 0 <= k < |r| :: s[0] < r[k]
  {
    forall k | 0 <= k < |r| ensures s[0] < r[k] {
      assert r[k] in r;
      var j :| 0 <= j < |s[1..]| && s[1..][j] == r[k];
      assert s[j + 1] == r[k];
    }
  }
}
