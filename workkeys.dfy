/** `parseKey` and `getWorkIds`: the id of a work is the third piece of its key
    `/works/<id>` split on '/'. */
module WorkKeys {
  import opened Works

  predicate NoSlash(s: string) {
    forall i | 0 <= i < |s| :: s[i] != '/'
  }

  predicate NoSlashes(pieces: seq<string>) {
    forall k | 0 <= k < |pieces| :: NoSlash(pieces[k])
  }

  /** The number of slashes in s. */
  function Slashes(s: string): nat {
    if s == [] then 0 else (if s[0] == '/' then 1 else 0) + Slashes(s[1..])
  }

  /** JavaScript `s.split("/")`: the pieces between the slashes, empty ones included,
      so there is always at least one. */
  function Split(s: string): (pieces: seq<string>)
    ensures |pieces| == 1 + Slashes(s) && NoSlashes(pieces)
  {
    if s == [] then [""]
    else
      var rest := Split(s[1..]);
      if s[0] == '/' then [""] + rest
      else [[s[0]] + rest[0]] + rest[1..]
  }

  /** The pieces with a '/' between each two: the inverse of Split. */
  function Join(pieces: seq<string>): string
    requires |pieces| >= 1
  {
    if |pieces| == 1 then pieces[0] else pieces[0] + "/" + Join(pieces[1..])
  }

  lemma {:induction false} JoinSplit(s: string)
    ensures Join(Split(s)) == s
  {
    if s != [] {
      JoinSplit(s[1..]);
      var rest := Split(s[1..]);
      if s[0] != '/' {
        if |rest| > 1 {
          assert ([[s[0]] + rest[0]] + rest[1..])[1..] == rest[1..];
        }
      } else {
        assert ([""] + rest)[1..] == rest;
      }
    }
  }

  lemma {:induction false} SplitJoin(pieces: seq<string>)
    requires |pieces| >= 1 && NoSlashes(pieces)
    ensures Split(Join(pieces)) == pieces
    decreases |pieces|, |pieces[0]|
  {
    if |pieces| == 1 {
      SplitPiece(pieces[0]);
    } else if pieces[0] == [] {
      assert Join(pieces) == "/" + Join(pieces[1..]);
      assert ("/" + Join(pieces[1..]))[1..] == Join(pieces[1..]);
      SplitJoin(pieces[1..]);
    } else {
      var p := pieces[0];
      var shorter := [p[1..]] + pieces[1..];
      assert shorter[1..] == pieces[1..];
      assert NoSlash(p[1..]) by { assert NoSlashes(pieces) && p == pieces[0]; }
      SplitJoin(shorter);
      assert Join(pieces)[1..] == Join(shorter);
      assert p == [p[0]] + p[1..];
      assert [[p[0]] + p[1..]] + pieces[1..] == pieces;
    }
  }

  lemma {:induction false} SplitPiece(p: string)
    requires NoSlash(p)
    ensures Split(p) == [p]
  {
    if p != [] {
      SplitPiece(p[1..]);
      assert [p[0]] + p[1..] == p;
    }
  }

  /** `parseKey(s)`: the third piece of the key; a key with fewer than two slashes has
      none (`undefined` in the source). */
  function ParseKey(s: string): (r: Option<string>)
    ensures r.Some? ==> NoSlash(r.value)
    ensures r.None? <==> Slashes(s) < 2
  {
    var pieces := Split(s);
    if |pieces| > 2 then Some(pieces[2]) else None
  }

  /** A key built from pieces reads back as its third piece. */
  lemma ParseKeyOfJoin(pieces: seq<string>)
    requires |pieces| > 2 && NoSlashes(pieces)
    ensures ParseKey(Join(pieces)) == Some(pieces[2])
  {
    SplitJoin(pieces);
  }

  /** `/works/<id>` gives back the id. */
  lemma ParseWorkKey(id: string)
    requires NoSlash(id)
    ensures ParseKey("/works/" + id) == Some(id)
  {
    var pieces := ["", "works", id];
    assert Join(pieces[2..]) == id;
    assert Join(pieces[1..]) == "works/" + id;
    assert Join(pieces) == "/works/" + id;
    ParseKeyOfJoin(pieces);
  }

  /** `getWorkIds(works)`: the id of each work, in order. */
  function GetWorkIds(works: seq<Work>): (ids: seq<Option<string>>)
    ensures |ids| == |works|
    ensures forall i | 0 <= i < |works| :: ids[i] == ParseKey(works[i].key)
  {
    if works == [] then [] else [ParseKey(works[0].key)] + GetWorkIds(works[1..])
  }

  /** Works whose keys are `/works/<id>` give exactly their ids. */
  lemma WorkIdsOfWorkKeys(works: seq<Work>, ids: seq<string>)
    requires |ids| == |works| && NoSlashes(ids)
    requires forall i | 0 <= i < |works| :: works[i].key == "/works/" + ids[i]
    ensures forall i | 0 <= i < |works| :: GetWorkIds(works)[i] == Some(ids[i])
  {
    forall i | 0 <= i < |works| ensures ParseKey(works[i].key) == Some(ids[i]) {
      ParseWorkKey(ids[i]);
    }
  }
}
