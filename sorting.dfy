/**
 * The source ranks candidate moves by sorting `(score, (i, j))` tuples with
 * `sort(reverse=True)`: descending by score, then by row, then by column.
 * Here that order is `Above`, and the sort is an insertion sort whose result
 * is proved sorted and a permutation of its input.
 */
module Sorting {
  import opened Board

  /** A move with its score: the source's `(score, move)` tuple. */
  datatype Scored = Scored(score: real, move: Move)

  /** Python's tuple comparison `a > b` on `(score, (row, col))`. */
  predicate Above(a: Scored, b: Scored) {
    || a.score > b.score
    || (a.score == b.score && a.move.row > b.move.row)
    || (a.score == b.score && a.move.row == b.move.row && a.move.col > b.move.col)
  }

  /** Non-increasing in the tuple order: nothing later is above anything earlier. */
  predicate SortedDesc(s: seq<Scored>) {
    forall i, j :: 0 <= i < j < |s| ==> !Above(s[j], s[i])
  }

  function Insert(x: Scored, s: seq<Scored>): (r: seq<Scored>)
    ensures |r| == |s| + 1
  {
    if s == [] || !Above(s[0], x) then [x] + s else [s[0]] + Insert(x, s[1 ..])
  }

  /** `sort(reverse=True)` on a list of scored moves. */
  function SortDesc(s: seq<Scored>): (r: seq<Scored>)
    ensures |r| == |s|
  {
    if s == [] then [] else Insert(s[0], SortDesc(s[1 ..]))
  }

  function Moves(s: seq<Scored>): (ms: seq<Move>)
    ensures |ms| == |s| && forall i :: 0 <= i < |s| ==> ms[i] == s[i].move
  {
    if s == [] then [] else [s[0].move] + Moves(s[1 ..])
  }

  lemma MovesMembers(s: seq<Scored>, m: Move)
    ensures m in Moves(s) <==> exists x :: x in s && x.move == m
  {
    if m in Moves(s) {
      var i :| 0 <= i < |s| && Moves(s)[i] == m;
      assert s[i] in s;
    }
  }

  /** The slice `s[:k]`. */
  function Take<T>(s: seq<T>, k: nat): (t: seq<T>)
    ensures |t| <= k && |t| <= |s| && t == s[.. |t|]
    ensures |s| <= k ==> t == s
    ensures |s| > k ==> |t| == k
  {
    if |s| <= k then s else s[.. k]
  }

  /** Cutting the scored list and then dropping the scores is dropping and then cutting. */
  lemma TakeMoves(s: seq<Scored>, k: nat)
    ensures Take(Moves(s), k) == Moves(Take(s, k))
  {
  }

  lemma {:induction false} InsertSorted(x: Scored, s: seq<Scored>)
    requires SortedDesc(s)
    ensures SortedDesc(Insert(x, s))
    ensures multiset(Insert(x, s)) == multiset(s) + multiset{x}
    ensures |Insert(x, s)| == |s| + 1
  {
    if s != [] && Above(s[0], x) {
      var rest := Insert(x, s[1 ..]);
      InsertSorted(x, s[1 ..]);
      assert s == [s[0]] + s[1 ..];
      assert multiset(rest) == multiset(s[1 ..]) + multiset{x};
      forall j | 0 <= j < |rest| ensures !Above(rest[j], s[0]) {
        assert rest[j] in multiset(rest);
        if rest[j] == x { } else { assert rest[j] in s[1 ..]; }
      }
    }
  }

  /** The sort returns its input in non-increasing tuple order. */
  lemma {:induction false} SortDescCorrect(s: seq<Scored>)
    ensures SortedDesc(SortDesc(s))
    ensures multiset(SortDesc(s)) == multiset(s)
    ensures |SortDesc(s)| == |s|
  {
    if s != [] {
      SortDescCorrect(s[1 ..]);
      InsertSorted(s[0], SortDesc(s[1 ..]));
      assert s == [s[0]] + s[1 ..];
    }
  }

  lemma SortedPosition(s: seq<Scored>, x: Scored) returns (j: int)
    requires x in s
    ensures 0 <= j < |SortDesc(s)| && SortDesc(s)[j] == x
  {
    var t := SortDesc(s);
    SortDescCorrect(s);
    assert x in multiset(s);
    assert x in multiset(t);
    j :| 0 <= j < |t| && t[j] == x;
  }

  lemma OutsidePrefix<T>(t: seq<T>, k: nat, j: int)
    requires 0 <= j < |t| && t[j] !in Take(t, k)
    ensures k <= j
  {
  }

  /** After sorting, a kept prefix of length `k` holds the `k` largest entries. */
  lemma TopPrefix(s: seq<Scored>, k: nat, x: Scored)
    requires x in s && x !in Take(SortDesc(s), k)
    ensures |s| > k && forall i :: 0 <= i < k ==> !Above(x, SortDesc(s)[i])
  {
    var t := SortDesc(s);
    var j := SortedPosition(s, x);
    OutsidePrefix(t, k, j);
    SortDescCorrect(s);
    assert SortedDesc(t);
    forall i | 0 <= i < k ensures !Above(x, t[i]) {
      assert i < j;
    }
  }
}
