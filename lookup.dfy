/**
 * The database client's `findFirst` and `findMany` over a table held as a map
 * from id to row. Neither query has an ordering in the source, so the row they
 * pick is unspecified there; this model fixes one choice, the lowest id.
 */
module Lookup {
  import opened Model

  /** A finite set of ids that has an element has a least one. */
  lemma {:induction false} LeastExists(s: set<int>)
    requires exists x :: x in s
    ensures exists m :: m in s && forall k :: k in s ==> m <= k
    decreases |s|
  {
    var x :| x in s;
    var rest := s - {x};
    if y :| y in rest {
      LeastExists(rest);
      var m :| m in rest && forall k :: k in rest ==> m <= k;
      var least := if x < m then x else m;
      assert least in s;
      forall k | k in s
        ensures least <= k
      {
        if k != x { assert k in rest; }
      }
    } else {
      forall k | k in s
        ensures x <= k
      {
        assert k in rest || k == x;
      }
    }
  }

  function Least(s: set<int>): (m: int)
    requires exists x :: x in s
    ensures m in s
    ensures forall k :: k in s ==> m <= k
  {
    LeastExists(s);
    var m :| m in s && forall k :: k in s ==> m <= k;
    m
  }

  /**
   * `findFirst({ where })`: the id of a row satisfying `p`, or None when no
   * row does. The id chosen is the lowest matching one.
   */
  function FindFirst<T>(m: map<int, T>, p: T -> bool): (r: Option<int>)
    ensures r.Some? ==> r.value in m && p(m[r.value])
    ensures r.Some? ==> forall k :: k in m && k < r.value ==> !p(m[k])
    ensures r.None? <==> forall k :: k in m ==> !p(m[k])
  {
    var hits := set k | k in m && p(m[k]);
    assert forall k :: k in m && p(m[k]) ==> k in hits;
    if exists k :: k in hits then Some(Least(hits)) else None
  }

  /** The ids of `s` in ascending order, each once. */
  function SortedIds(s: set<int>): (r: seq<int>)
    ensures forall k :: k in s <==> k in r
    ensures forall i, j :: 0 <= i < j < |r| ==> r[i] < r[j]
    decreases |s|
  {
    if exists k :: k in s then
      var m := Least(s);
      [m] + SortedIds(s - {m})
    else
      []
  }

  /** The rows of `m` stored under `ids`, in that order. */
  function RowsAt<T>(m: map<int, T>, ids: seq<int>): (r: seq<T>)
    requires forall i :: 0 <= i < |ids| ==> ids[i] in m
    ensures |r| == |ids|
    ensures forall i :: 0 <= i < |r| ==> r[i] == m[ids[i]]
  {
    if ids == [] then [] else [m[ids[0]]] + RowsAt(m, ids[1..])
  }
}
