/** Deleting a set of positions from a list, as remove_selected_files does
    with the listbox selection. */
module Positions {

  /** s without the elements at the positions in `drop`; the remaining
      elements keep their original relative order. */
  function RemovePositions<T>(s: seq<T>, drop: set<int>): (r: seq<T>)
    ensures |r| <= |s|
    decreases |s|
  {
    if s == [] then []
    else RemovePositions(s[..|s| - 1], drop) + (if |s| - 1 in drop then [] else [s[|s| - 1]])
  }

  /** Exactly one element goes per dropped position inside the list. */
  lemma {:induction false} RemovePositionsLength<T>(s: seq<T>, drop: set<int>)
    ensures |RemovePositions(s, drop)| == |s| - |DroppedIn(drop, |s|)|
    decreases |s|
  {
    if s == [] {
      assert DroppedIn(drop, 0) == {};
    } else {
      var k := |s| - 1;
      RemovePositionsLength(s[..k], drop);
      assert DroppedIn(drop, |s|) == DroppedIn(drop, k) + (if k in drop then {k} else {});
    }
  }

  /** The positions in `drop` that address an element of a list of length n. */
  function DroppedIn(drop: set<int>, n: nat): set<int>
  {
    set d | d in drop && 0 <= d < n
  }

  /** Dropping no position inside s leaves s as it is. */
  lemma {:induction false} RemoveNone<T>(s: seq<T>, drop: set<int>)
    requires forall d :: d in drop ==> d < 0 || |s| <= d
    ensures RemovePositions(s, drop) == s
    decreases |s|
  {
    if s != [] {
      RemoveNone(s[..|s| - 1], drop);
      assert s == s[..|s| - 1] + [s[|s| - 1]];
    }
  }

  /** When every dropped position lies above p, position p still holds s[p],
      and dropping p as well deletes exactly that element. This is why the
      source deletes the selection from the highest index down. */
  lemma {:induction false} RemoveBelow<T>(s: seq<T>, drop: set<int>, p: int)
    requires 0 <= p < |s|
    requires forall d :: d in drop ==> d > p
    ensures p < |RemovePositions(s, drop)| && RemovePositions(s, drop)[p] == s[p]
    ensures RemovePositions(s, drop + {p})
         == RemovePositions(s, drop)[..p] + RemovePositions(s, drop)[p + 1..]
    decreases |s|
  {
    var init, last := s[..|s| - 1], s[|s| - 1];
    if p == |s| - 1 {
      RemoveNone(init, drop);
      RemoveNone(init, drop + {p});
      assert RemovePositions(s, drop) == init + [last];
    } else {
      RemoveBelow(init, drop, p);
      var r := RemovePositions(init, drop);
      var tail := if |s| - 1 in drop then [] else [last];
      assert RemovePositions(s, drop) == r + tail;
      assert (r + tail)[..p] == r[..p];
      assert (r + tail)[p + 1..] == r[p + 1..] + tail;
    }
  }

  /** An element at a position that is not dropped survives. */
  lemma {:induction false} RemoveKeeps<T>(s: seq<T>, drop: set<int>, q: int)
    requires 0 <= q < |s| && q !in drop
    ensures s[q] in RemovePositions(s, drop)
    decreases |s|
  {
    if q < |s| - 1 {
      RemoveKeeps(s[..|s| - 1], drop, q);
    }
  }
}
