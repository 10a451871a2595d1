/** Queries and updates on the ordered lists of cells the game keeps
    (the snake's body and the obstacles). */
module CellLists {
  import opened Grid

  /** Position of the first cell equal to `c`, or -1 when there is none. */
  function FirstIndex(s: seq<Cell>, c: Cell): (r: int)
    ensures -1 <= r < |s|
    ensures r == -1 <==> c !in s
    ensures r >= 0 ==> s[r] == c && c !in s[..r]
  {
    if s == [] then -1
    else if s[0] == c then 0
    else
      var k := FirstIndex(s[1..], c);
      assert s[1..][..if k >= 0 then k else 0] == s[1..if k >= 0 then k + 1 else 1];
      if k == -1 then -1 else k + 1
  }

  /** ArrayList.remove(Object): drops the first element equal to `c`, keeps
      the rest in order, and leaves a list without `c` as it was. */
  function RemoveFirst(s: seq<Cell>, c: Cell): (r: seq<Cell>)
    ensures c !in s ==> r == s
    ensures c in s ==> |r| == |s| - 1
    ensures c in s ==> r == s[..FirstIndex(s, c)] + s[FirstIndex(s, c) + 1..]
  {
    if s == [] then []
    else if s[0] == c then s[1..]
    else [s[0]] + RemoveFirst(s[1..], c)
  }

  /** Removing one occurrence takes exactly one copy of `c` out of the list
      and leaves every other cell's count alone. */
  lemma {:induction false} RemoveFirstMultiset(s: seq<Cell>, c: Cell)
    requires c in s
    ensures multiset(RemoveFirst(s, c)) == multiset(s) - multiset{c}
    ensures multiset(RemoveFirst(s, c)) + multiset{c} == multiset(s)
  {
    var i := FirstIndex(s, c);
    assert s == s[..i] + [s[i]] + s[i + 1..];
  }

  /** Removing cells never brings a cell out of the grid. */
  lemma RemoveFirstInBounds(s: seq<Cell>, c: Cell)
    requires AllInBounds(s)
    ensures AllInBounds(RemoveFirst(s, c))
  {
  }

  /** The head (first cell) coincides with some later cell of the body. */
  predicate HitsBody(s: seq<Cell>)
    requires |s| >= 1
  {
    exists i :: 1 <= i < |s| && s[i] == s[0]
  }

  /** A one-cell snake cannot run into itself. */
  lemma SingleCellNeverHits(c: Cell)
    ensures !HitsBody([c])
  {
  }
}
