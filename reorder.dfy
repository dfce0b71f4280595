/** The reorder a drag commits (`handleMoveToPosition`): the item at `from`
    is spliced out of a copy of the list and spliced back in at `to`. */
module Reorder {
  import opened ArrayOps

  /** `newList.splice(from, 1)` followed by `newList.splice(to, 0, moved)`. */
  function MoveItem<T>(s: seq<T>, from: nat, to: nat): (r: seq<T>)
    requires from < |s| && to < |s|
    ensures |r| == |s| && multiset(r) == multiset(s)
    ensures r[to] == s[from]
    ensures RemoveAt(r, to) == RemoveAt(s, from)
  {
    RemoveInserted(RemoveAt(s, from), to, s[from]);
    InsertAt(RemoveAt(s, from), to, s[from])
  }

  /** Where the item at `k` ends up after moving the item at `from` to `to`:
      the items strictly between the two positions shift by one towards
      `from`, and every other item stays put. */
  function NewPosition(k: nat, from: nat, to: nat): (p: nat)
    requires k != from
    ensures p != to
  {
    if from < k <= to then k - 1
    else if to <= k < from then k + 1
    else k
  }

  /** Every item other than the moved one is found at its new position, and
      the new positions keep the old relative order. */
  lemma MoveKeepsOthers<T>(s: seq<T>, from: nat, to: nat, j: nat, k: nat)
    requires from < |s| && to < |s|
    requires j < |s| && k < |s| && j != from && k != from
    ensures NewPosition(k, from, to) < |s|
    ensures MoveItem(s, from, to)[NewPosition(k, from, to)] == s[k]
    ensures j < k ==> NewPosition(j, from, to) < NewPosition(k, from, to)
  {
    var r, rest := MoveItem(s, from, to), RemoveAt(s, from);
    var p := NewPosition(k, from, to);
    var q := if k < from then k else k - 1;
    assert rest[q] == s[k];
    if p < to {
      assert p == q;
    } else {
      assert p == q + 1 && r[p] == rest[p - 1];
    }
  }

  /** Moving onto the same position changes nothing. */
  lemma MoveInPlace<T>(s: seq<T>, i: nat)
    requires i < |s|
    ensures MoveItem(s, i, i) == s
  {
    InsertRemoved(s, i);
  }

  /** Moving the item back from `to` to `from` undoes the move. */
  lemma MoveRoundTrip<T>(s: seq<T>, from: nat, to: nat)
    requires from < |s| && to < |s|
    ensures MoveItem(MoveItem(s, from, to), to, from) == s
  {
    var r := MoveItem(s, from, to);
    assert MoveItem(r, to, from) == InsertAt(RemoveAt(s, from), from, s[from]);
    InsertRemoved(s, from);
  }
}
