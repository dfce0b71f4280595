/** The selection rules of the list: single-item toggling, range selection
    measured from an anchor, and the "select all" notification. */
module Selection {
  import opened Music
  import opened ArrayOps

  /** `SelectMode` of the multi-select bar. */
  datatype SelectMode = Single | Range | Drag

  /** Single mode (`handleSelect`, single branch): an item not yet selected
      is appended; otherwise its first occurrence is spliced out. */
  function ToggleSingle(selected: seq<MusicInfo>, item: MusicInfo): (r: seq<MusicInfo>)
    ensures item !in selected ==> r == selected + [item]
    ensures item in selected ==>
      r == RemoveAt(selected, IndexOf(selected, item)) &&
      multiset(r) == multiset(selected) - multiset{item}
  {
    var i := IndexOf(selected, item);
    if i < 0 then selected + [item] else RemoveAt(selected, i)
  }

  /** Pressing the same item twice, starting from a selection without it,
      restores the selection exactly. */
  lemma ToggleSingleTwice(selected: seq<MusicInfo>, item: MusicInfo)
    requires item !in selected
    ensures ToggleSingle(ToggleSingle(selected, item), item) == selected
  {
    var once := selected + [item];
    assert IndexOf(once, item) == |selected|;
  }

  /** On a selection without repeats, a press flips whether the item is
      selected and leaves every other item's membership alone. */
  lemma ToggleSingleFlips(selected: seq<MusicInfo>, item: MusicInfo, other: MusicInfo)
    requires Distinct(selected)
    requires other != item
    ensures item in ToggleSingle(selected, item) <==> item !in selected
    ensures other in ToggleSingle(selected, item) <==> other in selected
  {
    var r := ToggleSingle(selected, item);
    assert multiset(r)[other] == multiset(selected)[other];
    if item in selected {
      DistinctCountOne(selected, IndexOf(selected, item));
      assert multiset(r)[item] == 0;
    }
  }

  /** A press creates no repeats in a selection without repeats. */
  lemma ToggleSingleDistinct(selected: seq<MusicInfo>, item: MusicInfo)
    requires Distinct(selected)
    ensures Distinct(ToggleSingle(selected, item))
  {
    var r := ToggleSingle(selected, item);
    if item in selected {
      var i := IndexOf(selected, item);
      forall a, b | 0 <= a < b < |r| ensures r[a] != r[b] {
        var a', b' := if a < i then a else a + 1, if b < i then b else b + 1;
        assert a' < b' && r[a] == selected[a'] && r[b] == selected[b'];
      }
    } else {
      forall a, b | 0 <= a < b < |r| ensures r[a] != r[b] {
        if b == |selected| {
          assert r[a] == selected[a] && selected[a] in selected;
        } else {
          assert r[a] == selected[a] && r[b] == selected[b];
        }
      }
    }
  }

  /** In a sequence without repeats, the element at `i` occurs once. */
  lemma {:induction false} DistinctCountOne(s: seq<MusicInfo>, i: nat)
    requires Distinct(s) && i < |s|
    ensures multiset(s)[s[i]] == 1
  {
    var t := RemoveAt(s, i);
    assert s[i] !in t by {
      forall k | 0 <= k < |t| ensures t[k] != s[i] {
        if k < i { assert t[k] == s[k]; } else { assert t[k] == s[k + 1]; }
      }
    }
    assert multiset(t)[s[i]] == 0;
  }

  /** Range mode with a non-empty selection (`handleSelect`, range branch):
      pressing the anchor itself clears the selection, pressing further down
      selects `anchor..press` inclusive, pressing further up selects
      `press..anchor` inclusive in reverse order. The slices are JavaScript
      slices, so an anchor of -1 counts from the end of the list. */
  function RangeSelection(list: seq<MusicInfo>, anchor: int, press: int): (r: seq<MusicInfo>)
    ensures press == anchor ==> r == []
    ensures 0 <= anchor < press < |list| ==> r == list[anchor..press + 1]
    ensures 0 <= press < anchor < |list| ==> r == Reverse(list[press..anchor + 1])
    ensures forall x :: x in r ==> x in list
  {
    if press == anchor then []
    else if press > anchor then Slice(list, anchor, press + 1)
    else
      var part := Slice(list, press, anchor + 1);
      ReverseMultiset(part);
      assert forall x :: x in Reverse(part) ==> x in multiset(part);
      Reverse(part)
  }

  /** Going backwards from the anchor selects the rows from the anchor up to
      the pressed row, the anchor's row first. */
  lemma RangeBackwards(list: seq<MusicInfo>, anchor: int, press: int)
    requires 0 <= press < anchor < |list|
    ensures |RangeSelection(list, anchor, press)| == anchor - press + 1
    ensures forall k :: 0 <= k <= anchor - press ==> RangeSelection(list, anchor, press)[k] == list[anchor - k]
  {
    var part := list[press..anchor + 1];
    forall k | 0 <= k <= anchor - press ensures Reverse(part)[k] == list[anchor - k] {
      ReverseAt(part, k);
    }
  }

  /** Going in either direction selects the same items, the same number of
      times: only the order differs. */
  lemma RangeSymmetric(list: seq<MusicInfo>, i: int, j: int)
    requires 0 <= i < |list| && 0 <= j < |list| && i != j
    ensures multiset(RangeSelection(list, i, j)) == multiset(RangeSelection(list, j, i))
  {
    if i < j {
      ReverseMultiset(list[i..j + 1]);
    } else {
      ReverseMultiset(list[j..i + 1]);
    }
  }

  /** With no anchor (-1, as after "select all" without a press), a range
      press picks the last item when it is the last item and nothing
      otherwise, because `slice(-1, press + 1)` starts at the last item. */
  lemma RangeWithoutAnchor(list: seq<MusicInfo>, press: int)
    requires 0 <= press < |list|
    ensures press == |list| - 1 ==> RangeSelection(list, -1, press) == [list[press]]
    ensures press < |list| - 1 ==> RangeSelection(list, -1, press) == []
  {
  }

  /** The selection and its anchor (`selectedListRef`, `prevSelectIndexRef`). */
  datatype SelectionState = SelectionState(selected: seq<MusicInfo>, anchor: int)

  /** The new selection and anchor after a press on `item` at `press`
      (`handleSelect`). Every mode other than single uses the range rule;
      an empty selection in range mode starts at the pressed item. */
  function Select(mode: SelectMode, st: SelectionState, list: seq<MusicInfo>, item: MusicInfo, press: int): (r: SelectionState)
    ensures mode == Single ==> r.anchor == press && r.selected == ToggleSingle(st.selected, item)
    ensures mode != Single && st.selected == [] ==> r == SelectionState([item], press)
    ensures mode != Single && st.selected != [] ==>
      r.anchor == st.anchor && r.selected == RangeSelection(list, st.anchor, press)
  {
    match mode
    case Single => SelectionState(ToggleSingle(st.selected, item), press)
    case _ =>
      if |st.selected| > 0 then SelectionState(RangeSelection(list, st.anchor, press), st.anchor)
      else SelectionState([item], press)
  }

  /** Range extension never moves the anchor: two presses in a row are both
      measured from it, and a press back on the anchor clears the selection. */
  lemma RangeCollapsesOnAnchor(st: SelectionState, list: seq<MusicInfo>, item: MusicInfo, press: int, item': MusicInfo)
    requires st.selected != []
    ensures var st' := Select(Range, st, list, item, press);
      st'.anchor == st.anchor &&
      (st'.selected != [] ==> Select(Range, st', list, item', st.anchor).selected == [])
  {
  }

  /** The `onSelectAll` call `handleUpdateSelectedList` makes: `true` when
      the old selection is non-empty and the new one has the list's length,
      otherwise `false` when the old selection had the list's length, and
      none otherwise. */
  function SelectAllSignal(prevCount: nat, newCount: nat, listCount: nat): (r: Option<bool>)
    ensures r == Some(true) <==> prevCount > 0 && newCount == listCount
    ensures r == Some(false) <==> !(prevCount > 0 && newCount == listCount) && prevCount == listCount
  {
    if prevCount > 0 && newCount == listCount then Some(true)
    else if prevCount == listCount then Some(false)
    else None
  }

  /** Becoming full from a non-empty partial selection reports `true`;
      leaving a full selection for a partial one reports `false`; the
      `true` report repeats when a full selection is replaced by another
      full one. Starting from an empty selection never reports `true`. */
  lemma SelectAllSignalEdges(prevCount: nat, newCount: nat, listCount: nat)
    ensures 0 < prevCount != listCount && newCount == listCount ==> SelectAllSignal(prevCount, newCount, listCount) == Some(true)
    ensures prevCount == listCount && newCount != listCount ==> SelectAllSignal(prevCount, newCount, listCount) == Some(false)
    ensures 0 < prevCount == listCount == newCount ==> SelectAllSignal(prevCount, newCount, listCount) == Some(true)
    ensures prevCount == 0 ==> SelectAllSignal(prevCount, newCount, listCount) != Some(true)
  {
  }
}
