/** The scroll decisions of the list: where to position the view after a
    load, what a "jump to the playing track" request does, and which row the
    player highlights. */
module ScrollIntent {
  import opened Music
  import opened ArrayOps
  import opened RowLayout

  /** A request to the list widget: `scrollToIndex` with a row index and a
      view position, or `scrollToOffset` with a pixel offset. */
  datatype Scroll =
    | ToIndex(row: nat, viewPosition: real, animated: bool)
    | ToOffset(offset: int, animated: bool)

  /** The view position used to put the playing row into view. */
  const JumpViewPosition: real := 0.3

  /** `usePlayIndex`: the index the player is at, when the player plays the
      displayed list, and -1 otherwise. */
  function ActivePlayIndex(playListId: string, activeListId: string, playIndex: int): (r: int)
    ensures playListId != activeListId ==> r == -1
    ensures playListId == activeListId ==> r == playIndex
  {
    if playListId == activeListId then playIndex else -1
  }

  /** The positioning after a load of list `id` completes (second animation
      frame of `updateList`): the playing row when a jump is waiting, the
      player plays list `id` and has a track; the saved offset otherwise. */
  function AfterLoad(waitJump: bool, playListId: string, playIndex: int, id: string, position: int, rowNum: Pos): (r: Scroll)
    ensures r.ToIndex? <==> waitJump && playListId == id && playIndex > -1
    ensures r.ToIndex? ==>
      (r.viewPosition == JumpViewPosition && !r.animated &&
       r.row * rowNum <= playIndex < r.row * rowNum + rowNum)
    ensures r.ToOffset? ==> r == ToOffset(position, false)
  {
    if waitJump && playListId == id && playIndex > -1 then ToIndex(RowOf(playIndex, rowNum), JumpViewPosition, false)
    else ToOffset(position, false)
  }

  /** A jump after a load lands on the row the list highlights as playing. */
  lemma AfterLoadShowsHighlightedRow(waitJump: bool, playListId: string, playIndex: int, id: string, position: int, rowNum: Pos)
    requires AfterLoad(waitJump, playListId, playIndex, id, position, rowNum).ToIndex?
    ensures ActivePlayIndex(playListId, id, playIndex) >= 0
    ensures AfterLoad(waitJump, playListId, playIndex, id, position, rowNum).row
      == RowOf(ActivePlayIndex(playListId, id, playIndex), rowNum)
  {
  }

  /** What a "jump to the playing track" request does (`handleJumpPosition`,
      inside its animation frame): make another list active, latch a waiting
      jump, and/or scroll now. */
  datatype JumpAction = JumpAction(activate: Option<string>, latch: bool, scroll: Option<Scroll>)

  function Jump(playListId: string, playIndex: int, activeListId: string, currentListId: string, isUpdating: bool, rowNum: Pos): (r: JumpAction)
    ensures playListId == "" ==> r == JumpAction(None, false, None)
    ensures r.activate.Some? <==> playListId != "" && playListId != activeListId
    ensures r.activate.Some? ==> r.activate.value == playListId
    ensures r.latch <==>
      (playListId != "" &&
       ((playListId != activeListId && currentListId != playListId) ||
        (playListId == activeListId && playIndex > -1 && isUpdating)))
    ensures r.scroll.Some? <==> playListId != "" && playListId == activeListId && playIndex > -1 && !isUpdating
    ensures r.scroll.Some? ==>
      (r.scroll.value.ToIndex? && r.scroll.value.animated &&
       r.scroll.value.viewPosition == JumpViewPosition &&
       r.scroll.value.row * rowNum <= playIndex < r.scroll.value.row * rowNum + rowNum)
  {
    if playListId == "" then JumpAction(None, false, None)
    else if playListId != activeListId then JumpAction(Some(playListId), currentListId != playListId, None)
    else if playIndex > -1 then
      if isUpdating then JumpAction(None, true, None)
      else JumpAction(None, false, Some(ToIndex(RowOf(playIndex, rowNum), JumpViewPosition, true)))
    else JumpAction(None, false, None)
  }

  /** A jump request either scrolls now or defers to a load, never both. */
  lemma JumpScrollsOrLatches(playListId: string, playIndex: int, activeListId: string, currentListId: string, isUpdating: bool, rowNum: Pos)
    ensures var a := Jump(playListId, playIndex, activeListId, currentListId, isUpdating, rowNum);
      !(a.latch && a.scroll.Some?) && !(a.activate.Some? && a.scroll.Some?)
  {
  }

  /** `scrollToInfo` once the active list's tracks arrive: the row of the
      first track with the same id, or nothing when the list lacks it. */
  function InfoScroll(list: seq<MusicInfo>, id: string, rowNum: Pos): (r: Option<Scroll>)
    ensures r.None? <==> forall k :: 0 <= k < |list| ==> list[k].id != id
    ensures r.Some? ==>
      (r.value.ToIndex? && r.value.animated && r.value.viewPosition == JumpViewPosition &&
       exists k :: 0 <= k < |list| && list[k].id == id && RowOf(k, rowNum) == r.value.row &&
         forall j :: 0 <= j < k ==> list[j].id != id)
  {
    var index := FindIndex(list, (m: MusicInfo) => m.id == id);
    if index < 0 then None else Some(ToIndex(RowOf(index, rowNum), JumpViewPosition, true))
  }
}
