/** The list session of the "my list" track list: the displayed list and
    its identity, the selection, the drag reorder and the scroll bookkeeping,
    as one object whose handlers run one at a time. Asynchronous work
    (fetches, animation frames) is split into a request handler and a
    completion handler that the environment calls later; calls the list makes
    to other parts of the application are recorded in `log`. */
module MusicListSession {
  import opened Music
  import opened ArrayOps
  import opened RowLayout
  import opened Selection
  import opened Reorder
  import opened ScrollIntent

  /** A call the list makes to the outside. */
  datatype Effect =
    | SelectAllChanged(isAll: bool)                               // props.onSelectAll
    | MultiSelectEntered                                          // props.onMuiltSelectMode
    | ListLoadRequested(listId: string)                           // getListMusics + getListPosition
    | ContentsRequested(listId: string)                           // getListMusics
    | PrevSelectIdRequested                                       // getListPrevSelectId
    | PositionPersisted(listId: string, toIndex: nat, ids: seq<string>)  // updateListMusicPosition
    | PositionSaved(listId: string, offset: int)                  // saveListPosition
    | ActiveListSet(listId: string)                               // setActiveList
    | Scrolled(scroll: Scroll)                                    // scrollToIndex / scrollToOffset

  /** The `onSelectAll` call, if any, for a selection-all signal. */
  function Notify(signal: Option<bool>): (r: seq<Effect>)
    ensures signal.None? <==> r == []
    ensures signal.Some? ==> r == [SelectAllChanged(signal.value)]
  {
    if signal.Some? then [SelectAllChanged(signal.value)] else []
  }

  class ListSession {
    const itemHeight: Pos              // ITEM_HEIGHT
    const rowNum: Pos                  // rowInfo.current.rowNum ?? 1

    var currentList: seq<MusicInfo>    // the displayed list
    var selectedList: seq<MusicInfo>   // selectedListRef
    var prevSelectIndex: int           // prevSelectIndexRef: the range anchor
    var isMultiSelectMode: bool        // isMultiSelectModeRef
    var selectMode: SelectMode         // selectModeRef
    var currentListId: string          // currentListIdRef: the last requested list
    var waitJumpListPosition: bool     // waitJumpListPositionRef: a latched jump
    var listFirstScroll: bool          // listFirstScrollRef: skip the next scroll save
    var isUpdatingList: bool           // isUpdateingList: a load is in flight
    var isDragMode: bool
    var dragItem: Option<MusicInfo>
    var dragIndex: int
    var hoveredIndex: int

    /** The list whose tracks are displayed, `None` for the empty placeholder. */
    ghost var loadedId: Option<string>
    /** Every list id `updateList` was called with, in order. */
    ghost var requests: seq<string>
    /** The calls made to the outside, in order. */
    ghost var log: seq<Effect>

    /** The displayed tracks always belong to the last requested list, and
        that is the list `currentListId` names. */
    ghost predicate Valid()
      reads this
    {
      && (loadedId.Some? ==> loadedId.value == currentListId)
      && (loadedId.None? ==> currentList == [])
      && (requests == [] ==> currentListId == "")
      && (requests != [] ==> currentListId == requests[|requests| - 1])
    }

    /** The state when the component mounts. */
    constructor (itemHeight: Pos, configuredRowNum: Option<Pos>)
      ensures Valid()
      ensures this.itemHeight == itemHeight && rowNum == ItemsPerRow(configuredRowNum)
      ensures currentList == [] && selectedList == [] && prevSelectIndex == -1
      ensures !isMultiSelectMode && selectMode == Single
      ensures currentListId == "" && !waitJumpListPosition && !listFirstScroll && isUpdatingList
      ensures !isDragMode && dragItem == None && dragIndex == -1 && hoveredIndex == -1
      ensures loadedId == None && requests == [] && log == []
    {
      this.itemHeight := itemHeight;
      rowNum := ItemsPerRow(configuredRowNum);
      currentList, selectedList, prevSelectIndex := [], [], -1;
      isMultiSelectMode, selectMode := false, Single;
      currentListId, waitJumpListPosition, listFirstScroll, isUpdatingList := "", false, false, true;
      isDragMode, dragItem, dragIndex, hoveredIndex := false, None, -1, -1;
      loadedId, requests, log := None, [], [];
    }

    // ---------------------------------------------------------------
    // List identity and loading

    /** `updateList(id)`: switching to another list empties the display,
        marks a load in flight and requests the tracks and the saved offset;
        asking for the current list again does nothing. */
    method UpdateList(id: string)
      requires Valid()
      modifies this`currentList, this`isUpdatingList, this`currentListId, this`loadedId, this`requests, this`log
      ensures Valid()
      ensures currentListId == id && requests == old(requests) + [id]
      ensures old(currentListId) == id ==>
        currentList == old(currentList) && isUpdatingList == old(isUpdatingList) &&
        loadedId == old(loadedId) && log == old(log)
      ensures old(currentListId) != id ==>
        currentList == [] && isUpdatingList && loadedId == None &&
        log == old(log) + [ListLoadRequested(id)]
    {
      requests := requests + [id];
      if currentListId == id {
        return;
      }
      isUpdatingList := true;
      currentList := [];
      loadedId := None;
      currentListId := id;
      log := log + [ListLoadRequested(id)];
    }

    /** First animation frame after the load of `id` completes: a stale
        completion (another list was requested since) is discarded; otherwise
        the selection is emptied and the fetched tracks are displayed. The
        result says whether the second frame (`LoadSettled`) is scheduled. */
    method LoadArrived(id: string, list: seq<MusicInfo>) returns (installed: bool)
      requires Valid()
      modifies this`selectedList, this`currentList, this`loadedId
      ensures Valid()
      ensures installed <==> id == currentListId
      ensures installed ==> selectedList == [] && currentList == list && loadedId == Some(id)
      ensures !installed ==>
        selectedList == old(selectedList) && currentList == old(currentList) && loadedId == old(loadedId)
    {
      if currentListId != id {
        return false;
      }
      selectedList := [];
      currentList := list;
      loadedId := Some(id);
      installed := true;
    }

    /** Second animation frame of the load of `id`: the load is no longer in
        flight, the next scroll event is not saved, a latched jump is
        consumed, and the view is positioned by `AfterLoad`. This frame does
        not check `id` against `currentListId` again. */
    method LoadSettled(id: string, position: int, playListId: string, playIndex: int)
      requires Valid()
      modifies this`isUpdatingList, this`listFirstScroll, this`waitJumpListPosition, this`log
      ensures Valid()
      ensures !isUpdatingList && listFirstScroll && !waitJumpListPosition
      ensures log == old(log) + [Scrolled(AfterLoad(old(waitJumpListPosition), playListId, playIndex, id, position, rowNum))]
    {
      isUpdatingList := false;
      listFirstScroll := true;
      var scroll := AfterLoad(waitJumpListPosition, playListId, playIndex, id, position, rowNum);
      waitJumpListPosition := false;
      log := log + [Scrolled(scroll)];
    }

    /** `handleChange(ids)`: a change to lists that do not include the active
        list is ignored; otherwise the active list's tracks are refetched. */
    method ChangeRequested(ids: seq<string>, activeListId: string) returns (fetching: bool)
      requires Valid()
      modifies this`log
      ensures Valid()
      ensures fetching <==> activeListId in ids
      ensures fetching ==> log == old(log) + [ContentsRequested(activeListId)]
      ensures !fetching ==> log == old(log)
    {
      if activeListId !in ids {
        return false;
      }
      log := log + [ContentsRequested(activeListId)];
      fetching := true;
    }

    /** The refetch of `handleChange` completes: discarded when `id` is no
        longer the current list; otherwise the selection is emptied and the
        new tracks replace the displayed ones. */
    method ChangeLoaded(id: string, list: seq<MusicInfo>) returns (installed: bool)
      requires Valid()
      modifies this`selectedList, this`currentList, this`loadedId
      ensures Valid()
      ensures installed <==> id == currentListId
      ensures installed ==> selectedList == [] && currentList == list && loadedId == Some(id)
      ensures !installed ==>
        selectedList == old(selectedList) && currentList == old(currentList) && loadedId == old(loadedId)
    {
      if currentListId != id {
        return false;
      }
      selectedList := [];
      currentList := list;
      loadedId := Some(id);
      installed := true;
    }

    /** The mount-time start: when a jump to the playing list was asked for
        and the player has a list, latch the jump and load that list;
        otherwise ask for the previously selected list id (the environment
        then calls `UpdateList` with it). */
    method Init(jumpRequested: bool, playListId: string)
      requires Valid()
      modifies this`currentList, this`isUpdatingList, this`currentListId, this`loadedId, this`requests, this`log,
        this`waitJumpListPosition
      ensures Valid()
      ensures jumpRequested && playListId != "" ==>
        waitJumpListPosition && currentListId == playListId && requests == old(requests) + [playListId]
      ensures jumpRequested && playListId != "" && old(currentListId) == playListId ==>
        currentList == old(currentList) && isUpdatingList == old(isUpdatingList) &&
        loadedId == old(loadedId) && log == old(log)
      ensures jumpRequested && playListId != "" && old(currentListId) != playListId ==>
        currentList == [] && isUpdatingList && loadedId == None &&
        log == old(log) + [ListLoadRequested(playListId)]
      ensures !(jumpRequested && playListId != "") ==>
        waitJumpListPosition == old(waitJumpListPosition) && currentListId == old(currentListId) &&
        currentList == old(currentList) && isUpdatingList == old(isUpdatingList) && loadedId == old(loadedId) &&
        requests == old(requests) && log == old(log) + [PrevSelectIdRequested]
    {
      if jumpRequested && playListId != "" {
        waitJumpListPosition := true;
        UpdateList(playListId);
      } else {
        log := log + [PrevSelectIdRequested];
      }
    }

    /** `handleJumpPosition`, in its animation frame: follow `Jump`. Making
        another list active reaches `UpdateList` through the store's
        notification, which the environment delivers. */
    method JumpPosition(playListId: string, playIndex: int, activeListId: string)
      requires Valid()
      modifies this`waitJumpListPosition, this`log
      ensures Valid()
      ensures var a := Jump(playListId, playIndex, activeListId, currentListId, isUpdatingList, rowNum);
        && waitJumpListPosition == (old(waitJumpListPosition) || a.latch)
        && log == old(log)
             + (if a.activate.Some? then [ActiveListSet(a.activate.value)] else [])
             + (if a.scroll.Some? then [Scrolled(a.scroll.value)] else [])
    {
      var a := Jump(playListId, playIndex, activeListId, currentListId, isUpdatingList, rowNum);
      if a.activate.Some? {
        log := log + [ActiveListSet(a.activate.value)];
      }
      if a.latch {
        waitJumpListPosition := true;
      }
      if a.scroll.Some? {
        log := log + [Scrolled(a.scroll.value)];
      }
    }

    /** `handleScroll`: the first scroll event after a load is skipped and
        clears the flag; every other one saves the offset for the active list. */
    method HandleScroll(offset: int, activeListId: string) returns (saved: bool)
      requires Valid()
      modifies this`listFirstScroll, this`log
      ensures Valid()
      ensures saved <==> !old(listFirstScroll)
      ensures !listFirstScroll
      ensures saved ==> log == old(log) + [PositionSaved(activeListId, offset)]
      ensures !saved ==> log == old(log)
    {
      if listFirstScroll {
        listFirstScroll := false;
        return false;
      }
      log := log + [PositionSaved(activeListId, offset)];
      saved := true;
    }

    /** `scrollToInfo(info)` once the active list's tracks arrive. */
    method ScrollToInfoLoaded(info: MusicInfo, list: seq<MusicInfo>)
      requires Valid()
      modifies this`log
      ensures Valid()
      ensures var s := InfoScroll(list, info.id, rowNum);
        log == old(log) + (if s.Some? then [Scrolled(s.value)] else [])
    {
      var s := InfoScroll(list, info.id, rowNum);
      if s.Some? {
        log := log + [Scrolled(s.value)];
      }
    }

    /** `scrollToTop`. */
    method ScrollToTop()
      requires Valid()
      modifies this`log
      ensures Valid()
      ensures log == old(log) + [Scrolled(ToOffset(0, true))]
    {
      log := log + [Scrolled(ToOffset(0, true))];
    }

    // ---------------------------------------------------------------
    // Selection

    /** `handleUpdateSelectedList`: report the select-all signal, then
        replace the selection. */
    method HandleUpdateSelectedList(newList: seq<MusicInfo>)
      requires Valid()
      modifies this`selectedList, this`log
      ensures Valid()
      ensures selectedList == newList
      ensures log == old(log) + Notify(SelectAllSignal(|old(selectedList)|, |newList|, |currentList|))
    {
      log := log + Notify(SelectAllSignal(|selectedList|, |newList|, |currentList|));
      selectedList := newList;
    }

    /** `handleSelect(item, pressIndex)`: apply `Select` and report. */
    method HandleSelect(item: MusicInfo, pressIndex: int)
      requires Valid()
      modifies this`selectedList, this`prevSelectIndex, this`log
      ensures Valid()
      ensures var next := Select(selectMode, SelectionState(old(selectedList), old(prevSelectIndex)), currentList, item, pressIndex);
        && selectedList == next.selected && prevSelectIndex == next.anchor
        && log == old(log) + Notify(SelectAllSignal(|old(selectedList)|, |next.selected|, |currentList|))
    {
      var next := Select(selectMode, SelectionState(selectedList, prevSelectIndex), currentList, item, pressIndex);
      prevSelectIndex := next.anchor;
      HandleUpdateSelectedList(next.selected);
    }

    /** `handleLongPress(item, index)`: outside multi-select mode, select just
        this item, anchor at it and ask the page to enter multi-select mode. */
    method HandleLongPress(item: MusicInfo, index: int)
      requires Valid()
      modifies this`selectedList, this`prevSelectIndex, this`log
      ensures Valid()
      ensures isMultiSelectMode ==>
        selectedList == old(selectedList) && prevSelectIndex == old(prevSelectIndex) && log == old(log)
      ensures !isMultiSelectMode ==>
        selectedList == [item] && prevSelectIndex == index &&
        log == old(log) + Notify(SelectAllSignal(|old(selectedList)|, 1, |currentList|)) + [MultiSelectEntered]
    {
      if isMultiSelectMode {
        return;
      }
      prevSelectIndex := index;
      HandleUpdateSelectedList([item]);
      log := log + [MultiSelectEntered];
    }

    /** `setIsMultiSelectMode`: leaving multi-select mode drops the anchor
        and empties the selection (reporting the signal). */
    method SetIsMultiSelectMode(multi: bool)
      requires Valid()
      modifies this`isMultiSelectMode, this`prevSelectIndex, this`selectedList, this`log
      ensures Valid()
      ensures isMultiSelectMode == multi
      ensures multi ==>
        prevSelectIndex == old(prevSelectIndex) && selectedList == old(selectedList) && log == old(log)
      ensures !multi ==>
        prevSelectIndex == -1 && selectedList == [] &&
        log == old(log) + Notify(SelectAllSignal(|old(selectedList)|, 0, |currentList|))
    {
      isMultiSelectMode := multi;
      if !multi {
        prevSelectIndex := -1;
        HandleUpdateSelectedList([]);
      }
    }

    /** `setSelectMode(mode)`: drag mode turns dragging on and multi-select
        off, drops the anchor and empties the selection; any other mode turns
        dragging off and forgets the dragged item. */
    method SetSelectMode(mode: SelectMode)
      requires Valid()
      modifies this`selectMode, this`isDragMode, this`isMultiSelectMode, this`prevSelectIndex,
        this`selectedList, this`log, this`dragItem, this`dragIndex
      ensures Valid()
      ensures selectMode == mode
      ensures mode == Drag ==>
        isDragMode && !isMultiSelectMode && prevSelectIndex == -1 && selectedList == [] &&
        log == old(log) + Notify(SelectAllSignal(|old(selectedList)|, 0, |currentList|)) &&
        dragItem == old(dragItem) && dragIndex == old(dragIndex)
      ensures mode != Drag ==>
        !isDragMode && dragItem == None && dragIndex == -1 &&
        isMultiSelectMode == old(isMultiSelectMode) && prevSelectIndex == old(prevSelectIndex) &&
        selectedList == old(selectedList) && log == old(log)
    {
      selectMode := mode;
      if mode == Drag {
        isDragMode := true;
        isMultiSelectMode := false;
        prevSelectIndex := -1;
        HandleUpdateSelectedList([]);
      } else {
        isDragMode := false;
        dragItem := None;
        dragIndex := -1;
      }
    }

    /** `selectAll(isAll)`: the whole list or nothing, with no report. */
    method SelectAll(isAll: bool)
      requires Valid()
      modifies this`selectedList
      ensures Valid()
      ensures selectedList == if isAll then currentList else []
    {
      selectedList := if isAll then currentList else [];
    }

    /** `getSelectedList`. */
    method GetSelectedList() returns (r: seq<MusicInfo>)
      ensures r == selectedList
    {
      r := selectedList;
    }

    // ---------------------------------------------------------------
    // Drag reorder

    /** `setDragMode(isDragMode, musicInfo, index)`: the item and index are
        recorded only when dragging is turned on and both are given. */
    method SetDragMode(drag: bool, musicInfo: Option<MusicInfo>, index: Option<int>)
      requires Valid()
      modifies this`isDragMode, this`dragItem, this`dragIndex
      ensures Valid()
      ensures isDragMode == drag
      ensures drag && musicInfo.Some? && index.Some? ==> dragItem == musicInfo && dragIndex == index.value
      ensures !(drag && musicInfo.Some? && index.Some?) ==> dragItem == None && dragIndex == -1
    {
      isDragMode := drag;
      if drag && musicInfo.Some? && index.Some? {
        dragItem := musicInfo;
        dragIndex := index.value;
      } else {
        dragItem := None;
        dragIndex := -1;
      }
    }

    /** `handleDragStart(item, index)`: only in drag mode, record the dragged
        item and its index and clear the hover. */
    method HandleDragStart(item: MusicInfo, index: int)
      requires Valid()
      modifies this`dragItem, this`dragIndex, this`hoveredIndex
      ensures Valid()
      ensures selectMode == Drag ==> dragItem == Some(item) && dragIndex == index && hoveredIndex == -1
      ensures selectMode != Drag ==>
        dragItem == old(dragItem) && dragIndex == old(dragIndex) && hoveredIndex == old(hoveredIndex)
    {
      if selectMode != Drag {
        return;
      }
      dragItem := Some(item);
      dragIndex := index;
      hoveredIndex := -1;
    }

    /** `handleDragEnd`, with the reset its animation callback performs taken
        as immediate; nothing happens without a dragged item and index. */
    method HandleDragEnd()
      requires Valid()
      modifies this`dragItem, this`dragIndex, this`hoveredIndex
      ensures Valid()
      ensures old(dragItem.None? || dragIndex == -1) ==>
        dragItem == old(dragItem) && dragIndex == old(dragIndex) && hoveredIndex == old(hoveredIndex)
      ensures !old(dragItem.None? || dragIndex == -1) ==>
        dragItem == None && dragIndex == -1 && hoveredIndex == -1
    {
      if dragItem.None? || dragIndex == -1 {
        return;
      }
      dragItem := None;
      dragIndex := -1;
      hoveredIndex := -1;
    }

    /** `onPanResponderMove`: while dragging, the hover follows the pointer
        as `HoverAfterMove` says. */
    method DragMove(moveX: nat, moveY: nat)
      requires Valid()
      modifies this`hoveredIndex
      ensures Valid()
      ensures !isDragMode || dragItem.None? ==> hoveredIndex == old(hoveredIndex)
      ensures isDragMode && dragItem.Some? ==>
        hoveredIndex == HoverAfterMove(old(hoveredIndex), PointerIndex(moveX, moveY, itemHeight, rowNum), |currentList|)
    {
      if !isDragMode || dragItem.None? {
        return;
      }
      var index := PointerIndex(moveX, moveY, itemHeight, rowNum);
      hoveredIndex := HoverAfterMove(hoveredIndex, index, |currentList|);
    }

    /** `handleMoveToPosition(fromIndex, toIndex)`: reorder a copy of the
        list and ask the store to move the same item to `toIndex`. The first
        `splice` reads `fromIndex` as JavaScript does (negative counts from
        the end); when it names no item (`fromIndex` past the end), the
        source fails on `movedItem.id`, reported here as `failed`. */
    method HandleMoveToPosition(fromIndex: int, toIndex: int, activeListId: string) returns (failed: bool)
      requires Valid()
      requires 0 <= toIndex < |currentList|
      modifies this`currentList, this`log
      ensures Valid()
      ensures failed <==> fromIndex != toIndex && fromIndex >= |old(currentList)|
      ensures fromIndex == toIndex || failed ==> currentList == old(currentList) && log == old(log)
      ensures fromIndex != toIndex && !failed ==>
        var from := RelativeIndex(fromIndex, |old(currentList)|);
        && from < |old(currentList)|
        && currentList == MoveItem(old(currentList), from, toIndex)
        && log == old(log) + [PositionPersisted(activeListId, toIndex, [old(currentList)[from].id])]
    {
      failed := false;
      if fromIndex == toIndex {
        return;
      }
      var from := RelativeIndex(fromIndex, |currentList|);
      if from == |currentList| {
        return true;
      }
      var newList := currentList;
      var movedItem := newList[from];
      newList := RemoveAt(newList, from);
      newList := InsertAt(newList, toIndex, movedItem);
      currentList := newList;
      log := log + [PositionPersisted(activeListId, toIndex, [movedItem.id])];
    }

    /** `onPanResponderRelease`: while dragging, a pointer over another row
        of the list commits a move of the dragged index to it; the drag then
        ends and the hover is cleared. When the move fails (the source throws
        on `movedItem.id`), the rest of the handler does not run: the drag
        item, drag index and hover keep their values. */
    method DragRelease(moveX: nat, moveY: nat, activeListId: string) returns (committed: bool, failed: bool)
      requires Valid()
      modifies this`currentList, this`log, this`dragItem, this`dragIndex, this`hoveredIndex
      ensures Valid()
      ensures var target := PointerIndex(moveX, moveY, itemHeight, rowNum);
        committed <==> isDragMode && old(dragItem).Some? && target < |old(currentList)| && target != old(dragIndex)
      ensures !(isDragMode && old(dragItem).Some?) ==>
        dragItem == old(dragItem) && dragIndex == old(dragIndex) && hoveredIndex == old(hoveredIndex)
      ensures isDragMode && old(dragItem).Some? && !failed ==>
        hoveredIndex == -1 && dragIndex == -1 &&
        (old(dragIndex) != -1 ==> dragItem == None) &&
        (old(dragIndex) == -1 ==> dragItem == old(dragItem))
      ensures failed ==>
        dragItem == old(dragItem) && dragIndex == old(dragIndex) && hoveredIndex == old(hoveredIndex)
      ensures !committed || failed ==> currentList == old(currentList) && log == old(log)
      ensures failed ==> committed && old(dragIndex) >= |old(currentList)|
      ensures committed && !failed ==>
        var target := PointerIndex(moveX, moveY, itemHeight, rowNum);
        var from := RelativeIndex(old(dragIndex), |old(currentList)|);
        && from < |old(currentList)|
        && currentList == MoveItem(old(currentList), from, target)
        && log == old(log) + [PositionPersisted(activeListId, target, [old(currentList)[from].id])]
    {
      committed, failed := false, false;
      if !isDragMode || dragItem.None? {
        return;
      }
      var target := PointerIndex(moveX, moveY, itemHeight, rowNum);
      if target < |currentList| && target != dragIndex {
        failed := HandleMoveToPosition(dragIndex, target, activeListId);
        committed := true;
        if failed {
          return;
        }
      }
      HandleDragEnd();
      hoveredIndex := -1;
    }
  }

  /** Two switches whose loads complete in the opposite order: the list
      requested last is displayed, whatever order the completions come in. */
  method LastRequestWins(a: string, b: string, tracksA: seq<MusicInfo>, tracksB: seq<MusicInfo>, bFirst: bool)
    returns (shown: seq<MusicInfo>)
    requires a != b
    ensures shown == tracksB
  {
    var session := new ListSession(1, None);
    session.UpdateList(a);
    session.UpdateList(b);
    var installed;
    if bFirst {
      installed := session.LoadArrived(b, tracksB);
      installed := session.LoadArrived(a, tracksA);
    } else {
      installed := session.LoadArrived(a, tracksA);
      installed := session.LoadArrived(b, tracksB);
    }
    shown := session.currentList;
  }

  /** After a load settles, exactly one scroll event goes unsaved. */
  method FirstScrollSkippedOnce(id: string, tracks: seq<MusicInfo>, position: int, first: int, second: int)
    returns (savedFirst: bool, savedSecond: bool)
    ensures !savedFirst && savedSecond
  {
    var session := new ListSession(1, None);
    session.UpdateList(id);
    var installed := session.LoadArrived(id, tracks);
    session.LoadSettled(id, position, "", -1);
    savedFirst := session.HandleScroll(first, id);
    savedSecond := session.HandleScroll(second, id);
  }

  /** Selecting everything and then receiving changed contents for the same
      list leaves nothing selected. */
  method ChangeClearsSelection(id: string, tracks: seq<MusicInfo>, changed: seq<MusicInfo>)
    returns (selected: seq<MusicInfo>, shown: seq<MusicInfo>)
    ensures selected == [] && shown == changed
  {
    var session := new ListSession(1, None);
    session.UpdateList(id);
    var installed := session.LoadArrived(id, tracks);
    session.SelectAll(true);
    var fetching := session.ChangeRequested([id], id);
    installed := session.ChangeLoaded(id, changed);
    selected := session.GetSelectedList();
    shown := session.currentList;
  }
}
