# List session model of the "my list" track list

This project models the logic under the track list of the "my list" screen
(`src/screens/Home/Views/Mylist/MusicList/List.tsx`). The component shows one
playlist at a time in a grid of `rowNum` items per row. Besides rendering, it
holds a small controller:

- it switches between playlists and reloads them, and a late load of a list
  that is no longer wanted is discarded;
- it runs a selection state machine with single toggling, range selection
  from an anchor, and a "select all" notification;
- it turns drag gestures into a hover index and, on release, a reorder that
  is persisted through the playlist store;
- it decides where to scroll after a load, latches a "jump to the playing
  track" request that arrives while a load is in flight, and skips saving the
  first scroll event after a programmatic positioning.

The pure parts are functions with lemmas: `ArrayOps` (the JavaScript array
built-ins used: `slice`, `splice`, `indexOf`, `findIndex`, `reverse`),
`RowLayout` (pointer to flat index, row of an index, item layout, hover rule),
`Selection`, `Reorder` and `ScrollIntent`. The stateful part is the class
`MusicListSession.ListSession`. Its fields are the component's refs and state
cells. Each handler is a method whose `modifies` clause names exactly the
fields it may change and whose `ensures` gives the new value of each of
them, in terms of the pure functions. Asynchronous work is split in two steps:

- a request method records the outgoing call in the ghost `log`;
- a completion method is invoked later by the environment with the fetched
  data: `LoadArrived` and `LoadSettled` for the two animation frames of
  `updateList`, `ChangeLoaded` for `handleChange`, and `ScrollToInfoLoaded`.

`Valid()` is preserved by every method. It says that the displayed tracks
always belong to the list that was requested last. Three client methods
(`LastRequestWins`, `FirstScrollSkippedOnce`, `ChangeClearsSelection`) derive
end-to-end behaviour from the method contracts alone.

External state is passed in as parameters: the store's active list id, the
player's list id and play index, the configured `rowNum` and `ITEM_HEIGHT`.

Some behaviours of the component that a reader might not expect, modelled as the code has them:

- the selection is emptied when a load completes, not when the switch starts;
- `selectAll` sends no notification;
- `onSelectAll(true)` fires when the old selection was non-empty and the new
  one is full, even if the old one was already full. It never fires when the
  old selection was empty, so selecting the only item of a one-item list
  does not report "select all";
- a jump request for a played list other than the active one makes that list
  active and latches the jump whenever it is not the current list;
- the second animation frame of `updateList` does not check the list id
  again. A stale frame therefore still clears the in-flight flag, consumes
  the latch and positions the view;
- the column of a pointer comes from the row height, so a pointer one row
  height or more from the left edge lands in a later row. This is stated by
  `RowLayout.PointerColumnInRow` and kept as written.

## Model

| member | source | states |
|---|---|---|
| RowLayout.ItemsPerRow | src/screens/Home/Views/Mylist/MusicList/List.tsx:81 | the number of items per row is the configured one, or 1 when none is configured |
| RowLayout.PointerIndex | src/screens/Home/Views/Mylist/MusicList/List.tsx:81-85 | row*rowNum + col for the pointer, lying in the pointer's own row whenever moveX < ITEM_HEIGHT; what it yields for each cell is stated by PointerInCell, PointerOverItem and PointerColumnInRow |
| RowLayout.PointerInCell | src/screens/Home/Views/Mylist/MusicList/List.tsx:81-85 | a pointer inside the pixel band of row r and column c yields flat index r*rowNum + c |
| RowLayout.PointerOverItem | src/screens/Home/Views/Mylist/MusicList/List.tsx:94-98 | a pointer over the cell of any index k (row k/rowNum, column k%rowNum) yields exactly k |
| RowLayout.PointerColumnInRow | src/screens/Home/Views/Mylist/MusicList/List.tsx:84 | the column stays below rowNum iff moveX < ITEM_HEIGHT, and then the index lies in the pointer's own row |
| RowLayout.RowOf | src/screens/Home/Views/Mylist/MusicList/List.tsx:190 | floor(index/rowNum) is a row r with r*rowNum <= index < (r+1)*rowNum |
| RowLayout.RowOfUnique | src/screens/Home/Views/Mylist/MusicList/List.tsx:149 | that row is the only one holding the index |
| RowLayout.ItemLayout | src/screens/Home/Views/Mylist/MusicList/List.tsx:422-424 | each entry has length ITEM_HEIGHT and an offset that divides back to its own index |
| RowLayout.LayoutStacked | src/screens/Home/Views/Mylist/MusicList/List.tsx:423 | entries start at offset 0 and each begins where the previous one ends |
| RowLayout.LayoutHoldsPointerRow | src/screens/Home/Views/Mylist/MusicList/List.tsx:83 | the row a pointer falls in is the entry whose reported extent contains the pointer |
| RowLayout.HoverAfterMove | src/screens/Home/Views/Mylist/MusicList/List.tsx:87-89 | an in-range index becomes the hover index, an out-of-range one leaves it unchanged, and a hover in [-1, len) stays in [-1, len) |
| RowLayout.HoverMoveIdempotent | src/screens/Home/Views/Mylist/MusicList/List.tsx:75-89 | repeating a move event changes nothing further |
| ArrayOps.RelativeIndex | src/screens/Home/Views/Mylist/MusicList/List.tsx:353 | a slice/splice argument denotes a position in [0, len], equal to the argument when that is in [0, len], len for anything larger, and below len for a negative one (unless len is 0) |
| ArrayOps.Slice | src/screens/Home/Views/Mylist/MusicList/List.tsx:276-278 | an in-range slice is the subsequence start..end, and no slice holds anything not in the array |
| ArrayOps.RemoveAt | src/screens/Home/Views/Mylist/MusicList/List.tsx:267 | splice(i, 1) shifts the later elements down by one and removes exactly one occurrence of s[i] |
| ArrayOps.InsertAt | src/screens/Home/Views/Mylist/MusicList/List.tsx:354 | splice(i, 0, x) puts x at i, shifts the later elements up, and adds exactly one occurrence of x |
| ArrayOps.FindIndex | src/screens/Home/Views/Mylist/MusicList/List.tsx:147 | the result is -1 iff no element matches; otherwise it is the first match |
| ArrayOps.IndexOf | src/screens/Home/Views/Mylist/MusicList/List.tsx:262 | the result is -1 iff the item is absent; otherwise it is its first occurrence |
| ArrayOps.Reverse | src/screens/Home/Views/Mylist/MusicList/List.tsx:279 | reversal keeps the length |
| ArrayOps.ReverseAt | src/screens/Home/Views/Mylist/MusicList/List.tsx:279 | element k of the reversal is element len-1-k of the original |
| ArrayOps.ReverseMultiset | src/screens/Home/Views/Mylist/MusicList/List.tsx:279 | reversal is a permutation |
| Selection.ToggleSingle | src/screens/Home/Views/Mylist/MusicList/List.tsx:260-268 | an unselected item is appended; a selected one loses exactly its first occurrence |
| Selection.ToggleSingleTwice | src/screens/Home/Views/Mylist/MusicList/List.tsx:262-268 | pressing an unselected item twice restores the selection exactly |
| Selection.ToggleSingleFlips | src/screens/Home/Views/Mylist/MusicList/List.tsx:262-268 | on a repeat-free selection a press flips that item's membership and no other item's |
| Selection.ToggleSingleDistinct | src/screens/Home/Views/Mylist/MusicList/List.tsx:262-268 | a press keeps a repeat-free selection repeat-free |
| Selection.RangeSelection | src/screens/Home/Views/Mylist/MusicList/List.tsx:270-280 | press==anchor gives []; press>anchor gives list[anchor..press] inclusive; press<anchor gives list[press..anchor] inclusive, reversed; only listed items are selected |
| Selection.RangeBackwards | src/screens/Home/Views/Mylist/MusicList/List.tsx:278-279 | going backwards selects anchor-press+1 items, element k being list[anchor-k] |
| Selection.RangeSymmetric | src/screens/Home/Views/Mylist/MusicList/List.tsx:275-279 | both directions between two indices select the same multiset of items |
| Selection.RangeWithoutAnchor | src/screens/Home/Views/Mylist/MusicList/List.tsx:271-276 | with anchor -1 a range press selects the last item if it is the last item, and nothing otherwise |
| Selection.Select | src/screens/Home/Views/Mylist/MusicList/List.tsx:258-285 | single mode toggles and moves the anchor to the press; other modes start at the item when nothing is selected, else apply the range rule and keep the anchor |
| Selection.RangeCollapsesOnAnchor | src/screens/Home/Views/Mylist/MusicList/List.tsx:271-274 | range extension keeps the anchor, and extending back to the anchor empties the selection |
| Selection.SelectAllSignal | src/screens/Home/Views/Mylist/MusicList/List.tsx:253-254 | true iff the old selection is non-empty and the new one is full; else false iff the old one was full |
| Selection.SelectAllSignalEdges | src/screens/Home/Views/Mylist/MusicList/List.tsx:253-254 | becoming full reports true, leaving full reports false, full-to-full repeats true, and an empty old selection never reports true |
| Reorder.MoveItem | src/screens/Home/Views/Mylist/MusicList/List.tsx:352-354 | the result is a permutation of the same length with the moved item at toIndex, and removing it leaves the others in their old order |
| Reorder.NewPosition | src/screens/Home/Views/Mylist/MusicList/List.tsx:353-354 | reference definition of where another item lands (items between the two positions shift by one towards fromIndex, the rest stay); no other item lands on toIndex, and MoveKeepsOthers ties it to MoveItem |
| Reorder.MoveKeepsOthers | src/screens/Home/Views/Mylist/MusicList/List.tsx:352-354 | every other item is found at its new position, and new positions preserve relative order |
| Reorder.MoveInPlace | src/screens/Home/Views/Mylist/MusicList/List.tsx:351 | moving an item onto its own position changes nothing |
| Reorder.MoveRoundTrip | src/screens/Home/Views/Mylist/MusicList/List.tsx:352-354 | moving back from toIndex to fromIndex restores the list |
| ScrollIntent.ActivePlayIndex | src/screens/Home/Views/Mylist/MusicList/List.tsx:40-42 | the play index when the player plays the active list, -1 otherwise |
| ScrollIntent.AfterLoad | src/screens/Home/Views/Mylist/MusicList/List.tsx:186-195 | scroll-to-index (view position 0.3, not animated, the row holding playIndex) iff a jump is latched, the played list is id and playIndex > -1; otherwise the saved offset |
| ScrollIntent.AfterLoadShowsHighlightedRow | src/screens/Home/Views/Mylist/MusicList/List.tsx:188-190 | a jump after a load lands on the row of the index the list highlights as playing |
| ScrollIntent.Jump | src/screens/Home/Views/Mylist/MusicList/List.tsx:213-225 | no played list does nothing; another played list is made active and latches when it is not the current list; the same list with a track latches while updating and scrolls (animated, row of playIndex) otherwise |
| ScrollIntent.JumpScrollsOrLatches | src/screens/Home/Views/Mylist/MusicList/List.tsx:215-225 | a jump request never both scrolls and latches, nor both scrolls and switches lists |
| ScrollIntent.InfoScroll | src/screens/Home/Views/Mylist/MusicList/List.tsx:146-150 | no scroll iff no track has the id; otherwise an animated scroll to the row of the first such track |
| MusicListSession.Notify | src/screens/Home/Views/Mylist/MusicList/List.tsx:253-254 | an onSelectAll call is made iff there is a signal, carrying its value |
| MusicListSession.ListSession.constructor | src/screens/Home/Views/Mylist/MusicList/List.tsx:51-70 | the mount state: empty list and selection, anchor -1, single mode, no list id, load flag set, no drag |
| MusicListSession.ListSession.UpdateList | src/screens/Home/Views/Mylist/MusicList/List.tsx:172-177 | the same id changes nothing; another id empties the list, sets the load flag, records the id and requests the load |
| MusicListSession.ListSession.LoadArrived | src/screens/Home/Views/Mylist/MusicList/List.tsx:178-182 | installs iff id is still the current list id; then the selection is empty and the list is the fetched one |
| MusicListSession.ListSession.LoadSettled | src/screens/Home/Views/Mylist/MusicList/List.tsx:183-196 | clears the load flag and the latch, sets the first-scroll flag and scrolls as AfterLoad says |
| MusicListSession.ListSession.ChangeRequested | src/screens/Home/Views/Mylist/MusicList/List.tsx:200-203 | refetches iff the changed ids include the active list |
| MusicListSession.ListSession.ChangeLoaded | src/screens/Home/Views/Mylist/MusicList/List.tsx:203-208 | a stale completion is discarded; otherwise the selection is empty and the list is replaced |
| MusicListSession.ListSession.Init | src/screens/Home/Views/Mylist/MusicList/List.tsx:228-234 | with a jump asked for and a played list: latch the jump and do what UpdateList does for that list (empty the display, set the load flag and request the load, unless it is already current); otherwise request the previous list id and change nothing else |
| MusicListSession.ListSession.JumpPosition | src/screens/Home/Views/Mylist/MusicList/List.tsx:211-227 | the latch and the calls made are those Jump gives |
| MusicListSession.ListSession.HandleScroll | src/screens/Home/Views/Mylist/MusicList/List.tsx:361-367 | saves iff the first-scroll flag was clear; the flag is clear afterwards |
| MusicListSession.ListSession.ScrollToInfoLoaded | src/screens/Home/Views/Mylist/MusicList/List.tsx:146-150 | scrolls as InfoScroll says |
| MusicListSession.ListSession.ScrollToTop | src/screens/Home/Views/Mylist/MusicList/List.tsx:152-157 | one animated scroll to offset 0 |
| MusicListSession.ListSession.HandleUpdateSelectedList | src/screens/Home/Views/Mylist/MusicList/List.tsx:252-257 | reports SelectAllSignal of the old and new sizes, then replaces the selection |
| MusicListSession.ListSession.HandleSelect | src/screens/Home/Views/Mylist/MusicList/List.tsx:258-288 | the selection and anchor become those of Select, with the matching report |
| MusicListSession.ListSession.HandleLongPress | src/screens/Home/Views/Mylist/MusicList/List.tsx:303-308 | outside multi-select mode: select [item], anchor at the index, report, ask for multi-select mode; otherwise nothing |
| MusicListSession.ListSession.SetIsMultiSelectMode | src/screens/Home/Views/Mylist/MusicList/List.tsx:111-117 | sets the mode; turning it off sets the anchor to -1 and empties the selection with a report |
| MusicListSession.ListSession.SetSelectMode | src/screens/Home/Views/Mylist/MusicList/List.tsx:118-131 | drag: drag on, multi-select off, anchor -1, selection emptied; other modes: drag off, no drag item, drag index -1 |
| MusicListSession.ListSession.SelectAll | src/screens/Home/Views/Mylist/MusicList/List.tsx:132-141 | the selection becomes the whole list or empty |
| MusicListSession.ListSession.GetSelectedList | src/screens/Home/Views/Mylist/MusicList/List.tsx:142-144 | returns the current selection |
| MusicListSession.ListSession.SetDragMode | src/screens/Home/Views/Mylist/MusicList/List.tsx:158-167 | the drag item and index are set only when dragging is on and both are given; otherwise cleared |
| MusicListSession.ListSession.HandleDragStart | src/screens/Home/Views/Mylist/MusicList/List.tsx:310-314 | only in drag mode: record the item and index and clear the hover |
| MusicListSession.ListSession.HandleDragEnd | src/screens/Home/Views/Mylist/MusicList/List.tsx:329-347 | with a drag item and an index other than -1, clears item, index and hover; otherwise nothing |
| MusicListSession.ListSession.DragMove | src/screens/Home/Views/Mylist/MusicList/List.tsx:75-90 | while dragging, the hover follows HoverAfterMove of the pointer index; otherwise unchanged |
| MusicListSession.ListSession.HandleMoveToPosition | src/screens/Home/Views/Mylist/MusicList/List.tsx:350-359 | equal indices change nothing; otherwise the list becomes MoveItem of it and one persistence call (active list, toIndex, [moved id]) is made; a fromIndex past the end fails with nothing changed |
| MusicListSession.ListSession.DragRelease | src/screens/Home/Views/Mylist/MusicList/List.tsx:91-106 | while dragging, commits a move iff the target is in range and differs from the drag index, then ends the drag and clears the hover; a failed move leaves the drag item, drag index and hover as they were |
| MusicListSession.LastRequestWins | src/screens/Home/Views/Mylist/MusicList/List.tsx:172-182 | after switching to a then b, the display ends with b's tracks in either completion order |
| MusicListSession.FirstScrollSkippedOnce | src/screens/Home/Views/Mylist/MusicList/List.tsx:361-367 | after a load settles, the first scroll event is not saved and the second is |
| MusicListSession.ChangeClearsSelection | src/screens/Home/Views/Mylist/MusicList/List.tsx:200-208 | select all followed by a refetch of the same list leaves nothing selected and shows the new tracks |

## Left out

- Rendering: `renderItem`, `ListItem`, the animated values (drag offset, opacity, scale), styles and the `FlatList` properties are presentation only.
- React machinery: hooks, `forwardRef` and the pan responder wiring. The pan handlers are created once and capture the first render's `isDragMode` and `dragItem`; the model runs their bodies against the current fields instead.
- `handlePress` and `handlePlay`: they depend on the pager-idle global and start playback in the player, outside this model.
- Promises and animation frames: each is an explicit completion method that the environment calls. The `scrollToInfo` fetch itself is the environment's; only its completion (`ScrollToInfoLoaded`) is modelled.
- The `try`/`catch` around `scrollToIndex`: scrolling is taken never to throw.
- The global event subscriptions and their removal at unmount, the reset of the global jump flag, and the settings values. The flag's value and the store and player values are parameters.
- The stores themselves (`getListMusics`, `getListPosition`, `getListPrevSelectId`, `updateListMusicPosition`, `saveListPosition`, `setActiveList`): calls to them are entries of the ghost `log`. Their failures are not modelled.
- Floating point: pointer coordinates and offsets are whole pixels, and `ITEM_HEIGHT` is a positive integer parameter. The column is `(moveX * rowNum) / ITEM_HEIGHT`, which equals the source's floor for non-negative values. The view position 0.3 is the real 0.3.
- Identity: tracks are compared by value (`datatype` equality) where the source compares references.
- MusicListSession.ListSession.HandleMoveToPosition: when `fromIndex` is past the end, the source inserts `undefined` into the copy and installs it before it throws on `movedItem.id`. The model leaves the list unchanged and reports `failed`; `DragRelease` then stops, as the throw stops the source's release handler.
- The state copy `selectedList` that drives re-rendering: it always equals `selectedListRef`, so the model keeps one field.
