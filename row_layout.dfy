/** Grid geometry of the list: `rowNum` items per visual row, every row
    `itemHeight` pixels tall. Pointer coordinates are whole, non-negative
    pixels. */
module RowLayout {
  import opened Music
  import opened Arith

  type Pos = n: int | n > 0 witness 1

  /** `rowInfo.current.rowNum ?? 1`: the configured number of items per row,
      one when none is configured. */
  function ItemsPerRow(configured: Option<Pos>): (r: Pos)
    ensures configured.None? ==> r == 1
    ensures configured.Some? ==> r == configured.value
  {
    if configured.Some? then configured.value else 1
  }

  /** The flat index under a pointer: `row * rowNum + col`, where the row is
      `floor(moveY / itemHeight)` and the column is
      `floor(moveX / (itemHeight / rowNum))`, written as
      `(moveX * rowNum) / itemHeight` so that it stays in integers. The
      column width is derived from the row height, not from the width of an
      item; `PointerColumnInRow` says what that means. */
  function PointerIndex(moveX: nat, moveY: nat, itemHeight: Pos, rowNum: Pos): (r: nat)
    ensures moveX < itemHeight ==> RowOf(r, rowNum) == moveY / itemHeight
  {
    var row, col := moveY / itemHeight, (moveX * rowNum) / itemHeight;
    ColumnBelowRowNum(moveX, itemHeight, rowNum);
    RowOfCell(row, col, rowNum);
    row * rowNum + col
  }

  /** Helper: a pointer less than one row height from the left edge has a
      column below `rowNum`. */
  lemma ColumnBelowRowNum(moveX: nat, itemHeight: Pos, rowNum: Pos)
    ensures moveX < itemHeight ==> (moveX * rowNum) / itemHeight < rowNum
  {
    if moveX < itemHeight {
      MulLeft(moveX + 1, itemHeight, rowNum);
      DivBelow(moveX * rowNum, itemHeight, rowNum);
    }
  }

  /** Helper: index `row * rowNum + col` lies in row `row` when `col < rowNum`. */
  lemma RowOfCell(row: nat, col: nat, rowNum: Pos)
    ensures col < rowNum ==> RowOf(row * rowNum + col, rowNum) == row
  {
    if col < rowNum {
      RowOfUnique(row * rowNum + col, rowNum, row);
    }
  }

  /** A pointer inside the pixel band of row `row` and of column `col` names
      flat index `row * rowNum + col`. */
  lemma PointerInCell(moveX: nat, moveY: nat, itemHeight: Pos, rowNum: Pos, row: nat, col: nat)
    requires row * itemHeight <= moveY < row * itemHeight + itemHeight
    requires col * itemHeight <= moveX * rowNum < col * itemHeight + itemHeight
    ensures PointerIndex(moveX, moveY, itemHeight, rowNum) == row * rowNum + col
  {
    DivBetween(moveY, itemHeight, row);
    DivBetween(moveX * rowNum, itemHeight, col);
  }

  /** Every item is reached: a pointer over the cell of flat index `k`
      (row `k / rowNum`, column `k % rowNum`) yields `k`. */
  lemma PointerOverItem(moveX: nat, moveY: nat, itemHeight: Pos, rowNum: Pos, k: nat)
    requires (k / rowNum) * itemHeight <= moveY < (k / rowNum) * itemHeight + itemHeight
    requires (k % rowNum) * itemHeight <= moveX * rowNum < (k % rowNum) * itemHeight + itemHeight
    ensures PointerIndex(moveX, moveY, itemHeight, rowNum) == k
  {
    PointerInCell(moveX, moveY, itemHeight, rowNum, k / rowNum, k % rowNum);
  }

  /** The column part stays inside the pointer's own row exactly when the
      pointer is less than one row height from the left edge; further right,
      the index runs on into the following rows. */
  lemma PointerColumnInRow(moveX: nat, moveY: nat, itemHeight: Pos, rowNum: Pos)
    ensures (moveX * rowNum) / itemHeight < rowNum <==> moveX < itemHeight
    ensures moveX < itemHeight ==>
      PointerIndex(moveX, moveY, itemHeight, rowNum) / rowNum == moveY / itemHeight
  {
    DivBelow(moveX * rowNum, itemHeight, rowNum);
    assert rowNum * itemHeight == itemHeight * rowNum;
    if moveX < itemHeight {
      MulLeft(moveX + 1, itemHeight, rowNum);
    } else {
      MulLeft(itemHeight, moveX, rowNum);
    }
    if moveX < itemHeight {
      var row, col := moveY / itemHeight, (moveX * rowNum) / itemHeight;
      DivBetween(row * rowNum + col, rowNum, row);
    }
  }

  /** `Math.floor(index / rowNum)`: the visual row holding flat index `index`. */
  function RowOf(index: nat, rowNum: Pos): (r: nat)
    ensures r * rowNum <= index < r * rowNum + rowNum
  {
    index / rowNum
  }

  /** `RowOf` is the only row that holds `index`. */
  lemma RowOfUnique(index: nat, rowNum: Pos, row: nat)
    requires row * rowNum <= index < row * rowNum + rowNum
    ensures RowOf(index, rowNum) == row
  {
    DivBetween(index, rowNum, row);
  }

  /** What `getItemLayout` reports for an entry. */
  datatype Layout = Layout(length: nat, offset: nat, index: nat)

  /** `getItemLayout(data, index)`: every entry is `itemHeight` tall and
      begins where the entry before it ends, so its offset divided by the
      height gives the index back. */
  function ItemLayout(itemHeight: Pos, index: nat): (r: Layout)
    ensures r.index == index && r.length == itemHeight
    ensures r.offset / itemHeight == index
  {
    assert index * itemHeight == itemHeight * index;
    DivBetween(itemHeight * index, itemHeight, index);
    Layout(itemHeight, itemHeight * index, index)
  }

  /** The entries are stacked from offset 0 without gaps or overlaps. */
  lemma LayoutStacked(itemHeight: Pos, index: nat)
    ensures index == 0 ==> ItemLayout(itemHeight, index).offset == 0
    ensures index > 0 ==>
      ItemLayout(itemHeight, index).offset == ItemLayout(itemHeight, index - 1).offset + itemHeight
  {
  }

  /** The layout and the pointer math agree: the row a pointer at `moveY`
      falls in is the entry whose reported extent holds `moveY`. */
  lemma LayoutHoldsPointerRow(itemHeight: Pos, moveY: nat)
    ensures ItemLayout(itemHeight, moveY / itemHeight).offset <= moveY
    ensures moveY < ItemLayout(itemHeight, moveY / itemHeight).offset + itemHeight
  {
    var q := moveY / itemHeight;
    assert moveY == q * itemHeight + moveY % itemHeight;
    assert ItemLayout(itemHeight, q).offset == q * itemHeight;
  }

  /** The hover index after a move event (`onPanResponderMove`): it takes the
      pointer's index when that index is new and lies in `[0, len)`, and
      otherwise keeps its value. */
  function HoverAfterMove(hovered: int, index: int, len: nat): (r: int)
    ensures 0 <= index < len ==> r == index
    ensures !(0 <= index < len) ==> r == hovered
    ensures -1 <= hovered < len ==> -1 <= r < len
  {
    if index != hovered && 0 <= index < len then index else hovered
  }

  /** Move events do not accumulate: a repeated event changes nothing more. */
  lemma HoverMoveIdempotent(hovered: int, index: int, len: nat)
    ensures HoverAfterMove(HoverAfterMove(hovered, index, len), index, len) == HoverAfterMove(hovered, index, len)
  {
  }
}
