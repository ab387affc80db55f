/**
 * Board.php: the 6 x 7 board as an object whose two-dimensional array of slots
 * is updated in place. Slot (r, c) of the game, 1-based, is slots[r - 1, c - 1].
 */
module BoardModel {

  import opened BoardSpec

  /** Outcome of setMovementOnBoard: the coordinates written, or ColumnFullException. */
  datatype Placement = Placed(row: int, column: int) | ColumnFull

  class Board {

    const slots: array2<Cell>

    /** The object invariant: the array is 6 x 7 and its discs obey gravity. */
    ghost predicate Valid()
      reads this, slots
    {
      slots.Length0 == Rows && slots.Length1 == Columns && Gravity(Slots())
    }

    /** Board::getSlots: the contents of the board as a value (PHP arrays are copied on return). */
    function Slots(): (g: Grid)
      reads this, slots
      requires slots.Length0 == Rows && slots.Length1 == Columns
      ensures WellFormed(g)
      ensures forall i, j :: 0 <= i < Rows && 0 <= j < Columns ==> g[i][j] == slots[i, j]
      ensures forall r, c :: InBounds(r, c) ==> At(g, r, c) == slots[r - 1, c - 1]
    {
      RowsBelow(slots.Length0)
    }

    /** Rows 0 .. n - 1 of the array, each as a sequence of its 7 slots. */
    function RowsBelow(n: int): (rs: seq<seq<Cell>>)
      reads this, slots
      requires slots.Length1 == Columns && 0 <= n <= slots.Length0
      ensures |rs| == n
      ensures forall i :: 0 <= i < n ==> |rs[i]| == Columns
      ensures forall i, j :: 0 <= i < n && 0 <= j < Columns ==> rs[i][j] == slots[i, j]
      decreases n
    {
      if n == 0 then [] else RowsBelow(n - 1) + [RowPrefix(n - 1, slots.Length1)]
    }

    /** Slots 0 .. n - 1 of row i of the array. */
    function RowPrefix(i: int, n: int): (row: seq<Cell>)
      reads this, slots
      requires 0 <= i < slots.Length0 && 0 <= n <= slots.Length1
      ensures |row| == n
      ensures forall j :: 0 <= j < n ==> row[j] == slots[i, j]
      decreases n
    {
      if n == 0 then [] else RowPrefix(i, n - 1) + [slots[i, n - 1]]
    }

    /** Board::initializeBoard: a fresh 6 x 7 table of empty slots, filled row by row. */
    static method InitializeBoard() returns (table: array2<Cell>)
      ensures fresh(table) && table.Length0 == Rows && table.Length1 == Columns
      ensures forall i, j :: 0 <= i < Rows && 0 <= j < Columns ==> table[i, j] == Empty
    {
      table := new Cell[Rows, Columns];
      for i := 0 to Rows
        invariant forall i', j :: 0 <= i' < i && 0 <= j < Columns ==> table[i', j] == Empty
      {
        for j := 0 to Columns
          invariant forall i', j' :: 0 <= i' < i && 0 <= j' < Columns ==> table[i', j'] == Empty
          invariant forall j' :: 0 <= j' < j ==> table[i, j'] == Empty
        {
          table[i, j] := Empty;
        }
      }
    }

    /** Board::__construct: an empty board. */
    constructor ()
      ensures Valid() && fresh(slots)
      ensures Slots() == EmptyGrid()
    {
      var table := InitializeBoard();
      slots := table;
      new;
      SameGrid(Slots(), EmptyGrid());
    }

    /** PHP `clone $board`: a new board whose slots are a copy of the other's. */
    constructor CloneOf(other: Board)
      requires other.Valid()
      ensures Valid() && fresh(slots)
      ensures Slots() == other.Slots()
    {
      var table := new Cell[Rows, Columns];
      for i := 0 to Rows
        invariant forall i', j :: 0 <= i' < i && 0 <= j < Columns ==> table[i', j] == other.slots[i', j]
      {
        for j := 0 to Columns
          invariant forall i', j' :: 0 <= i' < i && 0 <= j' < Columns ==> table[i', j'] == other.slots[i', j']
          invariant forall j' :: 0 <= j' < j ==> table[i, j'] == other.slots[i, j']
        {
          table[i, j] := other.slots[i, j];
        }
      }
      slots := table;
      new;
      SameGrid(Slots(), other.Slots());
    }

    /**
     * Board::setMovementOnBoard: scans column `column` from row 6 up to row 1 and
     * writes `player` into the first empty slot, which is returned; ColumnFull when
     * the column has no empty slot.
     */
    method SetMovementOnBoard(column: int, player: int) returns (res: Placement)
      requires Valid() && 1 <= column <= Columns
      modifies slots
      ensures Valid()
      ensures res.Placed? <==> HasRoom(old(Slots()), column)
      ensures res.Placed? ==>
                res.column == column && InBounds(res.row, column) &&
                res.row == LowestEmptyRow(old(Slots()), column) &&
                At(old(Slots()), res.row, column) == Empty &&
                (forall k :: res.row < k <= Rows ==> At(old(Slots()), k, column) != Empty) &&
                Slots() == Place(old(Slots()), res.row, column, player)
      ensures res.ColumnFull? ==> Slots() == old(Slots())
    {
      ghost var g := Slots();
      var i := Rows;
      while i >= 1
        invariant 0 <= i <= Rows
        invariant unchanged(slots)
        invariant LowestEmptyFrom(g, column, i) == LowestEmptyRow(g, column)
      {
        if slots[i - 1, column - 1] == Empty {
          slots[i - 1, column - 1] := Disc(player);
          SameGrid(Slots(), Place(g, i, column, player));
          DropKeepsGravity(g, column, player);
          return Placed(i, column);
        }
        i := i - 1;
      }
      return ColumnFull;
    }

    /** Board::countInDirection: the length of the run of `player` slots starting one step from (row, col). */
    method CountInDirection(row: int, col: int, dRow: int, dCol: int, player: int) returns (count: nat)
      requires slots.Length0 == Rows && slots.Length1 == Columns && IsDirection(dRow, dCol)
      ensures count == RunLength(Slots(), row + dRow, col + dCol, dRow, dCol, player)
    {
      ghost var g := Slots();
      count := 0;
      var i, j := row + dRow, col + dCol;
      while 1 <= i <= Rows && 1 <= j <= Columns && slots[i - 1, j - 1] == Disc(player)
        invariant count + RunLength(g, i, j, dRow, dCol, player) == RunLength(g, row + dRow, col + dCol, dRow, dCol, player)
        decreases RunLength(g, i, j, dRow, dCol, player)
      {
        assert Owns(g, i, j, player);
        count := count + 1;
        i := i + dRow;
        j := j + dCol;
      }
    }

    /**
     * Board::checkWin: for each direction of Directions, the seed plus the runs of its
     * owner forward and backward; a win as soon as one reaches 4.
     */
    method CheckWin(row: int, col: int) returns (won: bool)
      requires Valid() && InBounds(row, col) && At(Slots(), row, col).Disc?
      ensures won <==> Wins(Slots(), row, col)
      ensures won <==> FourInLine(Slots(), row, col, At(Slots(), row, col).player)
    {
      ghost var g := Slots();
      var player := slots[row - 1, col - 1].player;
      for k := 0 to |Directions|
        invariant forall k' :: 0 <= k' < k ==> DirectionCount(g, row, col, k', player) < 4
      {
        DirectionsAreSteps(k);
        var direction := Directions[k];
        var count := CountLine(row, col, direction, player);
        if count >= 4 {
          assert DirectionCount(g, row, col, k, player) >= 4;
          WinsIffFourInLine(g, row, col);
          return true;
        }
      }
      WinsIffFourInLine(g, row, col);
      return false;
    }

    /** The body of checkWin's loop: 1 for the seed, plus the runs forward and backward along d. */
    method CountLine(row: int, col: int, d: (int, int), player: int) returns (count: nat)
      requires Valid() && IsDirection(d.0, d.1)
      ensures count == LineCount(Slots(), row, col, d, player)
    {
      var (dr, dc) := d;
      var forward := CountInDirection(row, col, dr, dc, player);
      var backward := CountInDirection(row, col, -dr, -dc, player);
      assert row + -dr == row - dr && col + -dc == col - dc;
      count := 1 + forward + backward;
    }

    /** Board::isFull: scans row 1; with gravity this says that all 42 slots are taken. */
    method IsFull() returns (full: bool)
      requires Valid()
      ensures full <==> TopRowFull(Slots())
      ensures full <==> AllFull(Slots())
    {
      FullIffTopRowFull(Slots());
      for j := 1 to Columns + 1
        invariant forall c :: 1 <= c < j ==> At(Slots(), 1, c) != Empty
      {
        if slots[0, j - 1] == Empty {
          assert At(Slots(), 1, j) == Empty;
          return false;
        }
      }
      return true;
    }

    /** Board::isValidMove: scans column `column` from row 6 up for an empty slot. */
    method IsValidMove(column: int) returns (valid: bool)
      requires Valid() && 1 <= column <= Columns
      ensures valid <==> HasRoom(Slots(), column)
      ensures valid <==> At(Slots(), 1, column) == Empty
    {
      RoomIffTopEmpty(Slots(), column);
      var i := Rows;
      while i >= 1
        invariant 0 <= i <= Rows
        invariant forall k :: i < k <= Rows ==> At(Slots(), k, column) != Empty
      {
        if slots[i - 1, column - 1] == Empty {
          assert At(Slots(), i, column) == Empty;
          return true;
        }
        i := i - 1;
      }
      return false;
    }
  }
}
