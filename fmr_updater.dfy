/**
 * `FMRUpdater.update_sheet`: records are appended below the last used row of the "JOINT
 * DATA" worksheet, one row per record, one cell per update instruction.
 *
 * The worksheet follows openpyxl: it holds the cells created so far, `max_row` is the largest
 * row of a created cell (1 for an empty sheet), `cell(row, column, value)` creates the cell and
 * stores `value` only when it is not None, and a row or column below 1 raises ValueError.
 */
module FmrUpdater {
  import opened Wrappers
  import opened Seqs

  /** One entry of `update_instructions`: `{"column": c, "key": k}`. */
  datatype Instruction = Instruction(column: int, key: string)

  /** The cells of a worksheet: each created cell with its value (None for an empty cell). */
  type Cells<V> = map<(int, int), Option<V>>

  /** `row_data.get(key)`. */
  function Get<V>(rec: map<string, V>, key: string): Option<V>
  {
    if key in rec then Some(rec[key]) else None
  }

  /** `cell(row, column, value)` on valid coordinates: the cell exists, its value replaced unless `value` is None. */
  function SetCell<V>(cells: Cells<V>, row: int, column: int, value: Option<V>): Cells<V>
  {
    cells[(row, column) := if value.Some? then value else if (row, column) in cells then cells[(row, column)] else None]
  }

  /** Every created cell has a row and a column of at least 1. */
  predicate ValidCells<V>(cells: Cells<V>)
  {
    forall k :: k in cells ==> k.0 >= 1 && k.1 >= 1
  }

  /** `m` is openpyxl's `max_row`: the largest row of a cell, or 1 without cells. */
  predicate IsMaxRow<V>(cells: Cells<V>, m: int)
  {
    (forall k :: k in cells ==> k.0 <= m)
    && (if cells == map[] then m == 1 else exists k :: k in cells && k.0 == m)
  }

  /** `max_row` is determined by the cells. */
  lemma MaxRowUnique<V>(cells: Cells<V>, m: int, n: int)
    requires IsMaxRow(cells, m) && IsMaxRow(cells, n)
    ensures m == n
  {
    if cells != map[] {
      var a :| a in cells && a.0 == m;
      var b :| b in cells && b.0 == n;
    }
  }

  /** Moving one key from the unvisited to the visited keys keeps the two a partition. */
  lemma MoveOne<T>(rest: set<T>, seen: set<T>, k: T)
    requires k in rest && rest !! seen
    ensures (rest - {k}) + (seen + {k}) == rest + seen && (rest - {k}) !! (seen + {k})
  {
  }

  /** A worksheet: the cells it holds, changed in place by `cell`. */
  class Worksheet<V> {
    var cells: Cells<V>

    predicate Valid()
      reads this
    {
      ValidCells(cells)
    }

    constructor(cells: Cells<V>)
      requires ValidCells(cells)
      ensures this.cells == cells && Valid()
    {
      this.cells := cells;
    }

    /** `max_row`: the largest row among the created cells, 1 without cells. */
    method MaxRow() returns (m: int)
      requires Valid()
      ensures IsMaxRow(cells, m)
    {
      m := 1;
      var rest := cells.Keys;
      ghost var seen: set<(int, int)> := {};
      ghost var top: (int, int) := (1, 1);
      while rest != {}
        invariant rest + seen == cells.Keys && rest !! seen
        invariant m >= 1 && forall k :: k in seen ==> k.0 <= m
        invariant m == 1 || (top in seen && top.0 == m)
        decreases |rest|
      {
        var k :| k in rest;
        if k.0 > m {
          m := k.0;
          top := k;
        }
        MoveOne(rest, seen, k);
        rest := rest - {k};
        seen := seen + {k};
      }
      if cells != map[] && m == 1 {
        var k :| k in cells;
        assert k.0 == 1;
      }
    }

    /** `cell(row=row, column=column, value=value)`; raises when a coordinate is below 1. */
    method Cell(row: int, column: int, value: Option<V>) returns (raised: bool)
      requires Valid()
      modifies this
      ensures Valid()
      ensures raised <==> row < 1 || column < 1
      ensures cells == if raised then old(cells) else SetCell(old(cells), row, column, value)
    {
      if row < 1 || column < 1 {
        return true;
      }
      raised := false;
      cells := SetCell(cells, row, column, value);
    }
  }

  /** What the writing loops leave: the cells, and whether `cell` raised on the way. */
  datatype Applied<V> = Applied(cells: Cells<V>, raised: bool)

  /** The inner loop: one record's instructions, in order, stopping at the first bad column. */
  function ApplyRow<V>(cells: Cells<V>, row: int, rec: map<string, V>, ins: seq<Instruction>): Applied<V>
  {
    if ins == [] then Applied(cells, false)
    else
      var a := ApplyRow(cells, row, rec, ins[..|ins| - 1]);
      var i := ins[|ins| - 1];
      if a.raised then a
      else if row < 1 || i.column < 1 then Applied(a.cells, true)
      else Applied(SetCell(a.cells, row, i.column, Get(rec, i.key)), false)
  }

  /** The outer loop: record `n` goes to row `start + n`, stopping once `cell` raised. */
  function ApplyRecords<V>(cells: Cells<V>, start: int, recs: seq<map<string, V>>, ins: seq<Instruction>): Applied<V>
  {
    if recs == [] then Applied(cells, false)
    else
      var a := ApplyRecords(cells, start, recs[..|recs| - 1], ins);
      if a.raised then a else ApplyRow(a.cells, start + |recs| - 1, recs[|recs| - 1], ins)
  }

  /** Once `cell` raised, the rest of a record's instructions are not run. */
  lemma {:induction false} RowRaisedStays<V>(cells: Cells<V>, row: int, rec: map<string, V>, ins: seq<Instruction>, k: nat)
    requires k <= |ins| && ApplyRow(cells, row, rec, ins[..k]).raised
    ensures ApplyRow(cells, row, rec, ins) == ApplyRow(cells, row, rec, ins[..k])
    decreases |ins|
  {
    if k < |ins| {
      var init := ins[..|ins| - 1];
      assert init[..k] == ins[..k];
      RowRaisedStays(cells, row, rec, init, k);
    } else {
      assert ins[..k] == ins;
    }
  }

  /** Once `cell` raised, no further record is written. */
  lemma {:induction false} RecordsRaisedStay<V>(cells: Cells<V>, start: int, recs: seq<map<string, V>>, ins: seq<Instruction>, n: nat)
    requires n <= |recs| && ApplyRecords(cells, start, recs[..n], ins).raised
    ensures ApplyRecords(cells, start, recs, ins) == ApplyRecords(cells, start, recs[..n], ins)
    decreases |recs|
  {
    if n < |recs| {
      var init := recs[..|recs| - 1];
      assert init[..n] == recs[..n];
      RecordsRaisedStay(cells, start, init, ins, n);
    } else {
      assert recs[..n] == recs;
    }
  }

  /** An instruction names a column below 1. */
  predicate BadColumn(ins: seq<Instruction>)
  {
    exists i :: 0 <= i < |ins| && ins[i].column < 1
  }

  /** Some instruction writes column `c`. */
  predicate Writes(ins: seq<Instruction>, c: int)
  {
    exists i :: 0 <= i < |ins| && ins[i].column == c
  }

  /** What the instructions leave in column `c` of a record's row: the last value that was not None. */
  function Written<V>(rec: map<string, V>, ins: seq<Instruction>, c: int): Option<V>
  {
    if ins == [] then None
    else if ins[|ins| - 1].column == c && Get(rec, ins[|ins| - 1].key).Some? then Get(rec, ins[|ins| - 1].key)
    else Written(rec, ins[..|ins| - 1], c)
  }

  /**
   * On a duplicate column the later instruction wins: the last instruction for column `c`
   * decides when its key is in the record.
   */
  lemma {:induction false} LastInstructionWins<V>(rec: map<string, V>, ins: seq<Instruction>, j: nat, c: int)
    requires j < |ins| && ins[j].column == c && ins[j].key in rec
    requires forall i :: j < i < |ins| ==> ins[i].column != c
    ensures Written(rec, ins, c) == Some(rec[ins[j].key])
  {
    if j < |ins| - 1 {
      var init := ins[..|ins| - 1];
      assert forall i :: j < i < |init| ==> init[i] == ins[i];
      LastInstructionWins(rec, init, j, c);
    }
  }

  /** A later instruction whose key is missing writes None, which openpyxl does not store. */
  lemma MissingKeyKeepsEarlier(v: int)
    ensures Written(map["a" := v], [Instruction(1, "a"), Instruction(1, "b")], 1) == Some(v)
  {
    var ins := [Instruction(1, "a"), Instruction(1, "b")];
    assert ins[..1] == [Instruction(1, "a")];
    assert ins[..1][..0] == [];
  }

  /** The cell of column `c` after writing a record into its row. */
  function AfterRow<V>(cells: Cells<V>, rec: map<string, V>, ins: seq<Instruction>, row: int, c: int): Option<V>
  {
    match Written(rec, ins, c)
    case Some(v) => Some(v)
    case None => if (row, c) in cells then cells[(row, c)] else None
  }

  /**
   * One record's row: `cell` raises exactly when a column is below 1; otherwise the cells of
   * the instructed columns hold `AfterRow` and every other cell is as before.
   */
  lemma {:induction false} ApplyRowFacts<V>(cells: Cells<V>, row: int, rec: map<string, V>, ins: seq<Instruction>, r: int, c: int)
    requires row >= 1
    ensures ApplyRow(cells, row, rec, ins).raised <==> BadColumn(ins)
    ensures !BadColumn(ins) ==>
      var after := ApplyRow(cells, row, rec, ins).cells;
      ((r, c) in after <==> (r, c) in cells || (r == row && Writes(ins, c)))
      && (r == row && Writes(ins, c) ==> after[(r, c)] == AfterRow(cells, rec, ins, row, c))
      && (!(r == row && Writes(ins, c)) && (r, c) in cells ==> after[(r, c)] == cells[(r, c)])
  {
    if ins != [] {
      var init := ins[..|ins| - 1];
      var i := ins[|ins| - 1];
      ApplyRowFacts(cells, row, rec, init, r, c);
      assert forall j :: 0 <= j < |init| ==> init[j] == ins[j];
      assert BadColumn(ins) <==> BadColumn(init) || i.column < 1;
      assert Writes(ins, c) <==> Writes(init, c) || i.column == c;
      WrittenWrites(rec, init, c);
    }
  }

  /** Only an instructed column is ever written. */
  lemma {:induction false} WrittenWrites<V>(rec: map<string, V>, ins: seq<Instruction>, c: int)
    ensures Written(rec, ins, c).Some? ==> Writes(ins, c)
  {
    if ins != [] {
      var init := ins[..|ins| - 1];
      WrittenWrites(rec, init, c);
      if Written(rec, init, c).Some? && Written(rec, ins, c) == Written(rec, init, c) {
        var j :| 0 <= j < |init| && init[j].column == c;
        assert ins[j].column == c;
      }
    }
  }

  /** Empty `combined_data` leaves the sheet unchanged. */
  lemma NoRecords<V>(cells: Cells<V>, start: int, ins: seq<Instruction>)
    ensures ApplyRecords(cells, start, [], ins) == Applied(cells, false)
  {
  }

  /** A position written by the outer loop: a record's row and an instructed column. */
  predicate InBlock(start: int, n: int, ins: seq<Instruction>, r: int, c: int)
  {
    start <= r < start + n && Writes(ins, c)
  }

  /**
   * All records: with every column at least 1 nothing raises; record `n` lands in row
   * `start + n` with `AfterRow` in each instructed column, and every cell outside those rows
   * and columns is as before. Raising happens exactly when there is a record and a bad column.
   */
  lemma {:induction false} ApplyRecordsFacts<V>(cells: Cells<V>, start: int, recs: seq<map<string, V>>, ins: seq<Instruction>, r: int, c: int)
    requires start >= 1
    ensures ApplyRecords(cells, start, recs, ins).raised <==> recs != [] && BadColumn(ins)
    ensures !BadColumn(ins) ==>
      var after := ApplyRecords(cells, start, recs, ins).cells;
      ((r, c) in after <==> (r, c) in cells || InBlock(start, |recs|, ins, r, c))
      && (InBlock(start, |recs|, ins, r, c) ==> after[(r, c)] == AfterRow(cells, recs[r - start], ins, r, c))
      && (!InBlock(start, |recs|, ins, r, c) && (r, c) in cells ==> after[(r, c)] == cells[(r, c)])
  {
    if recs != [] {
      var n := |recs| - 1;
      var init := recs[..n];
      ApplyRecordsFacts(cells, start, init, ins, r, c);
      var a := ApplyRecords(cells, start, init, ins);
      ApplyRowFacts(a.cells, start + n, recs[n], ins, r, c);
      if !BadColumn(ins) && start <= r < start + n && Writes(ins, c) {
        assert init[r - start] == recs[r - start];
      }
    }
  }

  /**
   * Below the last used row there is nothing, so the cell of record `n` in an instructed column
   * is exactly what the instructions wrote: the last value that was not None, or an empty cell.
   */
  lemma FreshRows<V>(cells: Cells<V>, start: int, recs: seq<map<string, V>>, ins: seq<Instruction>, n: nat, c: int)
    requires IsMaxRow(cells, start - 1) && ValidCells(cells) && !BadColumn(ins)
    requires n < |recs| && Writes(ins, c)
    ensures (start + n, c) in ApplyRecords(cells, start, recs, ins).cells
      && ApplyRecords(cells, start, recs, ins).cells[(start + n, c)] == Written(recs[n], ins, c)
  {
    assert (start + n, c) !in cells;
    ApplyRecordsFacts(cells, start, recs, ins, start + n, c);
  }

  /** `FMRUpdater` once its workbook is loaded: the "JOINT DATA" sheet it writes to. */
  class FMRUpdater<V> {
    var sheet: Worksheet<V>

    constructor(sheet: Worksheet<V>)
      ensures this.sheet == sheet
    {
      this.sheet := sheet;
    }

    /** `get_next_empty_row`: one past `max_row`. */
    method GetNextEmptyRow() returns (row: int)
      requires sheet.Valid()
      ensures IsMaxRow(sheet.cells, row - 1) && row >= 2
    {
      var m := sheet.MaxRow();
      if sheet.cells != map[] {
        var k :| k in sheet.cells && k.0 == m;
      }
      row := m + 1;
    }

    /**
     * `update_sheet`: from the next empty row on, record by record, each instruction's cell gets
     * `row_data.get(key)`. The new cells are `ApplyRecords` from that row; `raised` is the
     * ValueError of a column below 1.
     */
    method UpdateSheet(recs: seq<map<string, V>>, ins: seq<Instruction>) returns (raised: bool, ghost start: int)
      requires sheet.Valid()
      modifies sheet
      ensures sheet.Valid()
      ensures IsMaxRow(old(sheet.cells), start - 1)
      ensures sheet.cells == ApplyRecords(old(sheet.cells), start, recs, ins).cells
      ensures raised == ApplyRecords(old(sheet.cells), start, recs, ins).raised
    {
      var currentRow := GetNextEmptyRow();
      start := currentRow;
      ghost var before := sheet.cells;
      raised := false;
      var n := 0;
      while n < |recs|
        invariant 0 <= n <= |recs| && currentRow == start + n
        invariant sheet.Valid()
        invariant Applied(sheet.cells, false) == ApplyRecords(before, start, recs[..n], ins)
      {
        TakeSnoc(recs, n);
        assert recs[..n + 1][..n] == recs[..n];
        raised := WriteRow(currentRow, recs[n], ins);
        if raised {
          RecordsRaisedStay(before, start, recs, ins, n + 1);
          return;
        }
        currentRow := currentRow + 1;
        n := n + 1;
      }
      TakeAll(recs);
    }

    /** The inner loop of `update_sheet` for one record. */
    method WriteRow(row: int, rec: map<string, V>, ins: seq<Instruction>) returns (raised: bool)
      requires sheet.Valid() && row >= 1
      modifies sheet
      ensures sheet.Valid()
      ensures Applied(sheet.cells, raised) == ApplyRow(old(sheet.cells), row, rec, ins)
    {
      ghost var before := sheet.cells;
      raised := false;
      var k := 0;
      while k < |ins|
        invariant 0 <= k <= |ins|
        invariant sheet.Valid()
        invariant Applied(sheet.cells, false) == ApplyRow(before, row, rec, ins[..k])
      {
        TakeSnoc(ins, k);
        assert ins[..k + 1][..k] == ins[..k];
        raised := sheet.Cell(row, ins[k].column, Get(rec, ins[k].key));
        if raised {
          RowRaisedStays(before, row, rec, ins, k + 1);
          return;
        }
        k := k + 1;
      }
      TakeAll(ins);
    }
  }
}
