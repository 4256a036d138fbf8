/**
  The destination spreadsheet as the core sees it: a sequence of rows whose
  first row is the header, read through its first column and changed by two
  batched calls, a range update and an append.
 */
module Worksheet {
  import Text

  type Row = seq<string>

  /** `sheet[p]` is spreadsheet row `p + 1`; `sheet[0]` is the header row. */
  type Sheet = seq<Row>

  predicate Distinct<T(==)>(s: seq<T>) {
    forall i, j :: 0 <= i < j < |s| ==> s[i] != s[j]
  }

  /** The column-A value of a row; an empty row reads as the empty string. */
  function CellA(row: Row): string {
    if |row| > 0 then row[0] else ""
  }

  /** `col_values(1)`. */
  function ColumnA(sheet: Sheet): (col: seq<string>)
    ensures |col| == |sheet|
    ensures forall p :: 0 <= p < |sheet| ==> col[p] == CellA(sheet[p])
  {
    seq(|sheet|, p requires 0 <= p < |sheet| => CellA(sheet[p]))
  }

  /** The column-A values of a list of rows. */
  function FirstCells(rows: seq<Row>): (cells: seq<string>)
    ensures |cells| == |rows|
    ensures forall j :: 0 <= j < |rows| ==> cells[j] == CellA(rows[j])
  {
    seq(|rows|, j requires 0 <= j < |rows| => CellA(rows[j]))
  }

  /** Column A of rows appended to a sheet is the sheet's column A followed by the rows' first cells. */
  lemma ColumnAConcat(sheet: Sheet, rows: seq<Row>)
    ensures ColumnA(sheet + rows) == ColumnA(sheet) + FirstCells(rows)
  {
    var s := sheet + rows;
    forall q | 0 <= q < |s|
      ensures ColumnA(s)[q] == (ColumnA(sheet) + FirstCells(rows))[q]
    {
      if q < |sheet| {
        assert s[q] == sheet[q];
      } else {
        assert s[q] == rows[q - |sheet|];
      }
    }
  }

  /** One entry of a `batch_update` call: the cells `A{row}:G{row}` receive `values`. The
      entry is kept by its row number; `Range` gives the text the call carries. */
  datatype RangeUpdate = RangeUpdate(row: nat, values: Row)

  /** The A1 range an entry sends. */
  function Range(u: RangeUpdate): string {
    Text.RowRange(u.row)
  }

  /** Keeping entries by row number loses nothing: entries address pairwise different rows
      exactly when the ranges they send are pairwise different. */
  lemma DistinctRanges(ups: seq<RangeUpdate>)
    ensures (forall a, b :: 0 <= a < b < |ups| ==> ups[a].row != ups[b].row)
            <==> (forall a, b :: 0 <= a < b < |ups| ==> Range(ups[a]) != Range(ups[b]))
  {
    if forall a, b :: 0 <= a < b < |ups| ==> ups[a].row != ups[b].row {
      forall a, b | 0 <= a < b < |ups| ensures Range(ups[a]) != Range(ups[b]) {
        if Range(ups[a]) == Range(ups[b]) {
          Text.RowRangeInjective(ups[a].row, ups[b].row);
        }
      }
    }
  }

  /** The remote calls the service issues. */
  datatype Call = BatchRanges(updates: seq<RangeUpdate>) | AppendRows(rows: seq<Row>)

  /** Writing `values` from column A on leaves any cells further right as they were. */
  function Overwrite(current: Row, values: Row): (r: Row)
    ensures values <= r
    ensures |r| == if |current| > |values| then |current| else |values|
    ensures forall k :: |values| <= k < |current| ==> r[k] == current[k]
  {
    if |current| > |values| then values + current[|values|..] else values
  }

  /** Overwriting twice with the same values is overwriting once. */
  lemma OverwriteIdempotent(current: Row, values: Row)
    ensures Overwrite(Overwrite(current, values), values) == Overwrite(current, values)
  {
  }

  /** One range update. A row outside the sheet is not modelled and leaves the sheet as it is. */
  function SetRow(sheet: Sheet, u: RangeUpdate): (s: Sheet)
    ensures |s| == |sheet|
  {
    if 1 <= u.row <= |sheet| then sheet[u.row - 1 := Overwrite(sheet[u.row - 1], u.values)] else sheet
  }

  function ApplyRanges(sheet: Sheet, ups: seq<RangeUpdate>): (s: Sheet)
    ensures |s| == |sheet|
    decreases |ups|
  {
    if |ups| == 0 then sheet else ApplyRanges(SetRow(sheet, ups[0]), ups[1..])
  }

  /** The effect of a series of calls, in order. */
  function Apply(sheet: Sheet, calls: seq<Call>): (s: Sheet)
    ensures |sheet| <= |s|
    decreases |calls|
  {
    if |calls| == 0 then sheet
    else
      match calls[0]
      case BatchRanges(ups) => Apply(ApplyRanges(sheet, ups), calls[1..])
      case AppendRows(rows) => Apply(sheet + rows, calls[1..])
  }

  /** A row no update addresses is left alone. */
  lemma {:induction false} ApplyRangesFrame(sheet: Sheet, ups: seq<RangeUpdate>, p: nat)
    requires p < |sheet|
    requires forall j :: 0 <= j < |ups| ==> ups[j].row != p + 1
    ensures ApplyRanges(sheet, ups)[p] == sheet[p]
    decreases |ups|
  {
    if |ups| > 0 {
      ApplyRangesFrame(SetRow(sheet, ups[0]), ups[1..], p);
    }
  }

  /** When updates address distinct rows, each addressed row ends up overwritten by its update. */
  lemma {:induction false} ApplyRangesHit(sheet: Sheet, ups: seq<RangeUpdate>, j: nat)
    requires j < |ups| && 1 <= ups[j].row <= |sheet|
    requires forall a, b :: 0 <= a < b < |ups| ==> ups[a].row != ups[b].row
    ensures ApplyRanges(sheet, ups)[ups[j].row - 1] == Overwrite(sheet[ups[j].row - 1], ups[j].values)
    decreases |ups|
  {
    if j == 0 {
      var s1 := SetRow(sheet, ups[0]);
      forall k | 0 <= k < |ups[1..]|
        ensures ups[1..][k].row != ups[0].row
      {
        assert ups[1..][k] == ups[k + 1];
      }
      ApplyRangesFrame(s1, ups[1..], ups[0].row - 1);
    } else {
      assert ups[1..][j - 1] == ups[j];
      forall a, b | 0 <= a < b < |ups[1..]|
        ensures ups[1..][a].row != ups[1..][b].row
      {
        assert ups[1..][a] == ups[a + 1] && ups[1..][b] == ups[b + 1];
      }
      ApplyRangesHit(SetRow(sheet, ups[0]), ups[1..], j - 1);
      assert ups[0].row != ups[j].row;
    }
  }

  /** Updates that rewrite each addressed row with the user already in its column A
      leave column A as it was. */
  lemma {:induction false} ApplyRangesKeepsColumnA(sheet: Sheet, ups: seq<RangeUpdate>)
    requires forall j :: 0 <= j < |ups| ==> 1 <= ups[j].row <= |sheet| && |ups[j].values| > 0
    requires forall j :: 0 <= j < |ups| ==> ups[j].values[0] == CellA(sheet[ups[j].row - 1])
    ensures ColumnA(ApplyRanges(sheet, ups)) == ColumnA(sheet)
    decreases |ups|
  {
    if |ups| > 0 {
      var s1 := SetRow(sheet, ups[0]);
      assert ColumnA(s1) == ColumnA(sheet) by {
        forall p | 0 <= p < |sheet|
          ensures CellA(s1[p]) == CellA(sheet[p])
        {
        }
      }
      forall j | 0 <= j < |ups[1..]|
        ensures ups[1..][j].values[0] == CellA(s1[ups[1..][j].row - 1])
      {
        assert ups[1..][j] == ups[j + 1];
        assert CellA(s1[ups[j + 1].row - 1]) == ColumnA(s1)[ups[j + 1].row - 1];
      }
      ApplyRangesKeepsColumnA(s1, ups[1..]);
    }
  }

  /** Updates whose values each already start the row they address change nothing. */
  lemma {:induction false} ApplyRangesUnchanged(sheet: Sheet, ups: seq<RangeUpdate>)
    requires forall j :: 0 <= j < |ups| && 1 <= ups[j].row <= |sheet| ==> ups[j].values <= sheet[ups[j].row - 1]
    ensures ApplyRanges(sheet, ups) == sheet
    decreases |ups|
  {
    if |ups| > 0 {
      var u := ups[0];
      if 1 <= u.row <= |sheet| {
        var current := sheet[u.row - 1];
        assert Overwrite(current, u.values) == current by {
          if |current| > |u.values| {
            assert u.values + current[|u.values|..] == current;
          }
        }
        assert SetRow(sheet, u) == sheet;
      }
      forall j | 0 <= j < |ups[1..]| && 1 <= ups[1..][j].row <= |sheet|
        ensures ups[1..][j].values <= sheet[ups[1..][j].row - 1]
      {
        assert ups[1..][j] == ups[j + 1];
      }
      ApplyRangesUnchanged(sheet, ups[1..]);
    }
  }
}
