/**
  The first-generation sheet helper (`sheets/sheets_client.py`): one status
  cell per user, found by the user's name in column A and written into
  column B, with a new `[name, status]` row appended for a name not yet on the
  sheet. Unlike the batched service there is no header handling and no cache:
  every call reads column A afresh.
 */
module LegacySheet {
  import opened Results
  import Worksheet

  /** A cell value: text, or the track dictionary one of the legacy loops passes as the status. */
  datatype Cell = Text(text: string) | Dict(entries: map<string, string>)

  /** `sheet[p]` is spreadsheet row `p + 1`; cells to the right of a row's last value are blank. */
  type Row = seq<Cell>

  type Sheet = seq<Row>

  const Blank: Cell := Text("")

  /** The column-A value of a row, as `col_values(1)` reads it. */
  function ColumnA(row: Row): Cell {
    if |row| > 0 then row[0] else Blank
  }

  function FindFrom(sheet: Sheet, name: string, from: nat): (r: Option<nat>)
    requires from <= |sheet|
    ensures r.Some? ==> from <= r.value < |sheet| && ColumnA(sheet[r.value]) == Text(name)
    ensures r.Some? ==> forall p :: from <= p < r.value ==> ColumnA(sheet[p]) != Text(name)
    ensures r.None? <==> forall p :: from <= p < |sheet| ==> ColumnA(sheet[p]) != Text(name)
    decreases |sheet| - from
  {
    if from == |sheet| then None
    else if ColumnA(sheet[from]) == Text(name) then Some(from)
    else FindFrom(sheet, name, from + 1)
  }

  /** `users.index(username)` guarded by `username in users`: the first row naming the user. */
  function Find(sheet: Sheet, name: string): (r: Option<nat>)
    ensures r.Some? ==> r.value < |sheet| && ColumnA(sheet[r.value]) == Text(name)
    ensures r.Some? ==> forall p :: 0 <= p < r.value ==> ColumnA(sheet[p]) != Text(name)
    ensures r.None? <==> forall p :: 0 <= p < |sheet| ==> ColumnA(sheet[p]) != Text(name)
  {
    FindFrom(sheet, name, 0)
  }

  /** `update_cell` on a row: column `col` (0-based) receives `v`, a short row is padded with blanks. */
  function SetCell(row: Row, col: nat, v: Cell): (r: Row)
    ensures |r| == if col < |row| then |row| else col + 1
    ensures r[col] == v
    ensures forall k :: 0 <= k < |row| && k != col ==> r[k] == row[k]
    ensures forall k :: |row| <= k < |r| && k != col ==> r[k] == Blank
  {
    if col < |row| then row[col := v] else row + seq(col - |row|, _ => Blank) + [v]
  }

  /** `update_sheet_row(username, status)`. */
  function UpdateSheetRow(sheet: Sheet, name: string, status: Cell): (s: Sheet)
    ensures Find(sheet, name).Some? ==>
              var p := Find(sheet, name).value;
              && |s| == |sheet|
              && |s[p]| >= 2 && s[p][1] == status
              && (forall k :: 0 <= k < |s[p]| && k != 1 ==> s[p][k] == if k < |sheet[p]| then sheet[p][k] else Blank)
              && (forall q :: 0 <= q < |sheet| && q != p ==> s[q] == sheet[q])
    ensures Find(sheet, name).None? ==> s == sheet + [[Text(name), status]]
  {
    match Find(sheet, name)
    case Some(p) => sheet[p := SetCell(sheet[p], 1, status)]
    case None => sheet + [[Text(name), status]]
  }

  /** What the sheet shows as a user's status: column B of the first row naming the user. */
  function StatusOf(sheet: Sheet, name: string): Option<Cell> {
    match Find(sheet, name)
    case None => None
    case Some(p) => Some(if |sheet[p]| > 1 then sheet[p][1] else Blank)
  }

  /** Column A of every existing row is never rewritten, and exactly one row is added when the
      name was missing and none otherwise. */
  lemma UpdateShape(sheet: Sheet, name: string, status: Cell)
    ensures var s := UpdateSheetRow(sheet, name, status);
            && |s| == |sheet| + (if Find(sheet, name).None? then 1 else 0)
            && (forall p :: 0 <= p < |sheet| ==> ColumnA(s[p]) == ColumnA(sheet[p]))
            && ColumnA(s[|s| - 1]) == if Find(sheet, name).None? then Text(name) else ColumnA(sheet[|sheet| - 1])
  {
  }

  /** A search for a name sees the same answer on a sheet whose column A agrees on the old rows
      and whose extra rows do not carry the name. */
  lemma FindExtended(a: Sheet, b: Sheet, name: string)
    requires |a| <= |b|
    requires forall p :: 0 <= p < |a| ==> ColumnA(b[p]) == ColumnA(a[p])
    requires forall p :: |a| <= p < |b| ==> ColumnA(b[p]) != Text(name)
    ensures Find(b, name) == Find(a, name)
  {
    var fa := Find(a, name);
    if fa.Some? {
      assert ColumnA(b[fa.value]) == Text(name);
    }
  }

  /** Writing a status and reading it back gives the status written. */
  lemma UpdateThenRead(sheet: Sheet, name: string, status: Cell)
    ensures StatusOf(UpdateSheetRow(sheet, name, status), name) == Some(status)
  {
    var s := UpdateSheetRow(sheet, name, status);
    UpdateShape(sheet, name, status);
    if Find(sheet, name).Some? {
      FindExtended(sheet, s, name);
    } else {
      FindExtended(sheet, sheet, name);
      assert Find(s, name) == Some(|sheet|) by {
        assert ColumnA(s[|sheet|]) == Text(name);
      }
    }
  }

  /** Writing one user's status leaves where every other user's row is, and what it shows, unchanged. */
  lemma UpdateLeavesOthers(sheet: Sheet, name: string, status: Cell, other: string)
    requires other != name
    ensures var s := UpdateSheetRow(sheet, name, status);
            Find(s, other) == Find(sheet, other) && StatusOf(s, other) == StatusOf(sheet, other)
  {
    var s := UpdateSheetRow(sheet, name, status);
    UpdateShape(sheet, name, status);
    FindExtended(sheet, s, other);
    if Find(sheet, other).Some? && Find(sheet, name).Some? {
      assert Find(sheet, other).value != Find(sheet, name).value;
    }
  }

  /** Writing the same status twice is writing it once: the second call finds the row the first
      one wrote or appended. */
  lemma UpdateIdempotent(sheet: Sheet, name: string, status: Cell)
    ensures var s := UpdateSheetRow(sheet, name, status);
            UpdateSheetRow(s, name, status) == s
  {
    var s := UpdateSheetRow(sheet, name, status);
    UpdateShape(sheet, name, status);
    if Find(sheet, name).Some? {
      FindExtended(sheet, s, name);
      var p := Find(sheet, name).value;
      assert s[p][1 := status] == s[p];
    } else {
      FindExtended(sheet, sheet, name);
      assert Find(s, name) == Some(|sheet|) by {
        assert ColumnA(s[|sheet|]) == Text(name);
      }
      assert s[|sheet|][1 := status] == s[|sheet|];
    }
  }

  /** The outcome of one iteration of a legacy sync loop: the cell written for the user, or the
      exception that was caught. */
  datatype Report = Updated(user: string, status: Cell) | Failed(user: string)

  function Users(reports: seq<Report>): (users: seq<string>)
    ensures |users| == |reports|
    ensures forall i :: 0 <= i < |reports| ==> users[i] == reports[i].user
  {
    seq(|reports|, i requires 0 <= i < |reports| => reports[i].user)
  }

  /** The sheet after the writes of a series of iterations, in order; a failed iteration writes nothing. */
  function WriteAll(sheet: Sheet, reports: seq<Report>): Sheet
    decreases |reports|
  {
    if |reports| == 0 then sheet
    else
      var before := WriteAll(sheet, reports[..|reports| - 1]);
      match reports[|reports| - 1]
      case Updated(user, status) => UpdateSheetRow(before, user, status)
      case Failed(_) => before
  }

  /** One more iteration writes its cell, if any, on top of the earlier ones. */
  lemma WriteAllSnoc(sheet: Sheet, reports: seq<Report>, last: Report)
    ensures WriteAll(sheet, reports + [last]) ==
              if last.Updated? then UpdateSheetRow(WriteAll(sheet, reports), last.user, last.status)
              else WriteAll(sheet, reports)
  {
    assert (reports + [last])[..|reports|] == reports;
  }

  /** Some iteration wrote a status for `user`. */
  predicate Wrote(reports: seq<Report>, user: string) {
    exists i :: 0 <= i < |reports| && reports[i].Updated? && reports[i].user == user
  }

  /** When every user appears once, every written status is on the sheet afterwards, and a user
      no iteration wrote shows what it showed before. */
  lemma {:induction false} WriteAllStatus(sheet: Sheet, reports: seq<Report>)
    requires Worksheet.Distinct(Users(reports))
    ensures forall i :: 0 <= i < |reports| && reports[i].Updated? ==>
              StatusOf(WriteAll(sheet, reports), reports[i].user) == Some(reports[i].status)
    ensures forall u :: !Wrote(reports, u) ==> StatusOf(WriteAll(sheet, reports), u) == StatusOf(sheet, u)
    decreases |reports|
  {
    if |reports| > 0 {
      var n := |reports| - 1;
      var init := reports[..n];
      assert Users(init) == Users(reports)[..n];
      WriteAllStatus(sheet, init);
      var before := WriteAll(sheet, init);
      var last := reports[n];
      assert forall i :: 0 <= i < n ==> init[i] == reports[i];
      forall i | 0 <= i < |reports| && reports[i].Updated?
        ensures StatusOf(WriteAll(sheet, reports), reports[i].user) == Some(reports[i].status)
      {
        if i == n {
          UpdateThenRead(before, last.user, last.status);
        } else {
          assert init[i] == reports[i];
          assert Users(reports)[i] != Users(reports)[n];
          if last.Updated? {
            UpdateLeavesOthers(before, last.user, last.status, reports[i].user);
          }
        }
      }
      forall u | !Wrote(reports, u)
        ensures StatusOf(WriteAll(sheet, reports), u) == StatusOf(sheet, u)
      {
        assert !Wrote(init, u);
        if last.Updated? {
          UpdateLeavesOthers(before, last.user, last.status, u);
        }
      }
    }
  }
}
