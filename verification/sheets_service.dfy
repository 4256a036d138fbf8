/**
  `sheets/sheets_service.py`: the time-bounded user-to-row index (`SheetCache`)
  and `GoogleSheetsService.batch_update`, which shapes each update into a
  seven-cell row, splits the rows into range updates for known users and
  appends for new ones, and extends the index with the appended rows.
 */
module SheetsService {
  import opened Worksheet
  import Track

  /** Row 1 of the destination sheet. */
  const SheetHeaders: seq<string> := ["Pessoa", "Música", "Artistas/Banda", "Álbum", "Ano", "Link", "Last Update"]

  /** Default seconds for which the index is trusted. */
  const DefaultTtl: int := 30

  /** `SheetCache`: the user-to-row index and when it was last set. */
  datatype SheetCache = SheetCache(ttl: int, index: map<string, nat>, lastUpdate: int)

  function NewSheetCache(ttl: int): (c: SheetCache)
    ensures c.ttl == ttl && c.index == map[] && c.lastUpdate == 0
  {
    SheetCache(ttl, map[], 0)
  }

  /** `is_expired`: more than `ttl` seconds since the index was last set. */
  predicate IsExpired(c: SheetCache, now: int) {
    now - c.lastUpdate > c.ttl
  }

  /** `set`: replace the index and restart the clock. */
  function CacheSet(c: SheetCache, index: map<string, nat>, now: int): (r: SheetCache)
    ensures r.ttl == c.ttl && r.index == index && r.lastUpdate == now
    ensures c.ttl >= 0 ==> !IsExpired(r, now)
  {
    SheetCache(c.ttl, index, now)
  }

  /** `invalidate`: keep the index but make it expired at any time later than `ttl`. */
  function CacheInvalidate(c: SheetCache): (r: SheetCache)
    ensures r.ttl == c.ttl && r.index == c.index && r.lastUpdate == 0
    ensures forall now :: now > c.ttl ==> IsExpired(r, now)
  {
    c.(lastUpdate := 0)
  }

  /** The index of the first `n` rows: each value below the header maps to its 1-based row;
      when a value occurs more than once, its last row wins. */
  function IndexUpTo(column: seq<string>, n: nat): map<string, nat>
    requires n <= |column|
  {
    if n <= 1 then map[] else IndexUpTo(column, n - 1)[column[n - 1] := n]
  }

  /** `_refresh_cache`: the index of the whole of column A. */
  function BuildIndex(column: seq<string>): map<string, nat> {
    IndexUpTo(column, |column|)
  }

  lemma {:induction false} IndexUpToSound(column: seq<string>, n: nat, u: string)
    requires n <= |column| && u in IndexUpTo(column, n)
    ensures 2 <= IndexUpTo(column, n)[u] <= n && column[IndexUpTo(column, n)[u] - 1] == u
    decreases n
  {
    if column[n - 1] != u {
      IndexUpToSound(column, n - 1, u);
    }
  }

  lemma {:induction false} IndexUpToComplete(column: seq<string>, n: nat, i: nat)
    requires 1 <= i < n <= |column|
    ensures column[i] in IndexUpTo(column, n)
    decreases n
  {
    if i < n - 1 {
      IndexUpToComplete(column, n - 1, i);
    }
  }

  lemma {:induction false} IndexUpToLastWins(column: seq<string>, n: nat, u: string, j: nat)
    requires n <= |column| && u in IndexUpTo(column, n) && IndexUpTo(column, n)[u] <= j < n
    ensures column[j] != u
    decreases n
  {
    if column[n - 1] != u && j < n - 1 {
      IndexUpToLastWins(column, n - 1, u, j);
    }
  }

  /** Columns that agree on their first `n` cells have the same index of those rows. */
  lemma {:induction false} IndexUpToAgree(a: seq<string>, b: seq<string>, n: nat)
    requires n <= |a| && n <= |b|
    requires forall i :: 0 <= i < n ==> a[i] == b[i]
    ensures IndexUpTo(a, n) == IndexUpTo(b, n)
    decreases n
  {
    if n > 1 {
      IndexUpToAgree(a, b, n - 1);
    }
  }

  /** Each indexed value sits at its row, below the header. */
  lemma BuildIndexSound(column: seq<string>, u: string)
    requires u in BuildIndex(column)
    ensures 2 <= BuildIndex(column)[u] <= |column| && column[BuildIndex(column)[u] - 1] == u
  {
    IndexUpToSound(column, |column|, u);
  }

  /** Every value below the header is indexed, and nothing else is. */
  lemma BuildIndexComplete(column: seq<string>, i: nat)
    requires 1 <= i < |column|
    ensures column[i] in BuildIndex(column)
  {
    IndexUpToComplete(column, |column|, i);
  }

  /** When a value occurs more than once, the index keeps its last row. */
  lemma BuildIndexLastWins(column: seq<string>, u: string, j: nat)
    requires u in BuildIndex(column) && BuildIndex(column)[u] <= j < |column|
    ensures column[j] != u
  {
    IndexUpToLastWins(column, |column|, u, j);
  }

  /** One `(username, track_data)` pair of the update list. */
  datatype Update = Update(user: string, data: map<string, string>)

  function Users(updates: seq<Update>): (users: seq<string>)
    ensures |users| == |updates|
    ensures forall i :: 0 <= i < |updates| ==> users[i] == updates[i].user
  {
    seq(|updates|, i requires 0 <= i < |updates| => updates[i].user)
  }

  /** `track_data.get(key, "—")`. */
  function CellFor(data: map<string, string>, key: string): string {
    if key in data then data[key] else Track.Sentinel
  }

  /** The seven cells written for one user: the user, then the six track keys in column order. */
  function RowFor(user: string, data: map<string, string>): (row: Row)
    ensures |row| == 7 && row[0] == user
    ensures forall k :: 0 <= k < 6 ==> row[k + 1] == CellFor(data, Track.TrackKeys[k])
  {
    [user, CellFor(data, "track"), CellFor(data, "artists"), CellFor(data, "album"),
     CellFor(data, "year"), CellFor(data, "link"), CellFor(data, "timestamp")]
  }

  /** A track's dict becomes the row of its fields in sheet order. */
  lemma RowForTrack(user: string, t: Track.TrackInfo)
    ensures RowFor(user, Track.ToDict(t)) == [user, t.track, t.artists, t.album, t.year, t.link, t.timestamp]
  {
  }

  /** The not-playing record fills the album, artists, year and link columns with the sentinel,
      and no cell of its row is empty. */
  lemma NotPlayingRow(user: string, clock: string)
    requires user != "" && clock != ""
    ensures var row := RowFor(user, Track.ToDict(Track.NotPlaying(clock)));
            && row[1] == Track.NotPlayingTitle
            && (forall k :: 2 <= k <= 5 ==> row[k] == Track.Sentinel)
            && (forall k :: 0 <= k < 7 ==> row[k] != "")
  {
    RowForTrack(user, Track.NotPlaying(clock));
  }

  /** An update with none of the keys still gives a full row, of sentinels. */
  lemma RowForEmptyData(user: string)
    ensures RowFor(user, map[]) == [user] + seq(6, _ => Track.Sentinel)
  {
  }

  /** The range update for a user: its indexed row receives its seven cells. It is only
      issued for users the index knows. */
  function RangeFor(index: map<string, nat>, u: Update): RangeUpdate {
    RangeUpdate(if u.user in index then index[u.user] else 0, RowFor(u.user, u.data))
  }

  /** The two lists `batch_update` builds. */
  datatype Plan = Plan(ranges: seq<RangeUpdate>, newRows: seq<Row>)

  /** The loop of `batch_update`: known users go to range updates at their indexed row,
      new users to appended rows, and each update to exactly one of the two. */
  function Partition(index: map<string, nat>, updates: seq<Update>): (p: Plan)
    ensures |p.ranges| + |p.newRows| == |updates|
    ensures forall j :: 0 <= j < |p.ranges| ==>
              var u := p.ranges[j];
              |u.values| == 7 && u.values[0] in index && u.row == index[u.values[0]]
    ensures forall j :: 0 <= j < |p.newRows| ==> |p.newRows[j]| == 7 && p.newRows[j][0] !in index
    decreases |updates|
  {
    if |updates| == 0 then Plan([], [])
    else
      var rest := Partition(index, updates[1..]);
      var u := updates[0];
      if u.user in index then Plan([RangeFor(index, u)] + rest.ranges, rest.newRows)
      else Plan(rest.ranges, [RowFor(u.user, u.data)] + rest.newRows)
  }

  /** Submission order is kept: the plan of `a + b` is the plan of `a` followed by that of `b`. */
  lemma {:induction false} PartitionConcat(index: map<string, nat>, a: seq<Update>, b: seq<Update>)
    ensures Partition(index, a + b).ranges == Partition(index, a).ranges + Partition(index, b).ranges
    ensures Partition(index, a + b).newRows == Partition(index, a).newRows + Partition(index, b).newRows
    decreases |a|
  {
    if |a| == 0 {
      assert a + b == b;
    } else {
      var u := a[0];
      assert (a + b)[0] == u;
      assert (a + b)[1..] == a[1..] + b;
      PartitionConcat(index, a[1..], b);
      var rest, restAll := Partition(index, a[1..]), Partition(index, a[1..] + b);
      var pb := Partition(index, b);
      if u.user in index {
        calc {
          Partition(index, a + b).ranges;
          [RangeFor(index, u)] + restAll.ranges;
          [RangeFor(index, u)] + (rest.ranges + pb.ranges);
          ([RangeFor(index, u)] + rest.ranges) + pb.ranges;
        }
      } else {
        calc {
          Partition(index, a + b).newRows;
          [RowFor(u.user, u.data)] + restAll.newRows;
          [RowFor(u.user, u.data)] + (rest.newRows + pb.newRows);
          ([RowFor(u.user, u.data)] + rest.newRows) + pb.newRows;
        }
      }
    }
  }

  /** Every update is written: a known user's seven cells as a range update at its indexed row,
      a new user's as an appended row. */
  lemma {:induction false} PartitionCovers(index: map<string, nat>, updates: seq<Update>)
    ensures forall i :: 0 <= i < |updates| && updates[i].user in index ==>
              RangeFor(index, updates[i]) in Partition(index, updates).ranges
    ensures forall i :: 0 <= i < |updates| && updates[i].user !in index ==>
              RowFor(updates[i].user, updates[i].data) in Partition(index, updates).newRows
    decreases |updates|
  {
    if |updates| > 0 {
      PartitionCovers(index, updates[1..]);
      forall i | 1 <= i < |updates|
        ensures updates[i] == updates[1..][i - 1]
      {
      }
    }
  }

  /** Nothing else is written: each range update comes from an update of a known user. */
  lemma {:induction false} RangeSource(index: map<string, nat>, updates: seq<Update>, j: nat) returns (i: nat)
    requires j < |Partition(index, updates).ranges|
    ensures i < |updates| && updates[i].user in index
    ensures Partition(index, updates).ranges[j] == RangeFor(index, updates[i])
    decreases |updates|
  {
    var p, rest := Partition(index, updates), Partition(index, updates[1..]);
    if updates[0].user in index && j == 0 {
      i := 0;
    } else {
      var k := if updates[0].user in index then j - 1 else j;
      assert p.ranges[j] == rest.ranges[k];
      var t := RangeSource(index, updates[1..], k);
      i := t + 1;
    }
  }

  /** Nothing else is written: each appended row comes from an update of a new user. */
  lemma {:induction false} RowSource(index: map<string, nat>, updates: seq<Update>, j: nat) returns (i: nat)
    requires j < |Partition(index, updates).newRows|
    ensures i < |updates| && updates[i].user !in index
    ensures Partition(index, updates).newRows[j] == RowFor(updates[i].user, updates[i].data)
    decreases |updates|
  {
    var p, rest := Partition(index, updates), Partition(index, updates[1..]);
    if updates[0].user !in index && j == 0 {
      i := 0;
    } else {
      var k := if updates[0].user !in index then j - 1 else j;
      assert p.newRows[j] == rest.newRows[k];
      var t := RowSource(index, updates[1..], k);
      i := t + 1;
    }
  }

  /** Where a known user's range update sits in the plan. */
  lemma {:induction false} RangeAt(index: map<string, nat>, updates: seq<Update>, i: nat) returns (j: nat)
    requires i < |updates| && updates[i].user in index
    ensures j < |Partition(index, updates).ranges|
    ensures Partition(index, updates).ranges[j] == RangeFor(index, updates[i])
    decreases |updates|
  {
    var rest := Partition(index, updates[1..]);
    if i == 0 {
      j := 0;
    } else {
      assert updates[1..][i - 1] == updates[i];
      var k := RangeAt(index, updates[1..], i - 1);
      j := if updates[0].user in index then k + 1 else k;
    }
  }

  /** Where a new user's appended row sits in the plan. */
  lemma {:induction false} NewRowAt(index: map<string, nat>, updates: seq<Update>, i: nat) returns (j: nat)
    requires i < |updates| && updates[i].user !in index
    ensures j < |Partition(index, updates).newRows|
    ensures Partition(index, updates).newRows[j] == RowFor(updates[i].user, updates[i].data)
    decreases |updates|
  {
    var rest := Partition(index, updates[1..]);
    if i == 0 {
      j := 0;
    } else {
      assert updates[1..][i - 1] == updates[i];
      var k := NewRowAt(index, updates[1..], i - 1);
      j := if updates[0].user !in index then k + 1 else k;
    }
  }

  /** With one update per user, no user gets two range updates or two appended rows. */
  lemma {:induction false} PartitionDistinct(index: map<string, nat>, updates: seq<Update>)
    requires Distinct(Users(updates))
    ensures Distinct(FirstCells(Partition(index, updates).newRows))
    ensures forall a, b :: 0 <= a < b < |Partition(index, updates).ranges| ==>
              CellA(Partition(index, updates).ranges[a].values) != CellA(Partition(index, updates).ranges[b].values)
  {
    NewRowsDistinct(index, updates);
    RangeUsersDistinct(index, updates);
  }

  /** With one update per user, a user appears once among the updates after the first one,
      and the first user is none of them. */
  lemma TailUsers(updates: seq<Update>)
    requires |updates| > 0 && Distinct(Users(updates))
    ensures Distinct(Users(updates[1..]))
    ensures forall i :: 0 <= i < |updates| - 1 ==> updates[1..][i].user != updates[0].user
  {
    var tail := updates[1..];
    assert forall i :: 0 <= i < |tail| ==> Users(tail)[i] == Users(updates)[i + 1];
    forall i | 0 <= i < |tail|
      ensures tail[i].user != updates[0].user
    {
      assert Users(updates)[i + 1] == tail[i].user;
    }
  }

  /** The first user of a batch with one update per user is not among the rows the rest appends. */
  lemma FirstNotAppendedLater(index: map<string, nat>, updates: seq<Update>, rows: seq<Row>)
    requires |updates| > 0 && Distinct(Users(updates))
    requires rows == Partition(index, updates[1..]).newRows
    ensures updates[0].user !in FirstCells(rows)
  {
    TailUsers(updates);
    forall j | 0 <= j < |rows|
      ensures CellA(rows[j]) != updates[0].user
    {
      var i := RowSource(index, updates[1..], j);
    }
  }

  /** The first user of a batch with one update per user is not among the ranges the rest builds. */
  lemma FirstNotRangedLater(index: map<string, nat>, updates: seq<Update>, ranges: seq<RangeUpdate>)
    requires |updates| > 0 && Distinct(Users(updates))
    requires ranges == Partition(index, updates[1..]).ranges
    ensures forall j :: 0 <= j < |ranges| ==> CellA(ranges[j].values) != updates[0].user
  {
    TailUsers(updates);
    forall j | 0 <= j < |ranges|
      ensures CellA(ranges[j].values) != updates[0].user
    {
      var i := RangeSource(index, updates[1..], j);
    }
  }

  lemma DistinctCons<T>(x: T, s: seq<T>)
    requires Distinct(s) && x !in s
    ensures Distinct([x] + s)
  {
  }

  /** With one update per user, no user is appended twice. */
  lemma {:induction false} NewRowsDistinct(index: map<string, nat>, updates: seq<Update>)
    requires Distinct(Users(updates))
    ensures Distinct(FirstCells(Partition(index, updates).newRows))
    decreases |updates|
  {
    if |updates| > 0 {
      TailUsers(updates);
      NewRowsDistinct(index, updates[1..]);
      var rest := Partition(index, updates[1..]).newRows;
      var u := updates[0];
      if u.user !in index {
        FirstNotAppendedLater(index, updates, rest);
        assert FirstCells([RowFor(u.user, u.data)] + rest) == [u.user] + FirstCells(rest);
        DistinctCons(u.user, FirstCells(rest));
      }
    }
  }

  /** With one update per user, no user gets two range updates. */
  lemma {:induction false} RangeUsersDistinct(index: map<string, nat>, updates: seq<Update>)
    requires Distinct(Users(updates))
    ensures forall a, b :: 0 <= a < b < |Partition(index, updates).ranges| ==>
              CellA(Partition(index, updates).ranges[a].values) != CellA(Partition(index, updates).ranges[b].values)
    decreases |updates|
  {
    if |updates| > 0 {
      TailUsers(updates);
      RangeUsersDistinct(index, updates[1..]);
      var rest := Partition(index, updates[1..]).ranges;
      var u := updates[0];
      if u.user in index {
        FirstNotRangedLater(index, updates, rest);
        var ranges := [RangeFor(index, u)] + rest;
        assert Partition(index, updates).ranges == ranges;
        forall a, b | 0 <= a < b < |ranges|
          ensures CellA(ranges[a].values) != CellA(ranges[b].values)
        {
          assert ranges[b] == rest[b - 1];
          if a > 0 {
            assert ranges[a] == rest[a - 1];
          }
        }
      }
    }
  }

  /** The first `k` iterations of the loop after `append_rows`: appended user `j` is recorded at
      row `next + j`; a later duplicate would overwrite an earlier one. */
  function ExtendUpTo(index: map<string, nat>, users: seq<string>, k: nat, next: nat): map<string, nat>
    requires k <= |users|
  {
    if k == 0 then index else ExtendUpTo(index, users, k - 1, next)[users[k - 1] := next + k - 1]
  }

  /** The loop after `append_rows`. */
  function Extend(index: map<string, nat>, users: seq<string>, next: nat): map<string, nat> {
    ExtendUpTo(index, users, |users|, next)
  }

  lemma {:induction false} ExtendUpToFrame(index: map<string, nat>, users: seq<string>, k: nat, next: nat, u: string)
    requires k <= |users| && u in index
    requires forall j :: 0 <= j < k ==> users[j] != u
    ensures u in ExtendUpTo(index, users, k, next) && ExtendUpTo(index, users, k, next)[u] == index[u]
    decreases k
  {
    if k > 0 {
      ExtendUpToFrame(index, users, k - 1, next, u);
    }
  }

  lemma {:induction false} ExtendUpToAt(index: map<string, nat>, users: seq<string>, k: nat, next: nat, j: nat)
    requires j < k <= |users|
    requires forall a :: j < a < k ==> users[a] != users[j]
    ensures users[j] in ExtendUpTo(index, users, k, next) && ExtendUpTo(index, users, k, next)[users[j]] == next + j
    decreases k
  {
    if j < k - 1 {
      ExtendUpToAt(index, users, k - 1, next, j);
    }
  }

  /** Entries for users not appended are left alone. */
  lemma ExtendFrame(index: map<string, nat>, users: seq<string>, next: nat, u: string)
    requires u in index && u !in users
    ensures u in Extend(index, users, next) && Extend(index, users, next)[u] == index[u]
  {
    ExtendUpToFrame(index, users, |users|, next, u);
  }

  /** Distinct appended users get consecutive rows in submission order. */
  lemma ExtendConsecutive(index: map<string, nat>, users: seq<string>, next: nat, j: nat)
    requires Distinct(users) && j < |users|
    ensures users[j] in Extend(index, users, next) && Extend(index, users, next)[users[j]] == next + j
  {
    ExtendUpToAt(index, users, |users|, next, j);
  }

  /** Reading rows appended under the header region indexes them exactly as `Extend` records
      them: the first `k` appended rows. */
  lemma {:induction false} IndexAppendUpTo(column: seq<string>, extra: seq<string>, k: nat)
    requires |column| >= 1 && k <= |extra|
    ensures IndexUpTo(column + extra, |column| + k) == ExtendUpTo(BuildIndex(column), extra, k, |column| + 1)
    decreases k
  {
    if k == 0 {
      IndexUpToAgree(column + extra, column, |column|);
    } else {
      IndexAppendUpTo(column, extra, k - 1);
      assert (column + extra)[|column| + k - 1] == extra[k - 1];
    }
  }

  lemma BuildIndexAppend(column: seq<string>, extra: seq<string>)
    requires |column| >= 1
    ensures BuildIndex(column + extra) == Extend(BuildIndex(column), extra, |column| + 1)
  {
    IndexAppendUpTo(column, extra, |extra|);
  }

  lemma {:induction false} IndexUpToSize(column: seq<string>, n: nat)
    requires 1 <= n <= |column|
    requires forall a, b :: 1 <= a < b < n ==> column[a] != column[b]
    ensures |IndexUpTo(column, n)| == n - 1
    decreases n
  {
    if n > 1 {
      IndexUpToSize(column, n - 1);
      if column[n - 1] in IndexUpTo(column, n - 1) {
        IndexUpToSound(column, n - 1, column[n - 1]);
        assert false;
      }
    }
  }

  /** No value occurs twice below the header. */
  predicate DistinctBelowHeader(column: seq<string>) {
    forall a, b :: 1 <= a < b < |column| ==> column[a] != column[b]
  }

  /** With one row per user, the index has one entry per row below the header. */
  lemma BuildIndexSize(column: seq<string>)
    requires |column| >= 1 && DistinctBelowHeader(column)
    ensures |BuildIndex(column)| == |column| - 1
  {
    IndexUpToSize(column, |column|);
  }

  /** With one row per user, the index sends a user to the row that holds it. */
  lemma IndexPointsAt(column: seq<string>, pos: nat)
    requires 1 <= pos < |column| && DistinctBelowHeader(column)
    ensures column[pos] in BuildIndex(column) && BuildIndex(column)[column[pos]] == pos + 1
  {
    BuildIndexComplete(column, pos);
    BuildIndexSound(column, column[pos]);
  }

  /** The index `batch_update` works from: rebuilt from column A when expired, cached otherwise. */
  function CurrentIndex(c: SheetCache, sheet: Sheet, now: int): map<string, nat> {
    if IsExpired(c, now) then BuildIndex(ColumnA(sheet)) else c.index
  }

  /** The remote calls of one `batch_update` and the cache it leaves. */
  datatype Batch = Batch(calls: seq<Call>, cache: SheetCache)

  /** The number of rows a series of calls writes. */
  function Written(calls: seq<Call>): nat {
    if |calls| == 0 then 0
    else
      (match calls[0]
       case BatchRanges(ups) => |ups|
       case AppendRows(rows) => |rows|) + Written(calls[1..])
  }

  /** `batch_update`. The sheet is read only when the index has expired. */
  function BatchUpdate(c: SheetCache, sheet: Sheet, now: int, updates: seq<Update>): (b: Batch)
    ensures |updates| == 0 ==> b == Batch([], c)
    ensures |updates| > 0 ==> 1 <= |b.calls| <= 2
    ensures |b.calls| == 2 ==> b.calls[0].BatchRanges? && b.calls[1].AppendRows?
    ensures forall k :: 0 <= k < |b.calls| && b.calls[k].BatchRanges? ==> |b.calls[k].updates| > 0
    ensures forall k :: 0 <= k < |b.calls| && b.calls[k].AppendRows? ==> |b.calls[k].rows| > 0
    ensures Written(b.calls) == |updates|
  {
    if |updates| == 0 then Batch([], c)
    else
      var index := CurrentIndex(c, sheet, now);
      var c1 := if IsExpired(c, now) then CacheSet(c, index, now) else c;
      var p := Partition(index, updates);
      var calls := Calls(p);
      if |p.newRows| == 0 then Batch(calls, c1)
      else Batch(calls, CacheSet(c1, Extend(index, FirstCells(p.newRows), |index| + 2), now))
  }

  /** The calls a plan gives rise to: the range updates if there are any, then the appends if
      there are any. */
  function Calls(p: Plan): (calls: seq<Call>)
    requires |p.ranges| + |p.newRows| > 0
    ensures Written(calls) == |p.ranges| + |p.newRows|
    ensures forall k :: 0 <= k < |calls| && calls[k].BatchRanges? ==> |calls[k].updates| > 0
    ensures forall k :: 0 <= k < |calls| && calls[k].AppendRows? ==> |calls[k].rows| > 0
  {
    if |p.ranges| > 0 && |p.newRows| > 0 then
      var calls := [BatchRanges(p.ranges), AppendRows(p.newRows)];
      assert calls[1..] == [AppendRows(p.newRows)] && calls[1..][1..] == [];
      assert Written(calls[1..]) == |p.newRows|;
      calls
    else if |p.ranges| > 0 then [BatchRanges(p.ranges)]
    else [AppendRows(p.newRows)]
  }

  /** The calls of a plan amount to its range updates followed by its appended rows. */
  lemma ApplyCalls(sheet: Sheet, p: Plan)
    requires |p.ranges| + |p.newRows| > 0
    ensures Apply(sheet, Calls(p)) == ApplyRanges(sheet, p.ranges) + p.newRows
  {
    var calls := Calls(p);
    var s1 := ApplyRanges(sheet, p.ranges);
    if |p.ranges| > 0 && |p.newRows| > 0 {
      assert calls[1..] == [AppendRows(p.newRows)] && calls[1..][1..] == [];
      assert Apply(s1, calls[1..]) == Apply(s1 + p.newRows, []);
    } else if |p.ranges| > 0 {
      assert calls[1..] == [];
      assert s1 + p.newRows == s1;
    } else {
      assert calls[1..] == [];
      assert ApplyRanges(sheet, p.ranges) == sheet;
    }
  }

  /** The calls of `batch_update` amount to the range updates followed by the appended rows. */
  lemma ApplyBatch(c: SheetCache, sheet: Sheet, now: int, updates: seq<Update>)
    requires |updates| > 0
    ensures var p := Partition(CurrentIndex(c, sheet, now), updates);
            Apply(sheet, BatchUpdate(c, sheet, now, updates).calls) == ApplyRanges(sheet, p.ranges) + p.newRows
  {
    ApplyCalls(sheet, Partition(CurrentIndex(c, sheet, now), updates));
  }

  /** Index extension: entries already known keep their rows and the `j`-th appended user gets
      row `len(index) + 2 + j`. */
  lemma BatchExtendsIndex(c: SheetCache, sheet: Sheet, now: int, updates: seq<Update>)
    requires |updates| > 0 && Distinct(Users(updates))
    ensures var index := CurrentIndex(c, sheet, now);
            var newRows := Partition(index, updates).newRows;
            var after := BatchUpdate(c, sheet, now, updates).cache.index;
            && (forall u :: u in index ==> u in after && after[u] == index[u])
            && (forall j :: 0 <= j < |newRows| ==>
                  CellA(newRows[j]) in after && after[CellA(newRows[j])] == |index| + 2 + j)
  {
    var index := CurrentIndex(c, sheet, now);
    var p := Partition(index, updates);
    PartitionDistinct(index, updates);
    if |p.newRows| > 0 {
      var cells := FirstCells(p.newRows);
      forall u | u in index
        ensures u in Extend(index, cells, |index| + 2) && Extend(index, cells, |index| + 2)[u] == index[u]
      {
        ExtendFrame(index, cells, |index| + 2, u);
      }
      forall j | 0 <= j < |cells|
        ensures cells[j] in Extend(index, cells, |index| + 2) && Extend(index, cells, |index| + 2)[cells[j]] == |index| + 2 + j
      {
        ExtendConsecutive(index, cells, |index| + 2, j);
      }
    }
  }

  /** The destination invariant: a header row, then at most one row per user. */
  predicate OneRowPerUser(sheet: Sheet) {
    |sheet| >= 1 && DistinctBelowHeader(ColumnA(sheet))
  }

  /** A cache that is still trusted at `now` matches the sheet it stands for. */
  predicate CacheAgrees(c: SheetCache, sheet: Sheet, now: int) {
    !IsExpired(c, now) ==> c.index == BuildIndex(ColumnA(sheet))
  }

  /** The row the index gives for `u.user` exists and starts with the seven cells of `u`. */
  predicate RowWritten(sheet: Sheet, index: map<string, nat>, u: Update) {
    && u.user in index
    && 1 <= index[u.user] <= |sheet|
    && RowFor(u.user, u.data) <= sheet[index[u.user] - 1]
  }

  /** The sheet after the calls of `batch_update`. */
  function After(c: SheetCache, sheet: Sheet, now: int, updates: seq<Update>): Sheet {
    Apply(sheet, BatchUpdate(c, sheet, now, updates).calls)
  }

  /** The situation the invariant is about: a sheet with one row per user, a cache that matches
      it whenever trusted, and a non-empty batch with one update per user. */
  predicate Consistent(c: SheetCache, sheet: Sheet, now: int, updates: seq<Update>) {
    OneRowPerUser(sheet) && CacheAgrees(c, sheet, now) && Distinct(Users(updates)) && |updates| > 0
  }

  /** Range updates built from the index of the sheet rewrite rows below the header that already
      hold their user. */
  lemma RangesInSheet(sheet: Sheet, updates: seq<Update>, ranges: seq<RangeUpdate>)
    requires ranges == Partition(BuildIndex(ColumnA(sheet)), updates).ranges
    ensures forall j :: 0 <= j < |ranges| ==> 2 <= ranges[j].row <= |sheet| && |ranges[j].values| > 0
    ensures forall j :: 0 <= j < |ranges| ==> ranges[j].values[0] == CellA(sheet[ranges[j].row - 1])
  {
    var col := ColumnA(sheet);
    forall j | 0 <= j < |ranges|
      ensures 2 <= ranges[j].row <= |sheet| && col[ranges[j].row - 1] == ranges[j].values[0]
    {
      BuildIndexSound(col, ranges[j].values[0]);
    }
  }

  /** With one update per user, no two range updates address the same row, so no two of them
      send the same A1 range. */
  lemma RangesDistinctRows(sheet: Sheet, updates: seq<Update>, ranges: seq<RangeUpdate>)
    requires Distinct(Users(updates))
    requires ranges == Partition(BuildIndex(ColumnA(sheet)), updates).ranges
    ensures forall a, b :: 0 <= a < b < |ranges| ==> ranges[a].row != ranges[b].row
    ensures forall a, b :: 0 <= a < b < |ranges| ==> Range(ranges[a]) != Range(ranges[b])
  {
    RangesDistinctRowNumbers(sheet, updates, ranges);
    DistinctRanges(ranges);
  }

  lemma RangesDistinctRowNumbers(sheet: Sheet, updates: seq<Update>, ranges: seq<RangeUpdate>)
    requires Distinct(Users(updates))
    requires ranges == Partition(BuildIndex(ColumnA(sheet)), updates).ranges
    ensures forall a, b :: 0 <= a < b < |ranges| ==> ranges[a].row != ranges[b].row
  {
    var index := BuildIndex(ColumnA(sheet));
    PartitionDistinct(index, updates);
    forall a, b | 0 <= a < b < |ranges|
      ensures ranges[a].row != ranges[b].row
    {
      assert CellA(ranges[a].values) != CellA(ranges[b].values);
      BuildIndexSound(ColumnA(sheet), ranges[a].values[0]);
      BuildIndexSound(ColumnA(sheet), ranges[b].values[0]);
    }
  }

  /** Range updates built from the index of the sheet rewrite rows that already hold their user,
      and with one update per user no two of them address the same row. */
  lemma RangesTargetOwnRows(sheet: Sheet, updates: seq<Update>, ranges: seq<RangeUpdate>)
    requires Distinct(Users(updates))
    requires ranges == Partition(BuildIndex(ColumnA(sheet)), updates).ranges
    ensures forall j :: 0 <= j < |ranges| ==>
              && 2 <= ranges[j].row <= |sheet| && |ranges[j].values| > 0
              && ranges[j].values[0] == CellA(sheet[ranges[j].row - 1])
    ensures forall a, b :: 0 <= a < b < |ranges| ==> ranges[a].row != ranges[b].row
  {
    RangesInSheet(sheet, updates, ranges);
    RangesDistinctRows(sheet, updates, ranges);
  }

  /** What the calls of `batch_update` do to the sheet: range updates in place, then the appended
      rows; column A gains exactly the appended users. */
  lemma BatchShape(c: SheetCache, sheet: Sheet, now: int, updates: seq<Update>)
    requires Consistent(c, sheet, now, updates)
    ensures CurrentIndex(c, sheet, now) == BuildIndex(ColumnA(sheet))
    ensures var p := Partition(BuildIndex(ColumnA(sheet)), updates);
            && After(c, sheet, now, updates) == ApplyRanges(sheet, p.ranges) + p.newRows
            && ColumnA(After(c, sheet, now, updates)) == ColumnA(sheet) + FirstCells(p.newRows)
  {
    ApplyBatch(c, sheet, now, updates);
    PlanKeepsColumnA(sheet, updates);
  }

  /** Applying the plan built from the sheet's own index extends column A by the appended users only. */
  lemma PlanKeepsColumnA(sheet: Sheet, updates: seq<Update>)
    ensures var p := Partition(BuildIndex(ColumnA(sheet)), updates);
            ColumnA(ApplyRanges(sheet, p.ranges) + p.newRows) == ColumnA(sheet) + FirstCells(p.newRows)
  {
    var p := Partition(BuildIndex(ColumnA(sheet)), updates);
    RangesInSheet(sheet, updates, p.ranges);
    ApplyRangesKeepsColumnA(sheet, p.ranges);
    ColumnAConcat(ApplyRanges(sheet, p.ranges), p.newRows);
  }

  /** No user gains a second row. */
  lemma BatchOneRowPerUser(c: SheetCache, sheet: Sheet, now: int, updates: seq<Update>)
    requires Consistent(c, sheet, now, updates)
    ensures OneRowPerUser(After(c, sheet, now, updates))
  {
    BatchShape(c, sheet, now, updates);
    var col := ColumnA(sheet);
    var index := BuildIndex(col);
    var p := Partition(index, updates);
    var col' := ColumnA(After(c, sheet, now, updates));
    PartitionDistinct(index, updates);
    forall a, b | 1 <= a < b < |col'|
      ensures col'[a] != col'[b]
    {
      if a < |col| && b >= |col| {
        BuildIndexComplete(col, a);
        assert p.newRows[b - |col|][0] !in index;
      }
    }
  }

  /** The cache left behind is exactly the index of the sheet left behind. */
  lemma BatchCacheMatches(c: SheetCache, sheet: Sheet, now: int, updates: seq<Update>)
    requires Consistent(c, sheet, now, updates)
    ensures BatchUpdate(c, sheet, now, updates).cache.index == BuildIndex(ColumnA(After(c, sheet, now, updates)))
  {
    BatchShape(c, sheet, now, updates);
    var col := ColumnA(sheet);
    var p := Partition(BuildIndex(col), updates);
    if |p.newRows| > 0 {
      BuildIndexSize(col);
      BuildIndexAppend(col, FirstCells(p.newRows));
    } else {
      assert col + FirstCells(p.newRows) == col;
    }
  }

  /** A row that starts with an update's row, below the header of a sheet with one row per user,
      is where the sheet's index sends that user. */
  lemma RowAt(after: Sheet, pos: nat, u: Update)
    requires 1 <= pos < |after| && OneRowPerUser(after)
    requires RowFor(u.user, u.data) <= after[pos]
    ensures RowWritten(after, BuildIndex(ColumnA(after)), u)
  {
    var col := ColumnA(after);
    assert col[pos] == CellA(after[pos]) == u.user;
    IndexPointsAt(col, pos);
  }

  /** A row rewritten in place is found by the index of the sheet it belongs to. */
  lemma InPlaceRowWritten(after: Sheet, s1: Sheet, rows: seq<Row>, pos: nat, u: Update)
    requires after == s1 + rows && 1 <= pos < |s1|
    requires RowFor(u.user, u.data) <= s1[pos]
    requires OneRowPerUser(after)
    ensures RowWritten(after, BuildIndex(ColumnA(after)), u)
  {
    assert after[pos] == s1[pos];
    RowAt(after, pos, u);
  }

  /** A known user's range update, at a row of the sheet no other range update addresses. */
  lemma KnownRange(sheet: Sheet, updates: seq<Update>, ranges: seq<RangeUpdate>, i: nat) returns (j: nat)
    requires Distinct(Users(updates)) && i < |updates|
    requires updates[i].user in BuildIndex(ColumnA(sheet))
    requires ranges == Partition(BuildIndex(ColumnA(sheet)), updates).ranges
    ensures j < |ranges| && ranges[j].values == RowFor(updates[i].user, updates[i].data)
    ensures 2 <= ranges[j].row <= |sheet|
    ensures forall a, b :: 0 <= a < b < |ranges| ==> ranges[a].row != ranges[b].row
  {
    RangesInSheet(sheet, updates, ranges);
    RangesDistinctRows(sheet, updates, ranges);
    j := RangeAt(BuildIndex(ColumnA(sheet)), updates, i);
  }

  /** The row a known user's range update rewrites, below the header, starts with its cells
      once the range updates are applied. */
  lemma KnownRowRewritten(sheet: Sheet, updates: seq<Update>, i: nat) returns (pos: nat)
    requires Distinct(Users(updates)) && i < |updates|
    requires updates[i].user in BuildIndex(ColumnA(sheet))
    ensures var s1 := ApplyRanges(sheet, Partition(BuildIndex(ColumnA(sheet)), updates).ranges);
            1 <= pos < |s1| && RowFor(updates[i].user, updates[i].data) <= s1[pos]
  {
    var ranges := Partition(BuildIndex(ColumnA(sheet)), updates).ranges;
    var j := KnownRange(sheet, updates, ranges, i);
    ApplyRangesHit(sheet, ranges, j);
    pos := ranges[j].row - 1;
  }

  /** A known user's update rewrites its existing row. */
  lemma KnownUserWritten(sheet: Sheet, updates: seq<Update>, after: Sheet, i: nat)
    requires Distinct(Users(updates)) && i < |updates|
    requires updates[i].user in BuildIndex(ColumnA(sheet))
    requires var p := Partition(BuildIndex(ColumnA(sheet)), updates);
             after == ApplyRanges(sheet, p.ranges) + p.newRows
    requires OneRowPerUser(after)
    ensures RowWritten(after, BuildIndex(ColumnA(after)), updates[i])
  {
    var p := Partition(BuildIndex(ColumnA(sheet)), updates);
    var pos := KnownRowRewritten(sheet, updates, i);
    InPlaceRowWritten(after, ApplyRanges(sheet, p.ranges), p.newRows, pos, updates[i]);
  }

  /** An appended row is found by the index of the sheet it was appended to. */
  lemma AppendedRowWritten(after: Sheet, s1: Sheet, rows: seq<Row>, j: nat, u: Update)
    requires after == s1 + rows && |s1| >= 1 && j < |rows| && rows[j] == RowFor(u.user, u.data)
    requires OneRowPerUser(after)
    ensures RowWritten(after, BuildIndex(ColumnA(after)), u)
  {
    assert after[|s1| + j] == rows[j];
    RowAt(after, |s1| + j, u);
  }

  /** A new user's update becomes an appended row. */
  lemma NewUserWritten(sheet: Sheet, updates: seq<Update>, after: Sheet, i: nat)
    requires i < |updates| && |sheet| >= 1
    requires updates[i].user !in BuildIndex(ColumnA(sheet))
    requires var p := Partition(BuildIndex(ColumnA(sheet)), updates);
             after == ApplyRanges(sheet, p.ranges) + p.newRows
    requires OneRowPerUser(after)
    ensures RowWritten(after, BuildIndex(ColumnA(after)), updates[i])
  {
    var p := Partition(BuildIndex(ColumnA(sheet)), updates);
    var j := NewRowAt(BuildIndex(ColumnA(sheet)), updates, i);
    AppendedRowWritten(after, ApplyRanges(sheet, p.ranges), p.newRows, j, updates[i]);
  }

  /** Every update is written at the row the new index gives for its user. */
  lemma BatchWritesEveryUpdate(c: SheetCache, sheet: Sheet, now: int, updates: seq<Update>)
    requires Consistent(c, sheet, now, updates)
    ensures forall i :: 0 <= i < |updates| ==>
              RowWritten(After(c, sheet, now, updates), BatchUpdate(c, sheet, now, updates).cache.index, updates[i])
  {
    BatchCacheMatches(c, sheet, now, updates);
    BatchShape(c, sheet, now, updates);
    BatchOneRowPerUser(c, sheet, now, updates);
    forall i | 0 <= i < |updates|
      ensures RowWritten(After(c, sheet, now, updates), BuildIndex(ColumnA(After(c, sheet, now, updates))), updates[i])
    {
      if updates[i].user in BuildIndex(ColumnA(sheet)) {
        KnownUserWritten(sheet, updates, After(c, sheet, now, updates), i);
      } else {
        NewUserWritten(sheet, updates, After(c, sheet, now, updates), i);
      }
    }
  }

  /** No range update addresses the row of a user outside the batch. */
  lemma RangesMissRow(sheet: Sheet, updates: seq<Update>, ranges: seq<RangeUpdate>, q: nat)
    requires ranges == Partition(BuildIndex(ColumnA(sheet)), updates).ranges
    requires 1 <= q < |sheet| && CellA(sheet[q]) !in Users(updates)
    ensures forall j :: 0 <= j < |ranges| ==> ranges[j].row != q + 1
  {
    var col := ColumnA(sheet);
    var index := BuildIndex(col);
    forall j | 0 <= j < |ranges|
      ensures ranges[j].row != q + 1
    {
      var i := RangeSource(index, updates, j);
      BuildIndexSound(col, updates[i].user);
      assert Users(updates)[i] == updates[i].user;
    }
  }

  /** Nothing else changes: the row of a user outside the batch is left as it was. */
  lemma BatchLeavesOthers(c: SheetCache, sheet: Sheet, now: int, updates: seq<Update>)
    requires Consistent(c, sheet, now, updates)
    ensures forall q :: 1 <= q < |sheet| && CellA(sheet[q]) !in Users(updates) ==>
              After(c, sheet, now, updates)[q] == sheet[q]
  {
    BatchShape(c, sheet, now, updates);
    var p := Partition(BuildIndex(ColumnA(sheet)), updates);
    forall q | 1 <= q < |sheet| && CellA(sheet[q]) !in Users(updates)
      ensures ApplyRanges(sheet, p.ranges)[q] == sheet[q]
    {
      RangesMissRow(sheet, updates, p.ranges, q);
      ApplyRangesFrame(sheet, p.ranges, q);
    }
  }

  /** The invariant `batch_update` keeps. From a sheet with a header and one row per user, and a
      cache that matches the sheet whenever it is trusted, a batch with one update per user
      leaves one row per user, a cache that matches the new sheet, each user's indexed row
      starting with its seven cells, and every row of a user outside the batch untouched. */
  lemma BatchKeepsOneRowPerUser(c: SheetCache, sheet: Sheet, now: int, updates: seq<Update>)
    requires OneRowPerUser(sheet) && CacheAgrees(c, sheet, now) && Distinct(Users(updates))
    ensures var b := BatchUpdate(c, sheet, now, updates);
            var after := Apply(sheet, b.calls);
            && OneRowPerUser(after)
            && CacheAgrees(b.cache, after, now)
            && (|updates| > 0 ==> b.cache.index == BuildIndex(ColumnA(after)))
            && (forall i :: 0 <= i < |updates| ==> RowWritten(after, b.cache.index, updates[i]))
            && (forall q :: 1 <= q < |sheet| && CellA(sheet[q]) !in Users(updates) ==> after[q] == sheet[q])
  {
    if |updates| > 0 {
      BatchOneRowPerUser(c, sheet, now, updates);
      BatchCacheMatches(c, sheet, now, updates);
      BatchWritesEveryUpdate(c, sheet, now, updates);
      BatchLeavesOthers(c, sheet, now, updates);
    }
  }

  /** A batch against a sheet whose index already holds every user's current row issues only
      range updates, and they leave the sheet as it is. */
  lemma ReplayUnchanged(c: SheetCache, sheet: Sheet, now: int, updates: seq<Update>)
    requires |updates| > 0
    requires CurrentIndex(c, sheet, now) == BuildIndex(ColumnA(sheet))
    requires forall i :: 0 <= i < |updates| ==> RowWritten(sheet, BuildIndex(ColumnA(sheet)), updates[i])
    ensures var calls := BatchUpdate(c, sheet, now, updates).calls;
            Apply(sheet, calls) == sheet && forall k :: 0 <= k < |calls| ==> calls[k].BatchRanges?
  {
    var p := Partition(BuildIndex(ColumnA(sheet)), updates);
    forall i | 0 <= i < |updates|
      ensures updates[i].user in BuildIndex(ColumnA(sheet))
    {
      assert RowWritten(sheet, BuildIndex(ColumnA(sheet)), updates[i]);
    }
    KnownPlanAppendsNothing(BuildIndex(ColumnA(sheet)), updates);
    KnownRangesHoldCells(sheet, BuildIndex(ColumnA(sheet)), updates);
    ApplyRangesUnchanged(sheet, p.ranges);
    ApplyBatch(c, sheet, now, updates);
    assert sheet + p.newRows == sheet;
  }

  /** When every user is already indexed, the plan appends nothing. */
  lemma KnownPlanAppendsNothing(index: map<string, nat>, updates: seq<Update>)
    requires forall i :: 0 <= i < |updates| ==> updates[i].user in index
    ensures Partition(index, updates).newRows == []
  {
    if |Partition(index, updates).newRows| > 0 {
      var i := RowSource(index, updates, 0);
      assert false;
    }
  }

  /** When every user's indexed row already starts with its cells, each range update rewrites a
      row with the cells it holds. */
  lemma KnownRangesHoldCells(sheet: Sheet, index: map<string, nat>, updates: seq<Update>)
    requires forall i :: 0 <= i < |updates| ==> RowWritten(sheet, index, updates[i])
    ensures forall j :: 0 <= j < |Partition(index, updates).ranges| ==>
              && 1 <= Partition(index, updates).ranges[j].row <= |sheet|
              && Partition(index, updates).ranges[j].values <= sheet[Partition(index, updates).ranges[j].row - 1]
  {
    forall j | 0 <= j < |Partition(index, updates).ranges|
      ensures && 1 <= Partition(index, updates).ranges[j].row <= |sheet|
              && Partition(index, updates).ranges[j].values <= sheet[Partition(index, updates).ranges[j].row - 1]
    {
      var i := RangeSource(index, updates, j);
      assert RowWritten(sheet, index, updates[i]);
    }
  }

  /** Replaying a batch against the sheet and cache it left behind changes nothing: the second
      run finds every user and rewrites each row with the cells it already holds. */
  lemma BatchIdempotent(c: SheetCache, sheet: Sheet, now: int, updates: seq<Update>)
    requires OneRowPerUser(sheet) && CacheAgrees(c, sheet, now) && Distinct(Users(updates))
    ensures var b := BatchUpdate(c, sheet, now, updates);
            var after := Apply(sheet, b.calls);
            var again := BatchUpdate(b.cache, after, now, updates);
            && Apply(after, again.calls) == after
            && (forall k :: 0 <= k < |again.calls| ==> again.calls[k].BatchRanges?)
  {
    if |updates| > 0 {
      BatchKeepsOneRowPerUser(c, sheet, now, updates);
      var b := BatchUpdate(c, sheet, now, updates);
      var after := Apply(sheet, b.calls);
      assert CurrentIndex(b.cache, after, now) == BuildIndex(ColumnA(after));
      ReplayUnchanged(b.cache, after, now, updates);
    }
  }

  /** `update_single`: one update gives exactly one call, a range update at the user's row when
      the index knows the user and an append otherwise; an appended user is indexed at the next
      free row. */
  lemma UpdateSingle(c: SheetCache, sheet: Sheet, now: int, user: string, data: map<string, string>)
    ensures var index := CurrentIndex(c, sheet, now);
            var b := BatchUpdate(c, sheet, now, [Update(user, data)]);
            && (user in index ==> b.calls == [BatchRanges([RangeUpdate(index[user], RowFor(user, data))])])
            && (user !in index ==> b.calls == [AppendRows([RowFor(user, data)])])
            && (user !in index ==> b.cache.index == index[user := |index| + 2])
            && (user in index ==> b.cache.index == index)
  {
    var index := CurrentIndex(c, sheet, now);
    var ups := [Update(user, data)];
    assert ups[1..] == [];
    var p := Partition(index, ups);
    if user !in index {
      assert p.newRows == [RowFor(user, data)] && p.ranges == [];
      assert FirstCells(p.newRows) == [user];
      assert ExtendUpTo(index, [user], 0, |index| + 2) == index;
    } else {
      assert p.ranges == [RangeFor(index, ups[0])] && p.newRows == [];
    }
  }
}
