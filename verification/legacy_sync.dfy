/**
  The first-generation track script (`services/spotify_sync.py`): for every
  user in the tokens file it makes sure the token is valid (refreshing it and
  rewriting the tokens file when it is about to expire), builds the six-key
  track dictionary, and hands that dictionary to the legacy sheet helper as the
  user's status. Any exception for one user is caught and the loop moves on.
 */
module LegacyTrackSync {
  import opened Results
  import opened TokenData
  import opened Playback
  import LegacyTokens
  import Track
  import Worksheet
  import opened LegacySheet

  /** The dictionary returned when nothing is playing; `clock` is the formatted current time. */
  function NotPlayingDict(clock: string): (d: map<string, string>)
    ensures d.Keys == set k | k in Track.TrackKeys
    ensures d["track"] == Track.NotPlayingTitle && d["timestamp"] == clock
    ensures forall k :: k in d && k != "track" && k != "timestamp" ==> d[k] == Track.Sentinel
  {
    map["track" := "Not playing", "artists" := "—", "album" := "—",
        "year" := "—", "link" := "—", "timestamp" := clock]
  }

  /** The dictionary built from a response: the not-playing one for an absent response, a
      response that is not playing, or a missing item; otherwise the item's fields, or `None` for
      the `KeyError` of a missing key. */
  function DictFor(current: Option<Current>, clock: string): (r: Option<map<string, string>>)
    ensures r.Some? ==> r.value.Keys == set k | k in Track.TrackKeys
    ensures r.None? <==> PlayingItem(current).Some? && !Complete(PlayingItem(current).value)
  {
    match PlayingItem(current)
    case None => Some(NotPlayingDict(clock))
    case Some(item) =>
      match ParseItem(item)
      case None => None
      case Some(f) =>
        Some(map["track" := f.track, "artists" := f.artists, "album" := f.album,
                 "year" := f.year, "link" := f.link, "timestamp" := clock])
  }

  /** The dictionary is exactly `TrackInfo.to_dict()` of the track the newer client builds from
      the same response, so both generations write the same fields. */
  lemma DictForAgrees(current: Option<Current>, clock: string)
    ensures PlayingItem(current).None? ==>
              DictFor(current, clock) == Some(Track.ToDict(Track.NotPlaying(clock)))
    ensures PlayingItem(current).Some? ==>
              var t := Track.FromSpotifyResponse(PlayingItem(current).value, clock);
              && (DictFor(current, clock).Some? <==> t.Some?)
              && (t.Some? ==> DictFor(current, clock).value == Track.ToDict(t.value))
  {
  }

  /** `get_current_track(user_id)`: the dictionary (or `None` for an exception) and the tokens
      file afterwards, which a refresh rewrites even when a later step raises. */
  function TrackDict(disk: Disk, user: UserId, now: int, provider: Json -> LegacyTokens.RefreshReply,
                     fetch: Json -> FetchReply, clock: string): (r: (Option<map<string, string>>, Disk))
    ensures r.1 == LegacyTokens.EnsureValidToken(disk, user, now, provider).1
  {
    var (token, disk') := LegacyTokens.EnsureValidToken(disk, user, now, provider);
    if token.Err? || "access_token" !in token.value then (None, disk')
    else
      match fetch(token.value["access_token"])
      case FetchFailed => (None, disk')
      case Fetched(current) => (DictFor(current, clock), disk')
  }

  /** An exception is raised exactly when the token step raises, the token has no `access_token`,
      the remote call fails, or a playing item lacks a key. */
  lemma TrackDictFails(disk: Disk, user: UserId, now: int, provider: Json -> LegacyTokens.RefreshReply,
                       fetch: Json -> FetchReply, clock: string)
    ensures var token := LegacyTokens.EnsureValidToken(disk, user, now, provider).0;
            var r := TrackDict(disk, user, now, provider, fetch, clock).0;
            r.None? <==>
              || token.Err?
              || "access_token" !in token.value
              || fetch(token.value["access_token"]).FetchFailed?
              || DictFor(fetch(token.value["access_token"]).current, clock).None?
  {
  }

  /** The outcome of one user's iteration and the tokens file after it. */
  function Iteration(disk: Disk, user: UserId, now: int, provider: Json -> LegacyTokens.RefreshReply,
                     fetch: Json -> FetchReply, clock: string, accepted: bool): (r: (Report, Disk))
    ensures r.0.user == user
    ensures r.1 == TrackDict(disk, user, now, provider, fetch, clock).1
    ensures r.0.Updated? <==> TrackDict(disk, user, now, provider, fetch, clock).0.Some? && accepted
    ensures r.0.Updated? ==> r.0.status == Dict(TrackDict(disk, user, now, provider, fetch, clock).0.value)
  {
    var (d, disk') := TrackDict(disk, user, now, provider, fetch, clock);
    if d.Some? && accepted then (Updated(user, Dict(d.value)), disk') else (Failed(user), disk')
  }

  /** An iteration reads only the user's own record: two stored files that agree on it give the
      same outcome and leave the same record behind. */
  lemma IterationLocal(d1: Disk, d2: Disk, user: UserId, now: int, provider: Json -> LegacyTokens.RefreshReply,
                       fetch: Json -> FetchReply, clock: string, accepted: bool)
    requires d1.Stored? && d2.Stored? && user in d1.tokens && user in d2.tokens
    requires d1.tokens[user] == d2.tokens[user]
    ensures var r1 := Iteration(d1, user, now, provider, fetch, clock, accepted);
            var r2 := Iteration(d2, user, now, provider, fetch, clock, accepted);
            && r1.0 == r2.0
            && r1.1.Stored? && r2.1.Stored?
            && user in r1.1.tokens && user in r2.1.tokens
            && r1.1.tokens[user] == r2.1.tokens[user]
  {
    LegacyTokens.EnsureValidTokenLocal(d1, d2, user, now, provider);
  }

  /** An iteration on a stored file keeps it stored, with the same users, and changes no other
      user's record. */
  lemma IterationFrame(disk: Disk, user: UserId, now: int, provider: Json -> LegacyTokens.RefreshReply,
                       fetch: Json -> FetchReply, clock: string, accepted: bool)
    requires disk.Stored?
    ensures var d := Iteration(disk, user, now, provider, fetch, clock, accepted).1;
            && d.Stored? && d.tokens.Keys == disk.tokens.Keys
            && (forall u :: u in disk.tokens && u != user ==> d.tokens[u] == disk.tokens[u])
  {
  }

  /** After the first `i` users of `order`: their outcomes are `reports`, each of them holds the
      record its own iteration left, and every later user still holds its original record. */
  predicate Threaded(disk: Disk, cur: Disk, order: seq<UserId>, i: nat, reports: seq<Report>,
                     provider: Json -> LegacyTokens.RefreshReply, fetch: Json -> FetchReply,
                     now: UserId -> int, clock: UserId -> string, accepts: UserId -> bool)
  {
    && disk.Stored? && cur.Stored? && cur.tokens.Keys == disk.tokens.Keys
    && i <= |order| && |reports| == i
    && (forall j :: 0 <= j < |order| ==> order[j] in disk.tokens)
    && (forall j :: i <= j < |order| ==> cur.tokens[order[j]] == disk.tokens[order[j]])
    && (forall j :: 0 <= j < i ==>
          var e := Iteration(disk, order[j], now(order[j]), provider, fetch, clock(order[j]), accepts(order[j]));
          && reports[j] == e.0
          && e.1.Stored? && order[j] in e.1.tokens
          && cur.tokens[order[j]] == e.1.tokens[order[j]])
  }

  /** One more iteration keeps the loop's account of the tokens file and the outcomes. */
  lemma ThreadedStep(disk: Disk, cur: Disk, order: seq<UserId>, i: nat, reports: seq<Report>,
                     provider: Json -> LegacyTokens.RefreshReply, fetch: Json -> FetchReply,
                     now: UserId -> int, clock: UserId -> string, accepts: UserId -> bool)
    requires Worksheet.Distinct(order)
    requires Threaded(disk, cur, order, i, reports, provider, fetch, now, clock, accepts) && i < |order|
    ensures var user := order[i];
            var step := Iteration(cur, user, now(user), provider, fetch, clock(user), accepts(user));
            Threaded(disk, step.1, order, i + 1, reports + [step.0], provider, fetch, now, clock, accepts)
  {
    var user := order[i];
    var step := Iteration(cur, user, now(user), provider, fetch, clock(user), accepts(user));
    IterationLocal(cur, disk, user, now(user), provider, fetch, clock(user), accepts(user));
    IterationFrame(cur, user, now(user), provider, fetch, clock(user), accepts(user));
    var next := reports + [step.0];
    forall j | 0 <= j < i + 1
      ensures var e := Iteration(disk, order[j], now(order[j]), provider, fetch, clock(order[j]), accepts(order[j]));
              && next[j] == e.0
              && e.1.Stored? && order[j] in e.1.tokens
              && step.1.tokens[order[j]] == e.1.tokens[order[j]]
    {
      if j < i {
        assert order[j] != user;
        assert next[j] == reports[j];
      }
    }
  }

  /** Once the loop has visited every user, each record in the file is the one its own iteration
      left. */
  lemma ThreadedCovers(disk: Disk, cur: Disk, order: seq<UserId>, reports: seq<Report>,
                       provider: Json -> LegacyTokens.RefreshReply, fetch: Json -> FetchReply,
                       now: UserId -> int, clock: UserId -> string, accepts: UserId -> bool)
    requires disk.Stored? && TokenData.Enumerates(order, disk.tokens)
    requires Threaded(disk, cur, order, |order|, reports, provider, fetch, now, clock, accepts)
    ensures forall u :: u in disk.tokens ==>
              cur.tokens[u] == Iteration(disk, u, now(u), provider, fetch, clock(u), accepts(u)).1.tokens[u]
  {
    forall u | u in disk.tokens
      ensures cur.tokens[u] == Iteration(disk, u, now(u), provider, fetch, clock(u), accepts(u)).1.tokens[u]
    {
      assert u in set v | v in order;
      var j :| 0 <= j < |order| && order[j] == u;
    }
  }

  /** The loop of `sync_spotify_to_sheets` over a stored tokens file, threading the file through
      the iterations. */
  method ProcessUsers(disk: Disk, order: seq<UserId>, provider: Json -> LegacyTokens.RefreshReply,
                      fetch: Json -> FetchReply, now: UserId -> int, clock: UserId -> string,
                      accepts: UserId -> bool, sheet: Sheet)
    returns (reports: seq<Report>, disk': Disk, after: Sheet)
    requires disk.Stored? && TokenData.Enumerates(order, disk.tokens)
    ensures |reports| == |order|
    ensures forall i :: 0 <= i < |order| ==>
              reports[i] == Iteration(disk, order[i], now(order[i]), provider, fetch, clock(order[i]),
                                      accepts(order[i])).0
    ensures disk'.Stored? && disk'.tokens.Keys == disk.tokens.Keys
    ensures forall u :: u in disk.tokens ==>
              disk'.tokens[u] == Iteration(disk, u, now(u), provider, fetch, clock(u), accepts(u)).1.tokens[u]
    ensures after == WriteAll(sheet, reports)
    ensures forall i :: 0 <= i < |order| && reports[i].Updated? ==>
              StatusOf(after, order[i]) == Some(reports[i].status)
    ensures forall u :: !Wrote(reports, u) ==> StatusOf(after, u) == StatusOf(sheet, u)
  {
    after := sheet;
    disk' := disk;
    reports := [];
    var i := 0;
    TokenData.EnumeratedKeys(order, disk.tokens);
    while i < |order|
      invariant Threaded(disk, disk', order, i, reports, provider, fetch, now, clock, accepts)
      invariant after == WriteAll(sheet, reports)
    {
      var user := order[i];
      var step := Iteration(disk', user, now(user), provider, fetch, clock(user), accepts(user));
      ThreadedStep(disk, disk', order, i, reports, provider, fetch, now, clock, accepts);
      WriteAllSnoc(sheet, reports, step.0);
      reports := reports + [step.0];
      if step.0.Updated? {
        after := UpdateSheetRow(after, user, step.0.status);
      }
      disk' := step.1;
      i := i + 1;
    }
    ThreadedCovers(disk, disk', order, reports, provider, fetch, now, clock, accepts);
    assert Users(reports) == order;
    WriteAllStatus(sheet, reports);
  }

  /** `sync_spotify_to_sheets`. `now(u)` and `clock(u)` are the times read while processing `u`,
      `accepts(u)` says whether the sheet write for `u` goes through. An unreadable tokens file
      raises before any write; an empty one returns with no writes. Each user's outcome is the one
      it would have had on the file as first read, whatever the order of iteration. */
  method SyncSpotifyToSheets(disk: Disk, order: seq<UserId>, provider: Json -> LegacyTokens.RefreshReply,
                             fetch: Json -> FetchReply, now: UserId -> int, clock: UserId -> string,
                             accepts: UserId -> bool, sheet: Sheet)
    returns (r: Result<seq<Report>, LegacyTokens.LegacyError>, disk': Disk, after: Sheet)
    requires LegacyTokens.LoadTokens(disk).Ok? ==> TokenData.Enumerates(order, LegacyTokens.LoadTokens(disk).value)
    ensures disk.Unreadable? <==> r.Err?
    ensures disk.Unreadable? ==> after == sheet && disk' == disk
    ensures disk.Missing? || disk.Undecodable? ==> r == Ok([]) && after == sheet && disk' == disk
    ensures r.Ok? ==> |r.value| == |order|
    ensures r.Ok? ==> forall i :: 0 <= i < |order| ==>
              r.value[i] == Iteration(disk, order[i], now(order[i]), provider, fetch, clock(order[i]),
                                      accepts(order[i])).0
    ensures r.Ok? && disk.Stored? ==>
              && disk'.Stored? && disk'.tokens.Keys == disk.tokens.Keys
              && forall u :: u in disk.tokens ==>
                   disk'.tokens[u] == Iteration(disk, u, now(u), provider, fetch, clock(u), accepts(u)).1.tokens[u]
    ensures r.Ok? ==> after == WriteAll(sheet, r.value)
    ensures r.Ok? ==> forall i :: 0 <= i < |order| && r.value[i].Updated? ==>
              StatusOf(after, order[i]) == Some(r.value[i].status)
    ensures r.Ok? ==> forall u :: !Wrote(r.value, u) ==> StatusOf(after, u) == StatusOf(sheet, u)
  {
    var loaded := LegacyTokens.LoadTokens(disk);
    if loaded.Err? {
      return Err(loaded.error), disk, sheet;
    }
    if |loaded.value| == 0 {
      TokenData.EnumerationSize(order, loaded.value);
      return Ok([]), disk, sheet;
    }
    var reports;
    reports, disk', after := ProcessUsers(disk, order, provider, fetch, now, clock, accepts, sheet);
    r := Ok(reports);
  }
}
