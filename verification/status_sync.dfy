/**
  The first-generation status script (`sheets/spotify_sync.py`): for every
  user in the tokens file it formats a one-line status, "track — artists" or
  "Not playing", stamps it with the time, and writes it into the user's
  column-B cell. It never refreshes a token, and any exception for one user
  is caught so the loop moves on to the next.
 */
module StatusSync {
  import opened Results
  import opened TokenData
  import opened Playback
  import Text
  import LegacyTokens
  import Track
  import opened LegacySheet

  /** What separates the track title from the artists. */
  const TitleSeparator: string := " — "

  /** The title and artists an item contributes, or `None` for the `KeyError` of a missing
      `artists`, artist `name` or `name`. The album, date and link are not read here. */
  function TitleLine(item: Item): (r: Option<string>)
    ensures r.Some? <==> item.name.Some? && item.artists.Some? && ArtistNames(item.artists.value).Some?
  {
    if item.artists.None? || ArtistNames(item.artists.value).None? || item.name.None? then None
    else Some(item.name.value + TitleSeparator + Text.Join(ArtistNames(item.artists.value).value, ", "))
  }

  /** `get_current_track(token_info)`: `None` is an exception, from a missing `access_token`, the
      remote call, or a missing item key. */
  function CurrentStatus(record: Record, fetch: Json -> FetchReply): (r: Option<string>)
  {
    if "access_token" !in record then None
    else
      match fetch(record["access_token"])
      case FetchFailed => None
      case Fetched(current) =>
        match PlayingItem(current)
        case None => Some(Track.NotPlayingTitle)
        case Some(item) => TitleLine(item)
  }

  /** Whenever the name and every artist name are present, the line is the title, the
      separator and the artist names joined by ", ", whatever the album; on a complete item
      this is the same title and artists the full track formatters give. */
  lemma TitleLineAgrees(item: Item)
    requires item.name.Some? && item.artists.Some? && ArtistNames(item.artists.value).Some?
    ensures TitleLine(item) == Some(item.name.value + TitleSeparator + Text.Join(ArtistNames(item.artists.value).value, ", "))
    ensures Complete(item) ==> TitleLine(item) == Some(ParseItem(item).value.track + TitleSeparator + ParseItem(item).value.artists)
  {
  }

  /** An exception is raised exactly when the token has no `access_token`, the call fails, or a
      playing item lacks the name or an artist name; the cases are otherwise told apart by the
      text, since every track line contains the dash and "Not playing" does not. */
  lemma CurrentStatusCases(record: Record, fetch: Json -> FetchReply)
    ensures var r := CurrentStatus(record, fetch);
            && (r.None? <==>
                  || "access_token" !in record
                  || fetch(record["access_token"]).FetchFailed?
                  || (PlayingItem(fetch(record["access_token"]).current).Some?
                      && TitleLine(PlayingItem(fetch(record["access_token"]).current).value).None?))
            && (r.Some? ==>
                  (r.value == Track.NotPlayingTitle
                   <==> PlayingItem(fetch(record["access_token"]).current).None?))
  {
    var r := CurrentStatus(record, fetch);
    if r.Some? && "access_token" in record && fetch(record["access_token"]).Fetched? {
      var current := fetch(record["access_token"]).current;
      if PlayingItem(current).Some? {
        var item := PlayingItem(current).value;
        var title := item.name.value;
        var line := title + TitleSeparator + Text.Join(ArtistNames(item.artists.value).value, ", ");
        assert line[|title| + 1] == '—';
        assert '—' !in Track.NotPlayingTitle;
      }
    }
  }

  /** The text written: the status with the time it was taken. */
  function Stamped(status: string, stamp: string): (line: string)
    ensures status <= line
    ensures line[|status|..] == " (as of " + stamp + ")"
  {
    status + " (as of " + stamp + ")"
  }

  /** The outcome of one user's iteration, from that user's record and parameters alone. */
  function Iteration(user: UserId, record: Record, fetch: Json -> FetchReply, stamp: string,
                     accepted: bool): (r: Report)
    ensures r.user == user
    ensures r.Updated? <==> CurrentStatus(record, fetch).Some? && accepted
    ensures r.Updated? ==> r.status == Text(Stamped(CurrentStatus(record, fetch).value, stamp))
  {
    match CurrentStatus(record, fetch)
    case None => Failed(user)
    case Some(status) => if accepted then Updated(user, Text(Stamped(status, stamp))) else Failed(user)
  }

  /** `sync_spotify_to_sheets`. `stamp(u)` is the time read for user `u`, `accepts(u)` says whether
      the sheet write for `u` goes through. An unreadable tokens file raises before any write;
      an empty one returns with no writes. */
  method SyncSpotifyToSheets(disk: Disk, order: seq<UserId>, fetch: Json -> FetchReply,
                             stamp: UserId -> string, accepts: UserId -> bool, sheet: Sheet)
    returns (r: Result<seq<Report>, LegacyTokens.LegacyError>, after: Sheet)
    requires LegacyTokens.LoadTokens(disk).Ok? ==> TokenData.Enumerates(order, LegacyTokens.LoadTokens(disk).value)
    ensures disk.Unreadable? <==> r.Err?
    ensures r.Err? ==> after == sheet
    ensures disk.Missing? || disk.Undecodable? ==> r == Ok([]) && after == sheet
    ensures r.Ok? ==> |r.value| == |order|
    ensures r.Ok? ==> forall i :: 0 <= i < |order| ==>
              r.value[i] == Iteration(order[i], LegacyTokens.LoadTokens(disk).value[order[i]], fetch,
                                      stamp(order[i]), accepts(order[i]))
    ensures r.Ok? ==> after == WriteAll(sheet, r.value)
    ensures r.Ok? ==> forall i :: 0 <= i < |order| && r.value[i].Updated? ==>
              StatusOf(after, order[i]) == Some(r.value[i].status)
    ensures r.Ok? ==> forall u :: !Wrote(r.value, u) ==> StatusOf(after, u) == StatusOf(sheet, u)
  {
    after := sheet;
    var loaded := LegacyTokens.LoadTokens(disk);
    if loaded.Err? {
      return Err(loaded.error), after;
    }
    var tokens := loaded.value;
    if |tokens| == 0 {
      TokenData.EnumerationSize(order, tokens);
      return Ok([]), after;
    }
    var reports: seq<Report> := [];
    var i := 0;
    while i < |order|
      invariant 0 <= i <= |order|
      invariant |reports| == i
      invariant forall j :: 0 <= j < i ==>
                  reports[j] == Iteration(order[j], tokens[order[j]], fetch, stamp(order[j]), accepts(order[j]))
      invariant after == WriteAll(sheet, reports)
    {
      var user := order[i];
      var report := Iteration(user, tokens[user], fetch, stamp(user), accepts(user));
      assert (reports + [report])[..i] == reports;
      reports := reports + [report];
      if report.Updated? {
        after := UpdateSheetRow(after, user, report.status);
      }
      i := i + 1;
    }
    assert Users(reports) == order;
    WriteAllStatus(sheet, reports);
    r := Ok(reports);
  }
}
