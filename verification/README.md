# VibeSheet core in Dafny

VibeSheet mirrors each authenticated user's "currently playing" state from a
music-streaming API into a shared spreadsheet. This project models the logic
of its core:

- **Credential cache.** `TokenCache` models the in-memory copy of the tokens
  file. It reloads from disk only when empty or older than the reload interval,
  and every write goes through to disk.
- **Credential refresher.** `SpotifyTokens` models user lookup, the decision to
  refresh inside a 300-second buffer, and the fallback that keeps a
  not-yet-expired token when the refresh fails. It also covers
  `save_user_token` and `get_authenticated_users`.
- **Track state.** `Track` and `Playback` model the `TrackInfo` value, its
  factories and `to_dict`, and the client call that turns a credential and a
  provider response into a track, the "Not playing" sentinel, or `None`.
  `Text` holds the string operations they rely on: `", ".join`,
  `split("-")[0]` and the `A{row}:G{row}` range text of a row.
- **Destination index and batch write.** `SheetsService` and `Worksheet` model
  the time-bounded user-to-row index and `batch_update`. The batch splits
  updates into range updates for known users and appends for new ones, then
  extends the index with the appended rows. The sheet is modelled as rows of
  cells, so the invariant the service relies on, one row per user under a
  header, can be stated and proved to be kept.
- **Sync cycle.** `Sync` models `sync_all_users` and `sync_single_user`. The
  per-user fetches arrive in completion order and are classified into the
  success, failed and not-playing counters. The cycle then issues at most one
  batch write. `SyncCycle` feeds the fold from the credential store. Its user
  list must enumerate the store's users, as `get_authenticated_users` returns
  them; the order is a parameter. One worker per listed user runs
  `get_current_track`, and the workers' token refreshes are threaded through
  the store.
- **First-generation scripts.**
  - `LegacyTokens` models `auth/token_manager.py`: it reads the file on every
    call, refreshes with under a minute left, merges the provider's reply into
    the old record, and has no fallback.
  - `LegacySheet` models `sheets/sheets_client.py`: it finds a user's row by
    column A, writes column B, or appends a row.
  - `LegacyTrackSync` models `services/spotify_sync.py`.
  - `StatusSync` models `sheets/spotify_sync.py`. It has its own `load_tokens`
    (lines 8-16), which behaves exactly as `LegacyTokens.LoadTokens`.

The clock, the provider's refresh endpoint, the music API and the spreadsheet
API are explicit parameters:

- the time is `now: int`, and a formatted time is an opaque string;
- the remote calls are `provider`, `fetch` and `accepts`;
- the contents of the tokens file are a `Disk` value.

Dictionary iteration order and thread-pool completion order are parameters too.
Completion order does not change the metrics, whether the sheet is written, or
what any user's row holds. It does decide the sheet layout: users new to the
sheet are appended in completion order, so which row each of them gets depends
on it (`Sync.SyncOrderIndependent` and `Sync.SyncRowsOrderIndependent`).

Where the code and the system's specification differ, the model follows the code.
In `sync_all_users` (`services/sync_service.py:84`), the overall 30-second wait
of `as_completed` raises out of the cycle, uncaught, and no batch is written.
The specification counts timeouts as failed users. In the model, a
per-future `result(timeout=5)` that raises is a failed user, and an expired
overall wait is `Err(CollectTimedOut)`. The row a new user gets depends on
completion order, as described above.

## Model

| member | source | states |
|---|---|---|
| TokenData.EnumerationSize | services/sync_service.py:67-68 | a duplicate-free listing of a dict's keys has as many entries as the dict, so `len(user_ids)` is the number of stored users |
| TokenData.Merge | auth/token_manager.py:53 | the merged record has the keys of both records; the provider's values win, and every key the provider does not send keeps its old value |
| TokenCache.Create | auth/token_cache_manager.py:33-39 | a fresh manager holds no tokens, counts as never loaded, and keeps the configured interval |
| TokenCache.ReadDisk | auth/token_cache_manager.py:55-63 | a missing, unreadable or undecodable tokens file reloads as the empty map; a stored file reloads as its contents |
| TokenCache.Load | auth/token_cache_manager.py:45-66 | the disk is skipped exactly when the cache is non-empty and at most `interval` seconds old, and then nothing changes; otherwise the file's contents (or nothing) are cached and stamped with the current time |
| TokenCache.Save | auth/token_cache_manager.py:68-83 | write-through: the file receives the map and the cache holds the same map, stamped now |
| TokenCache.Invalidate | auth/token_cache_manager.py:85-88 | the contents are kept and only the load time is reset to the epoch |
| TokenCache.LoadAfterSave | auth/token_cache_manager.py:45-83 | a load within the interval after saving a map returns exactly that map; it rereads the disk only if the map was empty |
| TokenCache.InvalidateForcesReload | auth/token_cache_manager.py:41-43 | after invalidation, any load later than `interval` seconds past the epoch rereads the file and returns what it holds |
| TokenCache.LoadIsStable | auth/token_cache_manager.py:45-66 | two loads at the same instant against the same file return the same map |
| TokenCache.ReloadScenario | auth/token_cache_manager.py:25-43 | with the default 60-second interval and a non-empty file, loads at 0 s and 10 s read the disk once, and a load at 70 s reads it again |
| TokenCache.EmptyDiskAlwaysReloads | auth/token_cache_manager.py:52-53 | because an empty cache counts as stale, an empty tokens file is reread on every load |
| SpotifyTokens.LoadAll | auth/spotify_token_manager.py:28-30 | the map returned is the cache manager's load, and the tokens file is not touched |
| SpotifyTokens.SaveAll | auth/spotify_token_manager.py:33-35 | the file and the cache both hold the saved map afterwards |
| SpotifyTokens.GetUserToken | auth/spotify_token_manager.py:38-51 | the user's record is returned exactly when it is present and non-empty; otherwise the result is `NotAuthenticated` |
| SpotifyTokens.Fallback | auth/spotify_token_manager.py:113-118 | when the refresh fails, a token with time remaining is returned as is, an expired one gives `RefreshFailed`, and nothing is written |
| SpotifyTokens.EnsureUnknownUser | auth/spotify_token_manager.py:45-49 | a user with no usable record is rejected as `NotAuthenticated`, without calling the provider or writing the file |
| SpotifyTokens.EnsureFreshToken | auth/spotify_token_manager.py:94-98 | a token at least `buffer` seconds from expiry is returned unchanged, with no provider call and no write |
| SpotifyTokens.MissingExpiryForcesRefresh | auth/spotify_token_manager.py:94-104 | a missing `expires_at` counts as expiry at the epoch, so such a record with a refresh token always goes to the provider |
| SpotifyTokens.EnsureRefreshed | auth/spotify_token_manager.py:103-111 | a granted refresh returns the provider's record and stores it in place of the user's old one; every other user's record is unchanged |
| SpotifyTokens.EnsureMalformed | auth/spotify_token_manager.py:91-94 | a visible record whose `expires_at` is not a number raises `TypeError` before any refresh; the provider is not called and the file is untouched |
| SpotifyTokens.VisibleAfterLoad | auth/spotify_token_manager.py:28-30 | loading and then looking again at the same instant shows the same map |
| SpotifyTokens.VisibleAfterSave | auth/spotify_token_manager.py:33-35 | a save followed by a load at the same instant shows the saved map |
| SpotifyTokens.EnsureLocal | auth/spotify_token_manager.py:73-118 | two stores showing the same record for the user, or none, give the same answer and the same decision to call the provider |
| SpotifyTokens.EnsureVisible | auth/spotify_token_manager.py:91-118 | afterwards the store shows the map it showed before, with the user's record replaced by the returned one exactly when the provider was called and a record came back; the file is untouched or holds that map |
| SpotifyTokens.EnsureRefreshFailed | auth/spotify_token_manager.py:103-118 | a rejected refresh, or none possible for want of a refresh token, keeps a not-yet-expired token and gives `RefreshFailed` for an expired one; the file is untouched |
| SpotifyTokens.SaveUserToken | auth/spotify_token_manager.py:121-128 | the file afterwards has the visible users plus this one; this user has the new record and every other user keeps theirs |
| SpotifyTokens.GetAuthenticatedUsers | auth/spotify_token_manager.py:131-133 | the result lists every user of the visible map exactly once and nothing else, and the store left is the one `load_all_tokens` leaves |
| Playback.PlayingItem | services/spotify_client.py:99-104 | an item is formatted exactly when the response exists, says it is playing, and carries an item |
| Playback.ArtistNames | services/spotify_client.py:56 | the artist names in provider order; a nameless artist is a `KeyError` |
| Playback.ParseItem | services/spotify_client.py:54-59 | parsing succeeds exactly on an item with every key read. The fields are its name, the artists joined by ", ", the album name, the part of the release date before the first dash, and its link |
| Text.Join | services/spotify_client.py:56 | joining starts with the first part and has the length of the parts plus one separator between each pair |
| Text.JoinAppend | services/spotify_client.py:56 | joining two non-empty lists is joining each and putting one separator between them, so names keep their order |
| Text.YearOf | services/spotify_client.py:58 | the year is a dash-free prefix of the date that either is the whole date or is followed by a dash |
| Text.YearOfUnique | services/spotify_client.py:58 | any dash-free prefix followed by a dash or the end of the date is the year, so the contract determines the result |
| Text.YearOfIsoDate | services/spotify_client.py:58 | "2020-05-01" yields "2020" |
| Text.Digits | sheets/sheets_service.py:147 | a row number renders as a non-empty string of decimal digits with no leading zero (except "0" itself) that parses back to it |
| Text.RowRange | sheets/sheets_service.py:147 | the range is "A", the row's digits without leading zero, ":G" and the same digits again, so it spans columns A to G of that one row |
| Text.RowRangeInjective | sheets/sheets_service.py:147 | different rows are addressed by different ranges |
| Track.NewTrackInfo | services/spotify_client.py:24-38 | every field is kept; a falsy (absent or empty) timestamp is replaced by the clock's reading |
| Track.NotPlaying | services/spotify_client.py:40-49 | the sentinel has the title "Not playing", "—" in the four other descriptive fields, and the current time |
| Track.FromSpotifyResponse | services/spotify_client.py:51-60 | a track is built exactly from an item with every key read, carrying the parsed fields and the current time |
| Track.ToDict | services/spotify_client.py:62-71 | the dict has exactly the six keys, in sheet column order, each holding its field |
| Track.ToDictRoundTrip | services/spotify_client.py:62-71 | the track can be rebuilt from its dict |
| Track.GetCurrentTrack | services/spotify_client.py:88-115 | the credential store afterwards is whatever the token step left, even when a later step fails |
| Track.GetCurrentTrackFails | services/spotify_client.py:88-115 | `None` exactly when the token step fails, there is no access token, the call fails, or a playing item lacks a key; nothing is raised |
| Track.GetCurrentTrackSucceeds | services/spotify_client.py:99-107 | with a token and a successful call, an absent response, `is_playing` false or a missing item give the sentinel, and a playing item gives its track |
| SheetsService.NewSheetCache | sheets/sheets_service.py:26-29 | a new index cache is empty, set at the epoch, with the given time-to-live |
| SheetsService.CacheSet | sheets/sheets_service.py:41-45 | setting replaces the index and makes it fresh at that instant |
| SheetsService.CacheInvalidate | sheets/sheets_service.py:47-50 | invalidation keeps the index but makes it expired at any time after `ttl` |
| SheetsService.BuildIndexSound | sheets/sheets_service.py:82-86 | every indexed user sits in column A, at its 1-based row, below the header |
| SheetsService.BuildIndexComplete | sheets/sheets_service.py:82-86 | every value below the header is indexed |
| SheetsService.BuildIndexLastWins | sheets/sheets_service.py:82-86 | a name that occurs twice is indexed at its last row |
| SheetsService.BuildIndexSize | sheets/sheets_service.py:82-86 | with one row per user, the index has one entry per row below the header |
| SheetsService.IndexPointsAt | sheets/sheets_service.py:82-86 | with one row per user, the index sends each user to the row that holds it |
| SheetsService.RowFor | sheets/sheets_service.py:133-141 | the written row has seven cells: the user, then the six track keys in column order, each read with "—" as the default |
| SheetsService.RowForTrack | sheets/sheets_service.py:133-141 | a track's dict becomes the user followed by the track's fields in sheet order |
| SheetsService.NotPlayingRow | sheets/sheets_service.py:133-141 | the not-playing record fills its row with no empty cell, and "—" in the artists, album, year and link columns |
| SheetsService.RowForEmptyData | sheets/sheets_service.py:133-141 | an update with none of the keys still gives a full row of placeholders |
| SheetsService.Partition | sheets/sheets_service.py:132-152 | every update goes to exactly one list: a range at the indexed row of a known user, or an appended row for a new user |
| SheetsService.PartitionConcat | sheets/sheets_service.py:132-152 | submission order is kept: the plan for a concatenation is the concatenation of the plans |
| SheetsService.PartitionCovers | sheets/sheets_service.py:143-152 | every known user's seven cells become a range update at its row, and every new user's become an appended row |
| SheetsService.RangeSource | sheets/sheets_service.py:143-149 | each range update comes from the update of a known user |
| SheetsService.RowSource | sheets/sheets_service.py:150-152 | each appended row comes from the update of a new user |
| SheetsService.PartitionDistinct | sheets/sheets_service.py:132-152 | with one update per user, no user is appended twice or given two range updates |
| SheetsService.ExtendFrame | sheets/sheets_service.py:164-167 | index entries of users not appended keep their rows |
| SheetsService.ExtendConsecutive | sheets/sheets_service.py:164-167 | distinct appended users are indexed at consecutive rows, in submission order |
| SheetsService.BuildIndexAppend | sheets/sheets_service.py:164-167 | extending the index by the appended users gives the index of the sheet with those rows appended |
| SheetsService.BatchUpdate | sheets/sheets_service.py:104-169 | an empty batch makes no call and keeps the cache. Otherwise it makes one or two non-empty calls, range updates before appends, writing one row per update |
| SheetsService.Calls | sheets/sheets_service.py:154-162 | a call is made only for a non-empty list, and together the calls write every planned row |
| SheetsService.ApplyCalls | sheets/sheets_service.py:154-162 | the calls amount to the range updates in place followed by the appended rows |
| SheetsService.ApplyBatch | sheets/sheets_service.py:154-162 | the calls of `batch_update` amount to its plan's range updates followed by its appended rows |
| SheetsService.BatchExtendsIndex | sheets/sheets_service.py:164-169 | the cache keeps known users' rows and records the j-th appended user at row len(index) + 2 + j |
| SheetsService.RangesDistinctRows | sheets/sheets_service.py:143-156 | with one update per user, no two range entries of the batch address the same row, and no two send the same A1 range |
| SheetsService.BatchShape | sheets/sheets_service.py:154-162 | from a consistent state, the index used is the sheet's own, and column A gains exactly the appended users |
| SheetsService.BatchOneRowPerUser | sheets/sheets_service.py:143-167 | no user gains a second row |
| SheetsService.BatchCacheMatches | sheets/sheets_service.py:164-169 | the cache left behind is exactly the index of the sheet left behind |
| SheetsService.BatchWritesEveryUpdate | sheets/sheets_service.py:132-162 | every update's seven cells start the row the new index gives for its user |
| SheetsService.BatchLeavesOthers | sheets/sheets_service.py:143-162 | the row of every user outside the batch is left as it was |
| SheetsService.BatchKeepsOneRowPerUser | sheets/sheets_service.py:104-169 | the invariant of the service. It starts from one row per user and a cache that matches the sheet whenever trusted. A batch with one update per user then keeps both, writes every update at its user's indexed row, and leaves other users' rows untouched |
| SheetsService.ReplayUnchanged | sheets/sheets_service.py:143-162 | a batch whose rows are already in place issues only range updates, and they change nothing |
| SheetsService.BatchIdempotent | sheets/sheets_service.py:104-169 | replaying a batch against the sheet and cache it left behind changes nothing |
| SheetsService.UpdateSingle | sheets/sheets_service.py:171-176 | one update makes exactly one call: a range update at a known user's row, or an append for a new user, who is indexed at the next free row |
| Worksheet.ColumnA | sheets/sheets_service.py:79 | column A has one value per row: the row's first cell, or "" for an empty row |
| Worksheet.Overwrite | sheets/sheets_service.py:155-156 | a range update puts its values at the start of the row and leaves cells further right as they were |
| Worksheet.OverwriteIdempotent | sheets/sheets_service.py:155-156 | writing the same range twice is writing it once |
| Worksheet.DistinctRanges | sheets/sheets_service.py:143-148 | range entries address pairwise different rows exactly when the A1 range texts they send are pairwise different |
| Worksheet.ApplyRangesFrame | sheets/sheets_service.py:155-156 | a row no range update addresses is unchanged |
| Worksheet.ApplyRangesHit | sheets/sheets_service.py:155-156 | when updates address distinct rows, each addressed row ends up overwritten by its own update |
| Worksheet.ApplyRangesKeepsColumnA | sheets/sheets_service.py:155-156 | range updates that rewrite each row with the user already in its column A leave column A unchanged |
| Worksheet.ApplyRangesUnchanged | sheets/sheets_service.py:155-156 | range updates whose values already start their rows change nothing |
| Sync.FetchUserTrack | services/sync_service.py:30-42 | the user id is passed through, and an exception becomes a failed (`None`) outcome |
| Sync.ClassifyIsTally | services/sync_service.py:84-108 | each counter counts the completions of its kind, and the update list gathers one update per completion with a track, in completion order |
| Sync.ClassifyAccounts | services/sync_service.py:84-108 | each completion is counted exactly once, and the updates are the successes plus the not-playing results |
| Sync.ClassifyOrderIndependent | services/sync_service.py:84-108 | any completion order gives the same counters and the same updates up to their order |
| Sync.ClassifyCovers | services/sync_service.py:84-108 | each update belongs to a completion with a track, and each such completion's update is collected |
| Sync.ClassifyDistinct | services/sync_service.py:84-108 | users who complete once each get one update each |
| Sync.SyncNoUsers | services/sync_service.py:67-72 | with no authenticated users, every counter is zero and nothing is written |
| Sync.SyncAccounts | services/sync_service.py:64-108 | `total` is the number of users, and each is counted once across success, failed and not-playing |
| Sync.SyncWriteDecision | services/sync_service.py:110-120 | the sheet is written exactly when updates were collected in time, and a failed write fails the cycle. An overall timeout fails it before any write, and a cycle that does not write leaves the sheet and cache alone |
| Sync.SyncOrderIndependent | services/sync_service.py:79-108 | the completion order changes neither the metrics nor whether the sheet is written |
| Sync.SyncRowsOrderIndependent | services/sync_service.py:79-120 | in two runs over the same completions in different orders, every fetched track is in its user's row in both, as each run's index gives it; only the position of new users' rows may differ |
| Sync.TrackRowWritten | services/sync_service.py:96 | a written track update puts the user and the track's fields, in sheet order, at the start of the user's indexed row |
| Sync.SyncKeepsOneRowPerUser | services/sync_service.py:51-122 | end to end, a cycle with one completion per user keeps one row per user and a matching cache, and writes every fetched track into its user's row |
| Sync.SyncSingleUserResult | services/sync_service.py:124-147 | reports success exactly when a track was fetched and the write went through. On success the sheet keeps one row per user, the cache is exactly the new sheet's index, and the user's row holds the track; on failure nothing changes |
| Sync.Worker | services/sync_service.py:30-42 | one future: the user's completion always finishes, with the track `get_current_track` gives, and the store is what the token step left |
| Sync.Workers | services/sync_service.py:79-82 | one completion per listed user |
| Sync.WorkerLocal | services/sync_service.py:30-42 | a worker's completion, and the record it leaves for its user, depend only on that user's visible record |
| Sync.WorkerEffect | services/sync_service.py:30-42 | a worker changes no other user's record, and the file is untouched or holds exactly the map then shown |
| Sync.WorkersOwnRecords | services/sync_service.py:79-82 | workers for distinct users do not interfere: each completion is the one its worker gives alone from the starting store, each user's record ends as its own worker leaves it, other records are kept |
| Sync.SyncCycleOwnRecords | services/sync_service.py:51-122 | from the credential store to the sheet, with the users listed as `get_authenticated_users` lists them: `total` is the number of users in the store and the counters add up to it, each user's track is the one `get_current_track` gives from the starting store and sits in the user's row, each user's record ends as its own token step leaves it, and the sheet keeps one row per user with a matching cache |
| LegacyTokens.LoadTokens | auth/token_manager.py:16-23 | a missing or undecodable file reads as no tokens, a stored file as its contents, and only an I/O error escapes |
| LegacyTokens.EnsureValidToken | auth/token_manager.py:40-58 | the tokens file is either unchanged or differs only in this user's record, which becomes the returned record |
| LegacyTokens.EnsureValidTokenLocal | auth/token_manager.py:42-55 | only the user's own record matters: two files that agree on it give the same answer and leave the same record |
| LegacyTokens.LegacyErrors | auth/token_manager.py:42-49 | an absent or empty record is `ValueError`, a missing `expires_at` is a `KeyError` rather than an expired token, and every error leaves the file alone |
| LegacyTokens.LegacyNoRefresh | auth/token_manager.py:49-58 | a token with at least 60 seconds left is returned as stored and the file is not rewritten |
| LegacyTokens.LegacyRefreshMerges | auth/token_manager.py:49-55 | on refresh, the provider's keys overwrite and other keys (the refresh token among them) are kept. The merged record is stored under the same user and no other user's record changes |
| LegacyTokens.LegacyNoFallback | auth/token_manager.py:49-52 | a rejected refresh propagates even when the token has not yet expired |
| LegacySheet.Find | sheets/sheets_client.py:30-34 | the row found is the first whose column A is the name; none is found exactly when no row has it |
| LegacySheet.SetCell | sheets/sheets_client.py:35 | the target cell takes the value, other cells are kept, and a short row is padded with blanks |
| LegacySheet.UpdateSheetRow | sheets/sheets_client.py:25-37 | a listed user's column B is set and no other row changes; an unlisted user gets `[name, status]` appended |
| LegacySheet.UpdateShape | sheets/sheets_client.py:25-37 | column A of existing rows is never rewritten, and one row is added exactly when the name was missing |
| LegacySheet.UpdateThenRead | sheets/sheets_client.py:25-37 | reading a user's status after writing it gives the status written |
| LegacySheet.UpdateLeavesOthers | sheets/sheets_client.py:25-37 | writing one user leaves every other user's row and status unchanged |
| LegacySheet.UpdateIdempotent | sheets/sheets_client.py:25-37 | writing the same status twice is writing it once |
| LegacySheet.WriteAllStatus | services/spotify_sync.py:54-60 | when each user appears once in a series of writes, every written status is on the sheet afterwards, and a user not written shows what it showed before |
| LegacyTrackSync.NotPlayingDict | services/spotify_sync.py:15-23 | the not-playing dict has the six keys, "Not playing", the current time, and "—" elsewhere |
| LegacyTrackSync.DictFor | services/spotify_sync.py:15-40 | the dict has the six keys, and is missing exactly for a playing item that lacks a key |
| LegacyTrackSync.DictForAgrees | services/spotify_sync.py:15-40 | the legacy dict equals `to_dict` of the track the newer client builds from the same response |
| LegacyTrackSync.TrackDict | services/spotify_sync.py:6-40 | the tokens file afterwards is what the token step left, even when a later step raises |
| LegacyTrackSync.TrackDictFails | services/spotify_sync.py:11-40 | an exception exactly when the token step raises, there is no access token, the call fails, or a playing item lacks a key |
| LegacyTrackSync.Iteration | services/spotify_sync.py:54-60 | a user's cell is written exactly when the dict was built and the sheet accepted it, and the cell is that dict |
| LegacyTrackSync.IterationLocal | services/spotify_sync.py:54-57 | an iteration depends only on the user's own record |
| LegacyTrackSync.IterationFrame | services/spotify_sync.py:54-57 | an iteration keeps the same users in the file and changes no other user's record |
| LegacyTrackSync.ProcessUsers | services/spotify_sync.py:54-60 | each user's outcome and final record are those it would have had against the file as first read, whatever the iteration order. The sheet shows each written cell, and other users are unchanged |
| LegacyTrackSync.SyncSpotifyToSheets | services/spotify_sync.py:43-60 | an unreadable file raises before any write, and a missing or empty one writes nothing. Otherwise every user is processed once, as `ProcessUsers` states |
| StatusSync.TitleLine | sheets/spotify_sync.py:32-34 | a status line exists exactly when the item has a name and every artist has a name |
| StatusSync.TitleLineAgrees | sheets/spotify_sync.py:32-34 | whenever the name and every artist name are present, whatever the album, the line is the name, " — " and the artist names joined by ", "; on a complete item that is the same title and artists the full formatters produce |
| StatusSync.CurrentStatusCases | sheets/spotify_sync.py:18-34 | an exception exactly when there is no access token, the call fails, or a playing item lacks its name or an artist's name; "Not playing" exactly when nothing is playing |
| StatusSync.Stamped | sheets/spotify_sync.py:52-53 | the written text is the status followed by " (as of <time>)" |
| StatusSync.Iteration | sheets/spotify_sync.py:49-56 | a user's cell is written exactly when a status was obtained and the sheet accepted it, and it holds the stamped status |
| StatusSync.SyncSpotifyToSheets | sheets/spotify_sync.py:37-56 | an unreadable file raises before any write, and a missing or empty one writes nothing. Otherwise each user is processed once from its own record, every written status is on the sheet, and other users are unchanged |

## Left out

- `main.py`, `auth/spotify_oauth.py`, `utils/scheduler.py` and `services/user_status.py` are not part of this model: the web routes, the OAuth login flow, the periodic driver and the status endpoint are outside the core.
- `ensure_headers`, `_get_worksheet`, `get_sheet`, `get_user_profile`, `create_spotify_oauth_for_user`, `get_spotify_oauth` and `shutdown_sync_executor` are left out because they only set up connections, read profiles or manage the thread pool.
- Logging and `print` are left out because they have no effect on state.
- The thread pool is not modelled. Fetches are a sequence in completion order. The metrics, the write decision and every user's row contents are proved independent of that order; the position of a new user's row is not, since new users are appended in completion order. The 5-second per-future timeout is a `ResultTimedOut` outcome. The 30-second overall wait is the `inTime` flag.
- Sync.SyncCycle: the workers run one after another at one instant `now` with one clock reading, so their token steps never overlap. In the source they run concurrently, and the lost update described next can drop a refreshed token.
- Concurrency is left out, and every operation is modelled as atomic. This is an assumption, not something the locks provide. Each lock guards one cache method, not a sequence of them. `ensure_valid_token` loads, sets and saves the map (`auth/spotify_token_manager.py:107-109`) with no lock across the three steps, so two concurrent refreshes can each save a map without the other's new token. `batch_update` reads the index (`sheets/sheets_service.py:122-126`) and sets the extended one after its calls (`sheets/sheets_service.py:164-169`) with no lock between, so two concurrent batches can both append the same new user, or overwrite each other's index.
- Sync.SyncAllUsers: a cycle whose `batch_update` raises is `Err(WriteFailed)` and carries no sheet or cache. What a partly completed write leaves behind is not modelled: a refreshed index, or range updates applied before a failed append. Where the spreadsheet API fails inside a call cannot be seen in this code.
- Sync.SyncSingleUser: a raising `update_single` is modelled as changing neither the sheet nor the cache. A write that fails part-way is not modelled, for the same reason as above.
- TokenCache.ReadDisk: only a missing file, an operating-system I/O error and invalid JSON are modelled. `load()` catches only `JSONDecodeError` and `IOError` (`auth/token_cache_manager.py:62`). A file that is not valid UTF-8 makes the read raise `UnicodeDecodeError`, which escapes `load()` in the source; the model has no state for that case. A JSON root that is not an object, such as `[]`, is cached as it is in the source and fails later at `.get`; the model's `Stored` always holds a map from users to records. The legacy `load_tokens` lets both of these escape as errors, which its `Unreadable` case already covers.
- LegacyTokens.EnsureValidToken: a `save_tokens` that raises (`auth/token_manager.py:26-28`, called at line 55) is not modelled. In the source the exception leaves `ensure_valid_token`, so the legacy loop (`services/spotify_sync.py:59`) reports the user as failed, and the file, opened with `"w"`, may be left empty or half-written. The model's granted branch always succeeds and stores the merged record.
- SpotifyTokens.SaveAll: a write of the tokens file that raises is not modelled. The save always succeeds in the model.
- SpotifyTokens.EnsureRefreshed: a failure of the load or save that follows a granted refresh (`auth/spotify_token_manager.py:107-109`) is not modelled. In the source it is caught at line 113 and handled like a rejected refresh: the old token is returned if `expires_in > 0`, otherwise `TokenRefreshError` is raised. The model assumes the save succeeds.
- JSON floats and booleans in `expires_at` are not modelled. `Json` distinguishes integers, strings and everything else, and a non-number `expires_at` is the `TypeError` case (`Malformed`).
- SpotifyTokens.EnsureValidToken has no `ensures` of its own. Its behaviour is stated case by case by the lemmas `EnsureUnknownUser`, `EnsureMalformed`, `EnsureFreshToken`, `MissingExpiryForcesRefresh`, `EnsureRefreshed` and `EnsureRefreshFailed`, and its effect on the store by `EnsureLocal` and `EnsureVisible`.
- Worksheet.ColumnA: gspread's `col_values` drops trailing empty cells. The model keeps one value per row, reading an empty row as "". This matters only for rows with an empty column A at the end of the sheet.
- Worksheet.SetRow: a range update for a row past the end of the sheet is a no-op in the model. The spreadsheet API would write the row, growing the grid, or raise. This can happen when the trusted index is stale because rows were deleted within the 30-second TTL.
- Worksheet.Apply: appended rows go directly after the last row of the model's sheet. gspread's detection of the table's extent, which decides where `append_rows` really writes, is not modelled.
- LegacySheet.UpdateSheetRow: `append_row` is modelled as appending after the last row. gspread's detection of the table's extent is not modelled.
- Whether the spreadsheet API accepts a whole track dict as a cell value (which `services/spotify_sync.py` passes) is not decided. The `accepts` parameter says per user whether the write goes through.
- The legacy sheet helper searches the header row like any other row. This follows the code, which does not skip it.
- `SheetCache.get` returns a copy of the index. Values are immutable in the model, so this needs no separate treatment.
- `batch_update` derives the row of appended users from `len(user_index) + 2`. That is right only when column A holds one row per user. The invariant lemmas assume such a sheet, which is the state the service itself maintains.
