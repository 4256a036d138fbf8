/**
  `services/spotify_client.py`: the `TrackInfo` value object and
  `SpotifyClientService.get_current_track`, which turns a user's credential and
  the provider's response into a track, the not-playing sentinel, or `None`.
 */
module Track {
  import opened Results
  import opened TokenData
  import opened Playback
  import SpotifyTokens

  /** The track title written when nothing is playing. */
  const NotPlayingTitle: string := "Not playing"

  /** The placeholder written for every other field that has no value. */
  const Sentinel: string := "—"

  /** `TrackInfo`. `timestamp` is the formatted capture time, an opaque string here. */
  datatype TrackInfo = TrackInfo(track: string, artists: string, album: string,
                                 year: string, link: string, timestamp: string)

  /** The constructor: a supplied timestamp is kept verbatim, but an absent or empty one
      (falsy in Python) is replaced by the clock's current reading. */
  function NewTrackInfo(track: string, artists: string, album: string, year: string, link: string,
                        timestamp: Option<string>, clock: string): (t: TrackInfo)
    ensures t.track == track && t.artists == artists && t.album == album
    ensures t.year == year && t.link == link
    ensures timestamp.Some? && timestamp.value != "" ==> t.timestamp == timestamp.value
    ensures timestamp.None? || timestamp.value == "" ==> t.timestamp == clock
  {
    var stamp := if timestamp.Some? && timestamp.value != "" then timestamp.value else clock;
    TrackInfo(track, artists, album, year, link, stamp)
  }

  /** `TrackInfo.not_playing()`. */
  function NotPlaying(clock: string): (t: TrackInfo)
    ensures t.track == NotPlayingTitle
    ensures t.artists == Sentinel && t.album == Sentinel && t.year == Sentinel && t.link == Sentinel
    ensures t.timestamp == clock
  {
    NewTrackInfo(NotPlayingTitle, Sentinel, Sentinel, Sentinel, Sentinel, None, clock)
  }

  /** `TrackInfo.from_spotify_response(item)`; `None` is the `KeyError` of a missing key. */
  function FromSpotifyResponse(item: Item, clock: string): (r: Option<TrackInfo>)
    ensures r.Some? <==> Complete(item)
    ensures r.Some? ==> var f := ParseItem(item).value;
                        r.value == TrackInfo(f.track, f.artists, f.album, f.year, f.link, clock)
  {
    match ParseItem(item)
    case None => None
    case Some(f) => Some(NewTrackInfo(f.track, f.artists, f.album, f.year, f.link, None, clock))
  }

  /** The keys of `to_dict`, in the column order of the destination sheet. */
  const TrackKeys: seq<string> := ["track", "artists", "album", "year", "link", "timestamp"]

  /** The field of `t` that `to_dict` stores under `TrackKeys[k]`. */
  function FieldAt(t: TrackInfo, k: nat): string
    requires k < 6
  {
    [t.track, t.artists, t.album, t.year, t.link, t.timestamp][k]
  }

  /** `to_dict`: exactly the six keys, each holding the matching field. */
  function ToDict(t: TrackInfo): (d: map<string, string>)
    ensures d.Keys == set k | k in TrackKeys
    ensures forall k :: 0 <= k < 6 ==> d[TrackKeys[k]] == FieldAt(t, k)
  {
    map["track" := t.track, "artists" := t.artists, "album" := t.album,
        "year" := t.year, "link" := t.link, "timestamp" := t.timestamp]
  }

  /** `to_dict` loses nothing: the record can be rebuilt from the dict. */
  lemma ToDictRoundTrip(t: TrackInfo)
    ensures var d := ToDict(t);
            TrackInfo(d["track"], d["artists"], d["album"], d["year"], d["link"], d["timestamp"]) == t
  {
  }

  /** `get_current_track`: the returned track (or `None`) and the credential store afterwards,
      which a refresh may have rewritten even when a later step fails. */
  function GetCurrentTrack(s: SpotifyTokens.Store, user: UserId, now: int,
                           provider: Json -> SpotifyTokens.RefreshReply,
                           fetch: Json -> FetchReply, clock: string): (r: (Option<TrackInfo>, SpotifyTokens.Store))
    ensures r.1 == SpotifyTokens.EnsureValidToken(s, user, now, SpotifyTokens.DefaultRefreshBuffer, provider).store
  {
    var e := SpotifyTokens.EnsureValidToken(s, user, now, SpotifyTokens.DefaultRefreshBuffer, provider);
    if e.result.Err? || "access_token" !in e.result.value then (None, e.store)
    else
      match fetch(e.result.value["access_token"])
      case FetchFailed => (None, e.store)
      case Fetched(current) =>
        match PlayingItem(current)
        case None => (Some(NotPlaying(clock)), e.store)
        case Some(item) => (FromSpotifyResponse(item, clock), e.store)
  }

  /** The credential usable for the provider call, if the token step yields one. */
  function AccessToken(s: SpotifyTokens.Store, user: UserId, now: int,
                       provider: Json -> SpotifyTokens.RefreshReply): Option<Json>
  {
    var e := SpotifyTokens.EnsureValidToken(s, user, now, SpotifyTokens.DefaultRefreshBuffer, provider);
    if e.result.Ok? && "access_token" in e.result.value then Some(e.result.value["access_token"]) else None
  }

  /** Every failure, from the token step, a missing access token, the remote call or a missing
      response field, becomes `None`; nothing is raised. */
  lemma GetCurrentTrackFails(s: SpotifyTokens.Store, user: UserId, now: int,
                             provider: Json -> SpotifyTokens.RefreshReply,
                             fetch: Json -> FetchReply, clock: string)
    ensures var token := AccessToken(s, user, now, provider);
            var r := GetCurrentTrack(s, user, now, provider, fetch, clock).0;
            r.None? <==>
              || token.None?
              || fetch(token.value).FetchFailed?
              || (PlayingItem(fetch(token.value).current).Some?
                  && !Complete(PlayingItem(fetch(token.value).current).value))
  {
  }

  /** With a usable token and a successful call, an absent response, `is_playing` false, or a
      missing item all give the not-playing sentinel; a complete playing item gives its track. */
  lemma GetCurrentTrackSucceeds(s: SpotifyTokens.Store, user: UserId, now: int,
                                provider: Json -> SpotifyTokens.RefreshReply,
                                fetch: Json -> FetchReply, clock: string)
    requires AccessToken(s, user, now, provider).Some?
    requires fetch(AccessToken(s, user, now, provider).value).Fetched?
    ensures var current := fetch(AccessToken(s, user, now, provider).value).current;
            var r := GetCurrentTrack(s, user, now, provider, fetch, clock).0;
            && ((current.None? || !current.value.isPlaying || current.value.item.None?)
                ==> r == Some(NotPlaying(clock)))
            && (PlayingItem(current).Some? ==> r == FromSpotifyResponse(PlayingItem(current).value, clock))
  {
  }
}
