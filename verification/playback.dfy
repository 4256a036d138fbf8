/**
  The part of the music provider's "currently playing" response the
  formatters read, and the field extraction they share. A JSON key that may be
  absent is an `Option`; reading an absent key is Python's `KeyError`.
 */
module Playback {
  import opened Results
  import Text

  datatype Artist = Artist(name: Option<string>)

  datatype Album = Album(name: Option<string>, releaseDate: Option<string>)

  /** `item`; `spotifyUrl` is `item["external_urls"]["spotify"]`. A falsy item (`null` or `{}`)
      is modelled by the absence of the item, not by an `Item` value. */
  datatype Item = Item(name: Option<string>, artists: Option<seq<Artist>>,
                       album: Option<Album>, spotifyUrl: Option<string>)

  /** The response of `current_user_playing_track` when it is a non-empty object;
      a missing `is_playing` reads as false. */
  datatype Current = Current(isPlaying: bool, item: Option<Item>)

  /** The outcome of the remote call: an error, or the (possibly absent) response. */
  datatype FetchReply = FetchFailed | Fetched(current: Option<Current>)

  /** The item to format, present exactly when the response exists, says it is playing,
      and carries an item. */
  function PlayingItem(current: Option<Current>): (r: Option<Item>)
    ensures r.Some? <==> current.Some? && current.value.isPlaying && current.value.item.Some?
    ensures r.Some? ==> r == current.value.item
  {
    if current.Some? && current.value.isPlaying then current.value.item else None
  }

  /** `[a["name"] for a in artists]`, or `None` for the `KeyError` of an artist without a name. */
  function ArtistNames(artists: seq<Artist>): (r: Option<seq<string>>)
    ensures r.Some? <==> forall i :: 0 <= i < |artists| ==> artists[i].name.Some?
    ensures r.Some? ==> |r.value| == |artists|
    ensures r.Some? ==> forall i :: 0 <= i < |artists| ==> r.value[i] == artists[i].name.value
  {
    if |artists| == 0 then Some([])
    else
      match (artists[0].name, ArtistNames(artists[1..]))
      case (Some(n), Some(rest)) => Some([n] + rest)
      case _ => None
  }

  /** The five display fields read from an item. */
  datatype Fields = Fields(track: string, artists: string, album: string, year: string, link: string)

  /** Every key the full formatters read is present. */
  predicate Complete(item: Item) {
    && item.name.Some?
    && item.artists.Some? && ArtistNames(item.artists.value).Some?
    && item.album.Some? && item.album.value.name.Some? && item.album.value.releaseDate.Some?
    && item.spotifyUrl.Some?
  }

  /** The field extraction shared by `TrackInfo.from_spotify_response` and the legacy dict
      formatter: artist names joined by ", " in provider order, the year cut from the release
      date. `None` is the `KeyError` a missing key raises. */
  function ParseItem(item: Item): (r: Option<Fields>)
    ensures r.Some? <==> Complete(item)
    ensures r.Some? ==> r.value.track == item.name.value && r.value.album == item.album.value.name.value
    ensures r.Some? ==> r.value.artists == Text.Join(ArtistNames(item.artists.value).value, ", ")
    ensures r.Some? ==> var date := item.album.value.releaseDate.value;
                        && r.value.year <= date && '-' !in r.value.year
                        && (r.value.year == date || date[|r.value.year|] == '-')
    ensures r.Some? ==> r.value.link == item.spotifyUrl.value
  {
    if !Complete(item) then None
    else
      var album := item.album.value;
      Some(Fields(item.name.value, Text.Join(ArtistNames(item.artists.value).value, ", "),
                  album.name.value, Text.YearOf(album.releaseDate.value), item.spotifyUrl.value))
  }
}
