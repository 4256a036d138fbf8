/**
  The credential refresher (`auth/spotify_token_manager.py`): user lookup,
  the refresh decision with its stale-token fallback, and the two writers of
  the token map. All reads and writes go through the process-wide
  `TokenCache` in front of the tokens file.
 */
module SpotifyTokens {
  import opened Results
  import opened TokenData
  import TokenCache

  /** Seconds before expiry at which a refresh is attempted (`refresh_buffer_sec`). */
  const DefaultRefreshBuffer: int := 300

  /** The credential cache together with the tokens file behind it. */
  datatype Store = Store(cache: TokenCache.Cache, disk: Disk)

  /** The exceptions the module lets escape. */
  datatype AuthError =
    | NotAuthenticated  // `ValueError`: no (or an empty) record for the user
    | RefreshFailed     // `TokenRefreshError`: refresh failed and the token has expired
    | Malformed         // `TypeError`: `expires_at` holds something that is not a number

  /** The provider's answer to `refresh_access_token`. */
  datatype RefreshReply = Granted(record: Record) | Rejected

  /** `load_all_tokens`. */
  function LoadAll(s: Store, now: int): (r: (Tokens, Store))
    ensures r.0 == TokenCache.Load(s.cache, s.disk, now).tokens
    ensures r.1.disk == s.disk
  {
    var l := TokenCache.Load(s.cache, s.disk, now);
    (l.tokens, Store(l.cache, s.disk))
  }

  /** `save_all_tokens`. */
  function SaveAll(s: Store, tokens: Tokens, now: int): (r: Store)
    ensures r.disk == Stored(tokens)
    ensures r.cache.tokens == tokens && r.cache.lastLoad == now
  {
    var (c, d) := TokenCache.Save(s.cache, tokens, now);
    Store(c, d)
  }

  /** The map every operation below sees first. */
  function Visible(s: Store, now: int): Tokens {
    TokenCache.Load(s.cache, s.disk, now).tokens
  }

  /** `get_user_token`: the stored record, or `ValueError` when it is absent or empty. */
  function GetUserToken(s: Store, user: UserId, now: int): (r: (Result<Record, AuthError>, Store))
    ensures var t := Visible(s, now);
            && (r.0.Ok? <==> user in t && Truthy(t[user]))
            && (r.0.Ok? ==> r.0.value == t[user])
            && (r.0.Err? ==> r.0.error == NotAuthenticated)
    ensures r.1.disk == s.disk
  {
    var (tokens, s1) := LoadAll(s, now);
    if user in tokens && Truthy(tokens[user]) then (Ok(tokens[user]), s1)
    else (Err(NotAuthenticated), s1)
  }

  /** `token_info.get("expires_at", 0)`: a missing expiry counts as the epoch. */
  function ExpiresAt(r: Record): Json {
    Field(r, "expires_at").GetOr(Num(0))
  }

  /** The outcome of `ensure_valid_token`: what it returns or raises, the new store,
      and whether the provider was asked to refresh. */
  datatype Ensured = Ensured(result: Result<Record, AuthError>, store: Store, refreshCalled: bool)

  /** The `except` branch: keep a token that has not yet expired, otherwise give up. */
  function Fallback(record: Record, remaining: int, s: Store, called: bool): (e: Ensured)
    ensures e.store == s && e.refreshCalled == called
    ensures remaining > 0 ==> e.result == Ok(record)
    ensures remaining <= 0 ==> e.result == Err(RefreshFailed)
  {
    if remaining > 0 then Ensured(Ok(record), s, called)
    else Ensured(Err(RefreshFailed), s, called)
  }

  /** `ensure_valid_token`. A missing `refresh_token` raises `KeyError` inside the `try`
      and so takes the same fallback as a rejected refresh, without calling the provider. */
  function EnsureValidToken(s: Store, user: UserId, now: int, buffer: int,
                            provider: Json -> RefreshReply): (e: Ensured)
  {
    var (got, s1) := GetUserToken(s, user, now);
    if got.Err? then Ensured(Err(got.error), s1, false)
    else
      var record := got.value;
      var expiry := ExpiresAt(record);
      if !expiry.Num? then Ensured(Err(Malformed), s1, false)
      else
        var remaining := expiry.n - now;
        if remaining >= buffer then Ensured(Ok(record), s1, false)
        else if "refresh_token" !in record then Fallback(record, remaining, s1, false)
        else
          match provider(record["refresh_token"])
          case Rejected => Fallback(record, remaining, s1, true)
          case Granted(refreshed) =>
            var (tokens, s2) := LoadAll(s1, now);
            Ensured(Ok(refreshed), SaveAll(s2, tokens[user := refreshed], now), true)
  }

  /** A user without a usable record is rejected before anything else happens. */
  lemma EnsureUnknownUser(s: Store, user: UserId, now: int, buffer: int, provider: Json -> RefreshReply)
    requires user !in Visible(s, now) || !Truthy(Visible(s, now)[user])
    ensures var e := EnsureValidToken(s, user, now, buffer, provider);
            e.result == Err(NotAuthenticated) && !e.refreshCalled && e.store.disk == s.disk
  {
  }

  /** Far enough from expiry: the stored record comes back unchanged, with no provider
      call and no write to the tokens file. */
  lemma EnsureFreshToken(s: Store, user: UserId, now: int, buffer: int, provider: Json -> RefreshReply)
    requires user in Visible(s, now) && Truthy(Visible(s, now)[user])
    requires ExpiresAt(Visible(s, now)[user]).Num?
    requires ExpiresAt(Visible(s, now)[user]).n - now >= buffer
    ensures var e := EnsureValidToken(s, user, now, buffer, provider);
            e.result == Ok(Visible(s, now)[user]) && !e.refreshCalled && e.store.disk == s.disk
  {
  }

  /** A record without `expires_at` behaves as one that expired at time 0: with a positive
      clock and a non-negative buffer it is always sent to the provider when it has a refresh token. */
  lemma MissingExpiryForcesRefresh(s: Store, user: UserId, now: int, buffer: int, provider: Json -> RefreshReply)
    requires user in Visible(s, now) && Truthy(Visible(s, now)[user])
    requires "expires_at" !in Visible(s, now)[user]
    requires "refresh_token" in Visible(s, now)[user]
    requires now > 0 && buffer >= 0
    ensures EnsureValidToken(s, user, now, buffer, provider).refreshCalled
  {
  }

  /** A successful refresh returns the provider's record and stores it in place of the old
      one, leaving every other user's record as it was. */
  lemma EnsureRefreshed(s: Store, user: UserId, now: int, buffer: int, provider: Json -> RefreshReply)
    requires user in Visible(s, now) && Truthy(Visible(s, now)[user])
    requires var rec := Visible(s, now)[user];
             ExpiresAt(rec).Num? && ExpiresAt(rec).n - now < buffer
             && "refresh_token" in rec && provider(rec["refresh_token"]).Granted?
    ensures var t := Visible(s, now);
            var refreshed := provider(t[user]["refresh_token"]).record;
            var e := EnsureValidToken(s, user, now, buffer, provider);
            && e.result == Ok(refreshed)
            && e.refreshCalled
            && e.store.disk == Stored(t[user := refreshed])
            && (forall u :: u in t && u != user ==> u in e.store.disk.tokens && e.store.disk.tokens[u] == t[u])
  {
    var (got, s1) := GetUserToken(s, user, now);
    TokenCache.LoadIsStable(s.cache, s.disk, now);
    assert LoadAll(s1, now).0 == Visible(s, now);
  }

  /** A failed refresh (or one impossible for want of a refresh token) keeps a token that
      has not yet expired and raises `TokenRefreshError` for one that has; the tokens file is
      untouched either way. */
  lemma EnsureRefreshFailed(s: Store, user: UserId, now: int, buffer: int, provider: Json -> RefreshReply)
    requires user in Visible(s, now) && Truthy(Visible(s, now)[user])
    requires var rec := Visible(s, now)[user];
             ExpiresAt(rec).Num? && ExpiresAt(rec).n - now < buffer
             && ("refresh_token" !in rec || provider(rec["refresh_token"]).Rejected?)
    ensures var rec := Visible(s, now)[user];
            var e := EnsureValidToken(s, user, now, buffer, provider);
            && e.store.disk == s.disk
            && (ExpiresAt(rec).n > now ==> e.result == Ok(rec))
            && (ExpiresAt(rec).n <= now ==> e.result == Err(RefreshFailed))
  {
  }

  /** An `expires_at` that is not a number raises `TypeError` before any refresh is attempted,
      and the tokens file is untouched. */
  lemma EnsureMalformed(s: Store, user: UserId, now: int, buffer: int, provider: Json -> RefreshReply)
    requires user in Visible(s, now) && Truthy(Visible(s, now)[user])
    requires !ExpiresAt(Visible(s, now)[user]).Num?
    ensures var e := EnsureValidToken(s, user, now, buffer, provider);
            e.result == Err(Malformed) && !e.refreshCalled && e.store.disk == s.disk
  {
  }

  /** Loading at an instant and looking again at the same instant shows the same map. */
  lemma VisibleAfterLoad(s: Store, now: int)
    ensures Visible(LoadAll(s, now).1, now) == Visible(s, now)
  {
    TokenCache.LoadIsStable(s.cache, s.disk, now);
  }

  /** A save followed by a look at the same instant shows the saved map. */
  lemma VisibleAfterSave(s: Store, tokens: Tokens, now: int)
    ensures Visible(SaveAll(s, tokens, now), now) == tokens
  {
  }

  /** `ensure_valid_token` reads nothing but the user's own record: two stores that show the
      same record for the user, or none, give the same answer and the same refresh decision. */
  lemma EnsureLocal(s1: Store, s2: Store, user: UserId, now: int, buffer: int, provider: Json -> RefreshReply)
    requires AgreeAt(Visible(s1, now), Visible(s2, now), user)
    ensures EnsureValidToken(s1, user, now, buffer, provider).result
            == EnsureValidToken(s2, user, now, buffer, provider).result
    ensures EnsureValidToken(s1, user, now, buffer, provider).refreshCalled
            == EnsureValidToken(s2, user, now, buffer, provider).refreshCalled
  {
  }

  /** What `ensure_valid_token` leaves behind, seen at the same instant: the map shown before,
      with the user's record replaced by the returned one when the provider was asked and a
      record came back. The tokens file is either untouched, with nothing visibly changed, or
      holds exactly the map now shown. */
  lemma EnsureVisible(s: Store, user: UserId, now: int, buffer: int, provider: Json -> RefreshReply)
    ensures var e := EnsureValidToken(s, user, now, buffer, provider);
            var before := Visible(s, now);
            var after := Visible(e.store, now);
            && (e.refreshCalled && e.result.Ok? ==> after == before[user := e.result.value])
            && (!(e.refreshCalled && e.result.Ok?) ==> after == before)
            && ((e.store.disk == s.disk && after == before) || e.store.disk == Stored(after))
  {
    var e := EnsureValidToken(s, user, now, buffer, provider);
    var (got, s1) := GetUserToken(s, user, now);
    VisibleAfterLoad(s, now);
    if got.Ok? && e.refreshCalled && e.store != s1 {
      var record := got.value;
      var refreshed := provider(record["refresh_token"]).record;
      var (tokens, s2) := LoadAll(s1, now);
      VisibleAfterSave(s2, tokens[user := refreshed], now);
    } else if got.Ok? && e.result.Ok? {
      assert Visible(s, now)[user := got.value] == Visible(s, now);
    }
  }

  /** `save_user_token`: the user's record is set, every other record is kept. */
  function SaveUserToken(s: Store, user: UserId, record: Record, now: int): (r: Store)
    ensures var t := Visible(s, now);
            && r.disk.Stored?
            && r.disk.tokens.Keys == t.Keys + {user}
            && r.disk.tokens[user] == record
            && (forall u :: u in t && u != user ==> r.disk.tokens[u] == t[u])
    ensures r.cache.tokens == r.disk.tokens
  {
    var (tokens, s1) := LoadAll(s, now);
    SaveAll(s1, tokens[user := record], now)
  }

  /** `get_authenticated_users`: the user ids of the visible map, each once. */
  method GetAuthenticatedUsers(s: Store, now: int) returns (users: seq<UserId>, s': Store)
    ensures forall u :: u in users <==> u in Visible(s, now)
    ensures forall i, j :: 0 <= i < j < |users| ==> users[i] != users[j]
    ensures |users| == |Visible(s, now)|
    ensures s' == LoadAll(s, now).1 && s'.disk == s.disk
    ensures Enumerates(users, Visible(s, now))
  {
    var loaded := LoadAll(s, now);
    var tokens := loaded.0;
    s' := loaded.1;
    var rest := tokens.Keys;
    users := [];
    while rest != {}
      invariant rest <= tokens.Keys
      invariant forall u :: u in users <==> u in tokens && u !in rest
      invariant forall i, j :: 0 <= i < j < |users| ==> users[i] != users[j]
      invariant |users| + |rest| == |tokens.Keys|
      decreases rest
    {
      var u :| u in rest;
      users := users + [u];
      rest := rest - {u};
    }
    assert tokens.Keys == set u | u in users;
  }
}
