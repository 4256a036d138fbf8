/**
  The first-generation credential helper (`auth/token_manager.py`): it reads
  the tokens file on every call, refreshes a token that has less than a
  minute left, merges the provider's answer into the old record, and has no
  fallback when the refresh fails.
 */
module LegacyTokens {
  import opened Results
  import opened TokenData

  /** A token with less than this many seconds left is refreshed. */
  const RefreshThreshold: int := 60

  /** The exceptions that escape. */
  datatype LegacyError =
    | ReadFailed      // `IOError` opening or reading the tokens file (not caught)
    | NoToken         // `ValueError`: no (or an empty) record for the user
    | Malformed       // `KeyError`/`TypeError` on `expires_at` or `refresh_token`
    | ProviderFailed  // the provider's refresh error, propagated unchanged

  /** The provider's answer to `refresh_access_token`. */
  datatype RefreshReply = Granted(record: Record) | Rejected

  /** `load_tokens`: a missing file or invalid JSON reads as no tokens; only an I/O error escapes. */
  function LoadTokens(disk: Disk): (r: Result<Tokens, LegacyError>)
    ensures (disk.Missing? || disk.Undecodable?) ==> r == Ok(map[])
    ensures disk.Stored? ==> r == Ok(disk.tokens)
    ensures disk.Unreadable? <==> r.Err?
    ensures r.Err? ==> r.error == ReadFailed
  {
    match disk
    case Missing => Ok(map[])
    case Unreadable => Err(ReadFailed)
    case Undecodable => Ok(map[])
    case Stored(tokens) => Ok(tokens)
  }

  /** `ensure_valid_token`: the returned record and the tokens file afterwards. */
  function EnsureValidToken(disk: Disk, user: UserId, now: int,
                            provider: Json -> RefreshReply): (r: (Result<Record, LegacyError>, Disk))
    ensures r.1 == disk || (disk.Stored? && user in disk.tokens && r.0.Ok? && r.1 == Stored(disk.tokens[user := r.0.value]))
  {
    match LoadTokens(disk)
    case Err(e) => (Err(e), disk)
    case Ok(tokens) =>
      if user !in tokens || !Truthy(tokens[user]) then (Err(NoToken), disk)
      else
        var record := tokens[user];
        if "expires_at" !in record || !record["expires_at"].Num? then (Err(Malformed), disk)
        else if record["expires_at"].n - now >= RefreshThreshold then (Ok(record), disk)
        else if "refresh_token" !in record then (Err(Malformed), disk)
        else
          match provider(record["refresh_token"])
          case Rejected => (Err(ProviderFailed), disk)
          case Granted(refreshed) =>
            var merged := Merge(record, refreshed);
            (Ok(merged), Stored(tokens[user := merged]))
  }

  /** Only the user's own record is read: two stored files that agree on it give the same answer
      and leave the same record behind. */
  lemma EnsureValidTokenLocal(d1: Disk, d2: Disk, user: UserId, now: int, provider: Json -> RefreshReply)
    requires d1.Stored? && d2.Stored? && user in d1.tokens && user in d2.tokens
    requires d1.tokens[user] == d2.tokens[user]
    ensures var r1 := EnsureValidToken(d1, user, now, provider);
            var r2 := EnsureValidToken(d2, user, now, provider);
            && r1.0 == r2.0
            && r1.1.Stored? && r2.1.Stored?
            && user in r1.1.tokens && user in r2.1.tokens
            && r1.1.tokens[user] == r2.1.tokens[user]
  {
  }

  /** An absent or empty record raises `ValueError`; a missing `expires_at` is a `KeyError`
      rather than an expired token. */
  lemma LegacyErrors(disk: Disk, user: UserId, now: int, provider: Json -> RefreshReply)
    requires disk.Stored?
    ensures var t := disk.tokens;
            var r := EnsureValidToken(disk, user, now, provider);
            && (user !in t || !Truthy(t[user]) ==> r.0 == Err(NoToken))
            && (user in t && Truthy(t[user]) && "expires_at" !in t[user] ==> r.0 == Err(Malformed))
            && (r.0.Err? ==> r.1 == disk)
  {
  }

  /** A token with at least a minute left is returned as stored and the file is not rewritten. */
  lemma LegacyNoRefresh(disk: Disk, user: UserId, now: int, provider: Json -> RefreshReply)
    requires disk.Stored? && user in disk.tokens && Truthy(disk.tokens[user])
    requires "expires_at" in disk.tokens[user] && disk.tokens[user]["expires_at"].Num?
    requires disk.tokens[user]["expires_at"].n - now >= RefreshThreshold
    ensures EnsureValidToken(disk, user, now, provider) == (Ok(disk.tokens[user]), disk)
  {
  }

  /** On refresh the provider's keys overwrite the old ones, keys it does not send (such as
      `refresh_token`) are kept, the merged record is stored under the same user, and no
      other user's record changes. */
  lemma LegacyRefreshMerges(disk: Disk, user: UserId, now: int, provider: Json -> RefreshReply)
    requires disk.Stored? && user in disk.tokens && Truthy(disk.tokens[user])
    requires var rec := disk.tokens[user];
             "expires_at" in rec && rec["expires_at"].Num? && rec["expires_at"].n - now < RefreshThreshold
             && "refresh_token" in rec && provider(rec["refresh_token"]).Granted?
    ensures var rec := disk.tokens[user];
            var refreshed := provider(rec["refresh_token"]).record;
            var r := EnsureValidToken(disk, user, now, provider);
            && r.0.Ok?
            && r.0.value.Keys == rec.Keys + refreshed.Keys
            && (forall k :: k in refreshed ==> r.0.value[k] == refreshed[k])
            && (forall k :: k in rec && k !in refreshed ==> r.0.value[k] == rec[k])
            && "refresh_token" in r.0.value
            && r.1 == Stored(disk.tokens[user := r.0.value])
            && (forall u :: u in disk.tokens && u != user ==> r.1.tokens[u] == disk.tokens[u])
  {
  }

  /** A rejected refresh propagates, even for a token that has not yet expired. */
  lemma LegacyNoFallback(disk: Disk, user: UserId, now: int, provider: Json -> RefreshReply)
    requires disk.Stored? && user in disk.tokens && Truthy(disk.tokens[user])
    requires var rec := disk.tokens[user];
             "expires_at" in rec && rec["expires_at"].Num? && rec["expires_at"].n - now < RefreshThreshold
             && "refresh_token" in rec && provider(rec["refresh_token"]).Rejected?
    ensures EnsureValidToken(disk, user, now, provider) == (Err(ProviderFailed), disk)
  {
  }
}
