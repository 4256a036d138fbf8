/**
  `services/sync_service.py`: one synchronisation cycle. The per-user fetches run
  on a thread pool; here their outcomes arrive as a sequence in completion order
  and are folded one after another, exactly as the collecting loop does.
 */
module Sync {
  import opened Results
  import opened TokenData
  import opened Track
  import opened Worksheet
  import opened SheetsService
  import Playback
  import SpotifyTokens

  /** `SyncMetrics`. */
  datatype SyncMetrics = SyncMetrics(total: nat, success: nat, failed: nat, notPlaying: nat)

  /** What `get_current_track` did for `_fetch_user_track`: returned a value or raised. */
  datatype Fetch = Returned(track: Option<TrackInfo>) | Raised

  /** `_fetch_user_track`: an exception is turned into a failed (`None`) outcome, so it never
      raises, and the user id is passed through. */
  function FetchUserTrack(user: UserId, fetch: Fetch): (r: (UserId, Option<TrackInfo>))
    ensures r.0 == user
    ensures r.1.Some? <==> fetch.Returned? && fetch.track.Some?
    ensures r.1.Some? ==> r.1 == fetch.track
  {
    match fetch
    case Returned(t) => (user, t)
    case Raised => (user, None)
  }

  /** The outcome of one future: its `(user, track)` pair, or a `future.result(timeout=5)` that
      raised (which the loop catches). */
  datatype Outcome = Finished(track: Option<TrackInfo>) | ResultTimedOut

  /** One future, in the order `as_completed` yields it. */
  datatype Completion = Completion(user: UserId, outcome: Outcome)

  predicate Failed(x: Completion) {
    x.outcome.ResultTimedOut? || x.outcome.track.None?
  }

  predicate NotPlayingTrack(x: Completion) {
    x.outcome.Finished? && x.outcome.track.Some? && x.outcome.track.value.track == NotPlayingTitle
  }

  predicate Playing(x: Completion) {
    x.outcome.Finished? && x.outcome.track.Some? && x.outcome.track.value.track != NotPlayingTitle
  }

  /** The counters and the update list while the loop runs. */
  datatype Tally = Tally(success: nat, failed: nat, notPlaying: nat, updates: seq<Update>)

  /** One iteration of the collecting loop. */
  function Step(t: Tally, x: Completion): Tally {
    match x.outcome
    case ResultTimedOut => t.(failed := t.failed + 1)
    case Finished(None) => t.(failed := t.failed + 1)
    case Finished(Some(track)) =>
      var t1 := t.(updates := t.updates + [Update(x.user, ToDict(track))]);
      if track.track == NotPlayingTitle then t1.(notPlaying := t.notPlaying + 1)
      else t1.(success := t.success + 1)
  }

  /** The collecting loop over the futures in completion order. */
  function Classify(completed: seq<Completion>): Tally
    decreases |completed|
  {
    if |completed| == 0 then Tally(0, 0, 0, [])
    else Step(Classify(completed[..|completed| - 1]), completed[|completed| - 1])
  }

  /** How many elements satisfy `p`. */
  function Count<T>(s: seq<T>, p: T -> bool): nat
    decreases |s|
  {
    if |s| == 0 then 0 else Count(s[..|s| - 1], p) + (if p(s[|s| - 1]) then 1 else 0)
  }

  /** The update a completion contributes: its user and track dict when it has a track. */
  function Contribution(x: Completion): seq<Update> {
    if x.outcome.Finished? && x.outcome.track.Some? then [Update(x.user, ToDict(x.outcome.track.value))]
    else []
  }

  /** All contributions, in order. */
  function Gather(s: seq<Completion>): seq<Update>
    decreases |s|
  {
    if |s| == 0 then [] else Gather(s[..|s| - 1]) + Contribution(s[|s| - 1])
  }

  /** The loop is a tally: each counter counts the completions of its kind, and the update list
      gathers one update per completion with a track, in completion order. */
  lemma {:induction false} ClassifyIsTally(s: seq<Completion>)
    ensures Classify(s).success == Count(s, Playing)
    ensures Classify(s).failed == Count(s, Failed)
    ensures Classify(s).notPlaying == Count(s, NotPlayingTrack)
    ensures Classify(s).updates == Gather(s)
    decreases |s|
  {
    if |s| > 0 {
      ClassifyIsTally(s[..|s| - 1]);
    }
  }

  lemma {:induction false} CountConcat<T>(a: seq<T>, b: seq<T>, p: T -> bool)
    ensures Count(a + b, p) == Count(a, p) + Count(b, p)
    decreases |b|
  {
    if |b| == 0 {
      assert a + b == a;
    } else {
      assert (a + b)[..|a + b| - 1] == a + b[..|b| - 1];
      CountConcat(a, b[..|b| - 1], p);
    }
  }

  lemma {:induction false} GatherConcat(a: seq<Completion>, b: seq<Completion>)
    ensures Gather(a + b) == Gather(a) + Gather(b)
    decreases |b|
  {
    if |b| == 0 {
      assert a + b == a;
    } else {
      assert (a + b)[..|a + b| - 1] == a + b[..|b| - 1];
      GatherConcat(a, b[..|b| - 1]);
    }
  }

  /** Taking out one element: the rest has the multiset without it. */
  lemma RemoveAt<T>(b: seq<T>, k: nat)
    requires k < |b|
    ensures multiset(b[..k] + b[k + 1..]) == multiset(b) - multiset{b[k]}
  {
    assert b == b[..k] + [b[k]] + b[k + 1..];
  }

  /** Counting with one element taken out. */
  lemma CountRemoveAt<T>(b: seq<T>, k: nat, p: T -> bool)
    requires k < |b|
    ensures Count(b, p) == Count(b[..k] + b[k + 1..], p) + (if p(b[k]) then 1 else 0)
  {
    var front, x, back := b[..k], b[k], b[k + 1..];
    SplitAt(b, k);
    CountConcat(front + [x], back, p);
    CountConcat(front, [x], p);
    CountConcat(front, back, p);
    assert [x][..0] == [];
  }

  /** Gathering with one element taken out. */
  lemma GatherRemoveAt(b: seq<Completion>, k: nat)
    requires k < |b|
    ensures multiset(Gather(b)) == multiset(Gather(b[..k] + b[k + 1..])) + multiset(Contribution(b[k]))
  {
    var front, x, back := b[..k], b[k], b[k + 1..];
    SplitAt(b, k);
    GatherConcat(front + [x], back);
    GatherSnoc(front, x);
    GatherConcat(front, back);
    MultisetMiddle(Gather(front), Contribution(x), Gather(back));
  }

  lemma SplitAt<T>(b: seq<T>, k: nat)
    requires k < |b|
    ensures b == (b[..k] + [b[k]]) + b[k + 1..]
  {
  }

  lemma MultisetMiddle<T>(a: seq<T>, m: seq<T>, z: seq<T>)
    ensures multiset((a + m) + z) == multiset(a + z) + multiset(m)
  {
  }

  lemma GatherSnoc(a: seq<Completion>, x: Completion)
    ensures Gather(a + [x]) == Gather(a) + Contribution(x)
  {
    assert (a + [x])[..|a|] == a;
  }

  /** Counting does not depend on order. */
  lemma {:induction false} CountPermutation<T>(a: seq<T>, b: seq<T>, p: T -> bool)
    requires multiset(a) == multiset(b)
    ensures Count(a, p) == Count(b, p)
    decreases |a|
  {
    if |a| == 0 {
      assert |b| == |multiset(b)| == 0;
    } else {
      var init, x := a[..|a| - 1], a[|a| - 1];
      assert x in multiset(b) by {
        assert a == init + [x];
      }
      var k :| 0 <= k < |b| && b[k] == x;
      RemoveAt(a, |a| - 1);
      RemoveAt(b, k);
      assert a[..|a| - 1] + a[|a|..] == init;
      CountPermutation(init, b[..k] + b[k + 1..], p);
      CountRemoveAt(b, k, p);
    }
  }

  /** Gathering does not depend on order, up to the order of the gathered updates. */
  lemma {:induction false} GatherPermutation(a: seq<Completion>, b: seq<Completion>)
    requires multiset(a) == multiset(b)
    ensures multiset(Gather(a)) == multiset(Gather(b))
    decreases |a|
  {
    if |a| == 0 {
      assert |b| == |multiset(b)| == 0;
    } else {
      var init, x := a[..|a| - 1], a[|a| - 1];
      assert x in multiset(b) by {
        assert a == init + [x];
      }
      var k :| 0 <= k < |b| && b[k] == x;
      RemoveAt(a, |a| - 1);
      RemoveAt(b, k);
      assert a[..|a| - 1] + a[|a|..] == init;
      GatherPermutation(init, b[..k] + b[k + 1..]);
      GatherRemoveAt(b, k);
    }
  }

  /** The thread pool may complete the futures in any order: the counters are the same and the
      same updates are collected, whatever the order. */
  lemma ClassifyOrderIndependent(a: seq<Completion>, b: seq<Completion>)
    requires multiset(a) == multiset(b)
    ensures Classify(a).success == Classify(b).success
    ensures Classify(a).failed == Classify(b).failed
    ensures Classify(a).notPlaying == Classify(b).notPlaying
    ensures multiset(Classify(a).updates) == multiset(Classify(b).updates)
  {
    ClassifyIsTally(a);
    ClassifyIsTally(b);
    CountPermutation(a, b, Playing);
    CountPermutation(a, b, Failed);
    CountPermutation(a, b, NotPlayingTrack);
    GatherPermutation(a, b);
  }

  /** Every completion is counted exactly once, and exactly the completions with a track,
      playing or not, contribute an update. */
  lemma {:induction false} ClassifyAccounts(s: seq<Completion>)
    ensures Classify(s).success + Classify(s).failed + Classify(s).notPlaying == |s|
    ensures |Classify(s).updates| == Classify(s).success + Classify(s).notPlaying
    decreases |s|
  {
    if |s| > 0 {
      ClassifyAccounts(s[..|s| - 1]);
    }
  }

  function Names(s: seq<Completion>): (names: seq<UserId>)
    ensures |names| == |s|
    ensures forall i :: 0 <= i < |s| ==> names[i] == s[i].user
  {
    seq(|s|, i requires 0 <= i < |s| => s[i].user)
  }

  /** Each collected update belongs to a completion with a track, and every such completion's
      update is collected. */
  lemma {:induction false} ClassifyCovers(s: seq<Completion>)
    ensures forall j :: 0 <= j < |Classify(s).updates| ==> Classify(s).updates[j].user in Names(s)
    ensures forall i :: 0 <= i < |s| && s[i].outcome.Finished? && s[i].outcome.track.Some? ==>
              Update(s[i].user, ToDict(s[i].outcome.track.value)) in Classify(s).updates
    decreases |s|
  {
    if |s| > 0 {
      var init := s[..|s| - 1];
      ClassifyCovers(init);
      assert forall i :: 0 <= i < |init| ==> Names(init)[i] == Names(s)[i];
    }
  }

  /** Users who complete once each get one update each. */
  lemma {:induction false} ClassifyDistinct(s: seq<Completion>)
    requires Distinct(Names(s))
    ensures Distinct(Users(Classify(s).updates))
    decreases |s|
  {
    if |s| > 0 {
      var init, x := s[..|s| - 1], s[|s| - 1];
      assert forall i :: 0 <= i < |init| ==> Names(init)[i] == Names(s)[i];
      ClassifyDistinct(init);
      ClassifyCovers(init);
      var before := Classify(init).updates;
      var after := Classify(s).updates;
      if |after| > |before| {
        assert after == before + [Update(x.user, ToDict(x.outcome.track.value))];
        forall j | 0 <= j < |before|
          ensures before[j].user != x.user
        {
          var i :| 0 <= i < |init| && Names(init)[i] == before[j].user;
          assert Names(s)[i] != Names(s)[|s| - 1];
        }
        forall a, b | 0 <= a < b < |after|
          ensures Users(after)[a] != Users(after)[b]
        {
          if b < |before| {
            assert Users(before)[a] != Users(before)[b];
          }
        }
      } else {
        assert after == before;
      }
    }
  }

  /** Why a cycle raised: `as_completed(timeout=30)` expired, or the sheet write failed. */
  datatype SyncError = CollectTimedOut | WriteFailed

  /** The result of a cycle that returned: its metrics and the destination afterwards. */
  datatype Cycle = Cycle(metrics: SyncMetrics, cache: SheetCache, sheet: Sheet, wrote: bool)

  /** `sync_all_users`. `users` is what `get_authenticated_users` returned and `completed` the
      futures in completion order; `inTime` says whether all of them completed within the
      30-second wait (otherwise `as_completed` raises out of the cycle, uncaught); `writeFails`
      stands for a `batch_update` that raises, which is re-raised. */
  function SyncAllUsers(users: seq<UserId>, completed: seq<Completion>, inTime: bool,
                        c: SheetCache, sheet: Sheet, now: int, writeFails: bool): Result<Cycle, SyncError>
  {
    if |users| == 0 then Ok(Cycle(SyncMetrics(0, 0, 0, 0), c, sheet, false))
    else if !inTime then Err(CollectTimedOut)
    else
      var t := Classify(completed);
      var m := SyncMetrics(|users|, t.success, t.failed, t.notPlaying);
      if |t.updates| == 0 then Ok(Cycle(m, c, sheet, false))
      else if writeFails then Err(WriteFailed)
      else
        var b := BatchUpdate(c, sheet, now, t.updates);
        Ok(Cycle(m, b.cache, Apply(sheet, b.calls), true))
  }

  /** With no authenticated users all counters are zero and nothing is written. */
  lemma SyncNoUsers(completed: seq<Completion>, inTime: bool, c: SheetCache, sheet: Sheet, now: int, writeFails: bool)
    ensures SyncAllUsers([], completed, inTime, c, sheet, now, writeFails)
            == Ok(Cycle(SyncMetrics(0, 0, 0, 0), c, sheet, false))
  {
  }

  /** `total` is the number of users, and when every future completed, each user is counted
      exactly once across the three outcome counters. */
  lemma SyncAccounts(users: seq<UserId>, completed: seq<Completion>, c: SheetCache, sheet: Sheet,
                     now: int, writeFails: bool)
    requires multiset(Names(completed)) == multiset(users)
    requires SyncAllUsers(users, completed, true, c, sheet, now, writeFails).Ok?
    ensures var m := SyncAllUsers(users, completed, true, c, sheet, now, writeFails).value.metrics;
            m.total == |users| && m.success + m.failed + m.notPlaying == m.total
  {
    ClassifyAccounts(completed);
    assert |Names(completed)| == |multiset(Names(completed))| == |multiset(users)| == |users|;
  }

  /** At most one write: the sheet is written exactly when the cycle collected at least one
      update in time, and a failed write makes the whole cycle fail. */
  lemma SyncWriteDecision(users: seq<UserId>, completed: seq<Completion>, inTime: bool,
                          c: SheetCache, sheet: Sheet, now: int, writeFails: bool)
    ensures var r := SyncAllUsers(users, completed, inTime, c, sheet, now, writeFails);
            var wants := |users| > 0 && inTime && |Classify(completed).updates| > 0;
            && (r.Ok? && r.value.wrote <==> wants && !writeFails)
            && (r == Err(WriteFailed) <==> wants && writeFails)
            && (r == Err(CollectTimedOut) <==> |users| > 0 && !inTime)
            && (r.Ok? && !r.value.wrote ==> r.value.cache == c && r.value.sheet == sheet)
  {
  }

  /** A cycle that completes every future in time issues the same batch whatever the
      completion order, up to the order of its updates, and reports the same metrics. */
  lemma SyncOrderIndependent(users: seq<UserId>, a: seq<Completion>, b: seq<Completion>,
                             c: SheetCache, sheet: Sheet, now: int, writeFails: bool)
    requires multiset(a) == multiset(b)
    ensures var ra := SyncAllUsers(users, a, true, c, sheet, now, writeFails);
            var rb := SyncAllUsers(users, b, true, c, sheet, now, writeFails);
            && ra.Ok? == rb.Ok?
            && (ra.Ok? ==> ra.value.metrics == rb.value.metrics && ra.value.wrote == rb.value.wrote)
  {
    ClassifyOrderIndependent(a, b);
    assert |Classify(a).updates| == |multiset(Classify(a).updates)| == |multiset(Classify(b).updates)|;
  }

  /** A written track update puts the track's fields, in sheet order, at the start of the row
      the index gives for its user. */
  lemma TrackRowWritten(sheet: Sheet, index: map<string, nat>, user: UserId, t: TrackInfo)
    requires RowWritten(sheet, index, Update(user, ToDict(t)))
    ensures user in index && 1 <= index[user] <= |sheet|
    ensures [user, t.track, t.artists, t.album, t.year, t.link, t.timestamp] <= sheet[index[user] - 1]
  {
    RowForTrack(user, t);
  }

  /** Once every collected update is written, so is the track of every completion that had one. */
  lemma CompletionsWritten(completed: seq<Completion>, sheet: Sheet, index: map<string, nat>)
    requires forall j :: 0 <= j < |Classify(completed).updates| ==> RowWritten(sheet, index, Classify(completed).updates[j])
    ensures forall i :: 0 <= i < |completed| && completed[i].outcome.Finished? && completed[i].outcome.track.Some? ==>
              RowWritten(sheet, index, Update(completed[i].user, ToDict(completed[i].outcome.track.value)))
  {
    ClassifyCovers(completed);
    var ups := Classify(completed).updates;
    forall i | 0 <= i < |completed| && completed[i].outcome.Finished? && completed[i].outcome.track.Some?
      ensures RowWritten(sheet, index, Update(completed[i].user, ToDict(completed[i].outcome.track.value)))
    {
      var j :| 0 <= j < |ups| && ups[j] == Update(completed[i].user, ToDict(completed[i].outcome.track.value));
    }
  }

  /** End to end: from a consistent destination, a cycle in which each user completes once
      keeps one row per user, leaves the cache matching the sheet, and writes every fetched
      track (playing or not) into the row of its user. */
  lemma SyncKeepsOneRowPerUser(users: seq<UserId>, completed: seq<Completion>,
                               c: SheetCache, sheet: Sheet, now: int)
    requires OneRowPerUser(sheet) && CacheAgrees(c, sheet, now) && Distinct(Names(completed))
    requires multiset(Names(completed)) == multiset(users)
    requires SyncAllUsers(users, completed, true, c, sheet, now, false).Ok?
    ensures var cy := SyncAllUsers(users, completed, true, c, sheet, now, false).value;
            && OneRowPerUser(cy.sheet)
            && CacheAgrees(cy.cache, cy.sheet, now)
            && forall i :: 0 <= i < |completed| && completed[i].outcome.Finished? && completed[i].outcome.track.Some? ==>
                 RowWritten(cy.sheet, cy.cache.index, Update(completed[i].user, ToDict(completed[i].outcome.track.value)))
  {
    var t := Classify(completed);
    var cy := SyncAllUsers(users, completed, true, c, sheet, now, false).value;
    assert |completed| == |multiset(Names(completed))| == |multiset(users)| == |users|;
    if |t.updates| > 0 {
      ClassifyDistinct(completed);
      BatchKeepsOneRowPerUser(c, sheet, now, t.updates);
      var b := BatchUpdate(c, sheet, now, t.updates);
      assert cy.sheet == Apply(sheet, b.calls) && cy.cache == b.cache;
    } else {
      ClassifyCovers(completed);
    }
    CompletionsWritten(completed, cy.sheet, cy.cache.index);
  }

  /** `sync_single_user`: the fetched track (or `None`), then an `update_single` that may
      raise. It returns whether the user's row was written. */
  datatype Single = Single(ok: bool, cache: SheetCache, sheet: Sheet)

  function SyncSingleUser(user: UserId, track: Option<TrackInfo>, c: SheetCache, sheet: Sheet,
                          now: int, writeFails: bool): Single
  {
    if track.None? || writeFails then Single(false, c, sheet)
    else
      var b := BatchUpdate(c, sheet, now, [Update(user, ToDict(track.value))]);
      Single(true, b.cache, Apply(sheet, b.calls))
  }

  /** `sync_single_user` reports success exactly when a track was fetched and the write went
      through; on success the user's row holds the track, found through the updated cache. */
  lemma SyncSingleUserResult(user: UserId, track: Option<TrackInfo>, c: SheetCache, sheet: Sheet,
                             now: int, writeFails: bool)
    requires OneRowPerUser(sheet) && CacheAgrees(c, sheet, now)
    ensures var r := SyncSingleUser(user, track, c, sheet, now, writeFails);
            && (r.ok <==> track.Some? && !writeFails)
            && (!r.ok ==> r.cache == c && r.sheet == sheet)
            && (r.ok ==> OneRowPerUser(r.sheet)
                         && CacheAgrees(r.cache, r.sheet, now)
                         && RowWritten(r.sheet, r.cache.index, Update(user, ToDict(track.value))))
  {
    if track.Some? && !writeFails {
      var ups := [Update(user, ToDict(track.value))];
      assert Users(ups) == [user];
      BatchKeepsOneRowPerUser(c, sheet, now, ups);
      assert ups[0] == Update(user, ToDict(track.value));
    }
  }

  /** Completion order does decide where a new user's row lands, but never what a user's row
      holds: in two runs over the same completions, each in its own order, every fetched track
      is written into the row each run's index gives for its user. */
  lemma SyncRowsOrderIndependent(users: seq<UserId>, a: seq<Completion>, b: seq<Completion>,
                                 c: SheetCache, sheet: Sheet, now: int)
    requires OneRowPerUser(sheet) && CacheAgrees(c, sheet, now)
    requires multiset(a) == multiset(b)
    requires Distinct(Names(a)) && multiset(Names(a)) == multiset(users)
    requires Distinct(Names(b)) && multiset(Names(b)) == multiset(users)
    requires SyncAllUsers(users, a, true, c, sheet, now, false).Ok?
    ensures SyncAllUsers(users, b, true, c, sheet, now, false).Ok?
    ensures var ca := SyncAllUsers(users, a, true, c, sheet, now, false).value;
            var cb := SyncAllUsers(users, b, true, c, sheet, now, false).value;
            forall x :: x in a && x.outcome.Finished? && x.outcome.track.Some? ==>
              && RowWritten(ca.sheet, ca.cache.index, Update(x.user, ToDict(x.outcome.track.value)))
              && RowWritten(cb.sheet, cb.cache.index, Update(x.user, ToDict(x.outcome.track.value)))
  {
    SyncKeepsOneRowPerUser(users, a, c, sheet, now);
    SyncKeepsOneRowPerUser(users, b, c, sheet, now);
    forall x | x in a && x.outcome.Finished? && x.outcome.track.Some?
      ensures x in b
    {
      assert x in multiset(a);
    }
  }

  /** One worker of the pool: `_fetch_user_track(user)` run against the credential store as it
      stands, giving the future's completion and the store it leaves behind. */
  function Worker(s: SpotifyTokens.Store, user: UserId, now: int,
                  provider: Json -> SpotifyTokens.RefreshReply,
                  fetch: Json -> Playback.FetchReply, clock: string): (r: (Completion, SpotifyTokens.Store))
    ensures r.0.user == user && r.0.outcome.Finished?
    ensures r.0.outcome.track == GetCurrentTrack(s, user, now, provider, fetch, clock).0
    ensures r.1 == SpotifyTokens.EnsureValidToken(s, user, now, SpotifyTokens.DefaultRefreshBuffer, provider).store
  {
    var (t, s') := GetCurrentTrack(s, user, now, provider, fetch, clock);
    var (u, track) := FetchUserTrack(user, Returned(t));
    (Completion(u, Finished(track)), s')
  }

  /** The workers for `order`, run one after another, each against the store the previous one
      left; their completions come out in that order. */
  function Workers(s: SpotifyTokens.Store, order: seq<UserId>, now: int,
                   provider: Json -> SpotifyTokens.RefreshReply,
                   fetch: Json -> Playback.FetchReply, clock: string): (r: (seq<Completion>, SpotifyTokens.Store))
    ensures |r.0| == |order|
    decreases |order|
  {
    if |order| == 0 then ([], s)
    else
      var (init, s1) := Workers(s, order[..|order| - 1], now, provider, fetch, clock);
      var (x, s2) := Worker(s1, order[|order| - 1], now, provider, fetch, clock);
      (init + [x], s2)
  }

  /** A worker gives the same completion from any store that shows the same record for its
      user, and leaves the same record for that user behind. */
  lemma WorkerLocal(s1: SpotifyTokens.Store, s2: SpotifyTokens.Store, user: UserId, now: int,
                    provider: Json -> SpotifyTokens.RefreshReply,
                    fetch: Json -> Playback.FetchReply, clock: string)
    requires AgreeAt(SpotifyTokens.Visible(s1, now), SpotifyTokens.Visible(s2, now), user)
    ensures var w1 := Worker(s1, user, now, provider, fetch, clock);
            var w2 := Worker(s2, user, now, provider, fetch, clock);
            && w1.0 == w2.0
            && AgreeAt(SpotifyTokens.Visible(w1.1, now), SpotifyTokens.Visible(w2.1, now), user)
  {
    var buffer := SpotifyTokens.DefaultRefreshBuffer;
    SpotifyTokens.EnsureLocal(s1, s2, user, now, buffer, provider);
    SpotifyTokens.EnsureVisible(s1, user, now, buffer, provider);
    SpotifyTokens.EnsureVisible(s2, user, now, buffer, provider);
  }

  /** A worker touches no other user's record, and the tokens file it leaves is either the one
      it found, with nothing visibly changed, or holds exactly the map now shown. */
  lemma WorkerEffect(s: SpotifyTokens.Store, user: UserId, now: int,
                     provider: Json -> SpotifyTokens.RefreshReply,
                     fetch: Json -> Playback.FetchReply, clock: string)
    ensures var w := Worker(s, user, now, provider, fetch, clock);
            var after := SpotifyTokens.Visible(w.1, now);
            && (forall v :: v != user ==> AgreeAt(after, SpotifyTokens.Visible(s, now), v))
            && ((w.1.disk == s.disk && after == SpotifyTokens.Visible(s, now))
                || w.1.disk == TokenData.Stored(after))
  {
    SpotifyTokens.EnsureVisible(s, user, now, SpotifyTokens.DefaultRefreshBuffer, provider);
  }

  /** Workers that each serve a different user do not interfere: every completion is the one
      its worker would give alone against the starting store, every served user's record ends
      as its own worker alone would leave it, every other record is kept, and the tokens file
      is untouched or holds exactly the map finally shown. */
  lemma {:induction false} WorkersOwnRecords(s: SpotifyTokens.Store, order: seq<UserId>, now: int,
                                             provider: Json -> SpotifyTokens.RefreshReply,
                                             fetch: Json -> Playback.FetchReply, clock: string)
    requires Distinct(order)
    ensures var r := Workers(s, order, now, provider, fetch, clock);
            var after := SpotifyTokens.Visible(r.1, now);
            && (forall i :: 0 <= i < |order| ==> r.0[i] == Worker(s, order[i], now, provider, fetch, clock).0)
            && (forall v :: v !in order ==> AgreeAt(after, SpotifyTokens.Visible(s, now), v))
            && (forall i :: 0 <= i < |order| ==>
                  AgreeAt(after, SpotifyTokens.Visible(Worker(s, order[i], now, provider, fetch, clock).1, now), order[i]))
            && ((r.1.disk == s.disk && after == SpotifyTokens.Visible(s, now)) || r.1.disk == TokenData.Stored(after))
    decreases |order|
  {
    if |order| > 0 {
      var n := |order| - 1;
      var init, last := order[..n], order[n];
      assert Distinct(init) by {
        forall a, b | 0 <= a < b < |init| ensures init[a] != init[b] {
          assert init[a] == order[a] && init[b] == order[b];
        }
      }
      assert last !in init by {
        forall a | 0 <= a < n ensures init[a] != last {
          assert init[a] == order[a];
        }
      }
      WorkersOwnRecords(s, init, now, provider, fetch, clock);
      var (cs, s1) := Workers(s, init, now, provider, fetch, clock);
      var w := Worker(s1, last, now, provider, fetch, clock);
      WorkerLocal(s1, s, last, now, provider, fetch, clock);
      WorkerEffect(s1, last, now, provider, fetch, clock);
      var r := Workers(s, order, now, provider, fetch, clock);
      assert r.0 == cs + [w.0] && r.1 == w.1;
      var before, mid, after := SpotifyTokens.Visible(s, now), SpotifyTokens.Visible(s1, now), SpotifyTokens.Visible(w.1, now);
      forall i | 0 <= i < n
        ensures r.0[i] == Worker(s, order[i], now, provider, fetch, clock).0
        ensures AgreeAt(after, SpotifyTokens.Visible(Worker(s, order[i], now, provider, fetch, clock).1, now), order[i])
      {
        assert order[i] == init[i] && order[i] != last;
        assert AgreeAt(after, mid, order[i]);
      }
      forall v | v !in order ensures AgreeAt(after, before, v) {
        assert v != last && v !in init;
        assert AgreeAt(after, mid, v);
      }
    }
  }

  /** The collecting part of `sync_all_users` fed by its workers. `order` is the list
      `get_authenticated_users` returns: each user of the credential store once, in the dict's
      iteration order, which is a parameter. The listing's own load is done here, one worker runs
      per user, and the completions go to the fold above. The credential store comes back as the
      workers left it. */
  function SyncCycle(s: SpotifyTokens.Store, order: seq<UserId>, now: int,
                     provider: Json -> SpotifyTokens.RefreshReply,
                     fetch: Json -> Playback.FetchReply, clock: string,
                     inTime: bool, c: SheetCache, sheet: Sheet, writeFails: bool)
    : (r: (Result<Cycle, SyncError>, SpotifyTokens.Store))
    requires Enumerates(order, SpotifyTokens.Visible(s, now))
  {
    var s0 := SpotifyTokens.LoadAll(s, now).1;
    var (completed, s1) := Workers(s0, order, now, provider, fetch, clock);
    (SyncAllUsers(order, completed, inTime, c, sheet, now, writeFails), s1)
  }

  /** End to end from the credential store: `total` is the number of authenticated users and
      the counters add up to it, every user completes with the track `get_current_track` alone
      would give from the starting store, every user's record ends as its own token step alone
      would leave it, no other record changes, and each fetched track sits in its user's row. */
  lemma SyncCycleOwnRecords(s: SpotifyTokens.Store, order: seq<UserId>, now: int,
                            provider: Json -> SpotifyTokens.RefreshReply,
                            fetch: Json -> Playback.FetchReply, clock: string,
                            c: SheetCache, sheet: Sheet)
    requires Enumerates(order, SpotifyTokens.Visible(s, now))
    requires OneRowPerUser(sheet) && CacheAgrees(c, sheet, now)
    ensures var (r, s') := SyncCycle(s, order, now, provider, fetch, clock, true, c, sheet, false);
            var after := SpotifyTokens.Visible(s', now);
            var total := |SpotifyTokens.Visible(s, now)|;
            && r.Ok?
            && r.value.metrics.total == total
            && r.value.metrics.success + r.value.metrics.failed + r.value.metrics.notPlaying == total
            && (forall v :: v !in order ==> AgreeAt(after, SpotifyTokens.Visible(s, now), v))
            && (forall u :: u in order ==>
                  AgreeAt(after, SpotifyTokens.Visible(
                    SpotifyTokens.EnsureValidToken(s, u, now, SpotifyTokens.DefaultRefreshBuffer, provider).store, now), u))
            && OneRowPerUser(r.value.sheet) && CacheAgrees(r.value.cache, r.value.sheet, now)
            && (forall u :: u in order && GetCurrentTrack(s, u, now, provider, fetch, clock).0.Some? ==>
                  RowWritten(r.value.sheet, r.value.cache.index,
                             Update(u, ToDict(GetCurrentTrack(s, u, now, provider, fetch, clock).0.value))))
  {
    EnumerationSize(order, SpotifyTokens.Visible(s, now));
    var s0 := SpotifyTokens.LoadAll(s, now).1;
    SpotifyTokens.VisibleAfterLoad(s, now);
    WorkersOwnRecords(s0, order, now, provider, fetch, clock);
    var (completed, s1) := Workers(s0, order, now, provider, fetch, clock);
    assert Names(completed) == order by {
      forall i | 0 <= i < |order| ensures Names(completed)[i] == order[i] {
        assert completed[i] == Worker(s0, order[i], now, provider, fetch, clock).0;
      }
    }
    SyncAccounts(order, completed, c, sheet, now, false);
    SyncKeepsOneRowPerUser(order, completed, c, sheet, now);
    forall u | u in order
      ensures AgreeAt(SpotifyTokens.Visible(s1, now), SpotifyTokens.Visible(
                SpotifyTokens.EnsureValidToken(s, u, now, SpotifyTokens.DefaultRefreshBuffer, provider).store, now), u)
      ensures GetCurrentTrack(s, u, now, provider, fetch, clock).0.Some? ==>
                RowWritten(SyncAllUsers(order, completed, true, c, sheet, now, false).value.sheet,
                           SyncAllUsers(order, completed, true, c, sheet, now, false).value.cache.index,
                           Update(u, ToDict(GetCurrentTrack(s, u, now, provider, fetch, clock).0.value)))
    {
      var i :| 0 <= i < |order| && order[i] == u;
      WorkerLocal(s0, s, u, now, provider, fetch, clock);
      assert completed[i] == Completion(u, Finished(GetCurrentTrack(s, u, now, provider, fetch, clock).0));
    }
  }
}
