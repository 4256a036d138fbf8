/**
  The in-memory credential cache that sits in front of the tokens file
  (`TokenCacheManager`). Its state is the cached map and the time of the last
  disk load; the disk and the clock are passed in explicitly.
 */
module TokenCache {
  import opened TokenData

  /** Default seconds between two disk reloads. */
  const DefaultReloadInterval: int := 60

  datatype Cache = Cache(interval: int, tokens: Tokens, lastLoad: int)

  /** The state right after construction: empty cache, never loaded. */
  function Create(interval: int): (c: Cache)
    ensures c.interval == interval && c.tokens == map[] && c.lastLoad == 0
  {
    Cache(interval, map[], 0)
  }

  /** `_should_reload`: more than `interval` seconds since the last load. */
  predicate ShouldReload(c: Cache, now: int) {
    now - c.lastLoad > c.interval
  }

  /** What a reload puts in memory: a missing, unreadable or undecodable file reads as no tokens. */
  function ReadDisk(disk: Disk): (t: Tokens)
    ensures disk.Stored? ==> t == disk.tokens
    ensures !disk.Stored? ==> t == map[]
  {
    match disk
    case Stored(tokens) => tokens
    case _ => map[]
  }

  /** The outcome of `load`: the returned copy, the new cache state, and whether the disk was read. */
  datatype Loaded = Loaded(tokens: Tokens, cache: Cache, diskRead: bool)

  /** `load`: serve the cache while it is non-empty and fresh, otherwise reload everything from disk. */
  function Load(c: Cache, disk: Disk, now: int): (r: Loaded)
    ensures r.cache.interval == c.interval
    ensures r.tokens == r.cache.tokens
    ensures !r.diskRead <==> |c.tokens| > 0 && now - c.lastLoad <= c.interval
    ensures !r.diskRead ==> r.cache == c
    ensures r.diskRead ==> r.cache.lastLoad == now
    ensures r.diskRead && disk.Stored? ==> r.tokens == disk.tokens
    ensures r.diskRead && !disk.Stored? ==> r.tokens == map[]
  {
    if |c.tokens| > 0 && !ShouldReload(c, now) then
      Loaded(c.tokens, c, false)
    else
      var loaded := ReadDisk(disk);
      Loaded(loaded, Cache(c.interval, loaded, now), true)
  }

  /** `save`: write the whole map to disk, then make it the cache contents. */
  function Save(c: Cache, tokens: Tokens, now: int): (r: (Cache, Disk))
    ensures r.1 == Stored(tokens)
    ensures r.0 == Cache(c.interval, tokens, now)
  {
    (Cache(c.interval, tokens, now), Stored(tokens))
  }

  /** `invalidate_cache`: forget when the cache was loaded, keep its contents. */
  function Invalidate(c: Cache): (r: Cache)
    ensures r.tokens == c.tokens && r.interval == c.interval
    ensures r.lastLoad == 0
  {
    c.(lastLoad := 0)
  }

  /** Write-through: a load within the interval after `save(t)` returns exactly `t`,
      and it reads the disk only when `t` is empty. */
  lemma LoadAfterSave(c: Cache, t: Tokens, saved: int, now: int)
    requires now - saved <= c.interval
    ensures var (c', disk') := Save(c, t, saved);
            var l := Load(c', disk', now);
            l.tokens == t && (l.diskRead <==> |t| == 0)
  {
  }

  /** After `invalidate_cache`, any load later than `interval` seconds past the epoch rereads the disk. */
  lemma InvalidateForcesReload(c: Cache, disk: Disk, now: int)
    requires now > c.interval
    ensures Load(Invalidate(c), disk, now).diskRead
    ensures Load(Invalidate(c), disk, now).tokens == ReadDisk(disk)
  {
  }

  /** Two loads at the same instant against the same disk return the same map. */
  lemma LoadIsStable(c: Cache, disk: Disk, now: int)
    ensures var l := Load(c, disk, now);
            Load(l.cache, disk, now).tokens == l.tokens
  {
  }

  /** Disk reads caused by a series of loads at the given instants. */
  function DiskReads(c: Cache, disk: Disk, times: seq<int>): (n: nat)
    ensures n <= |times|
    decreases |times|
  {
    if |times| == 0 then 0
    else
      var l := Load(c, disk, times[0]);
      (if l.diskRead then 1 else 0) + DiskReads(l.cache, disk, times[1..])
  }

  /** With interval 60 and a non-empty tokens file, loads at 0 and 10 read the disk once
      and a load at 70 reads it a second time. */
  lemma ReloadScenario(t: Tokens)
    requires |t| > 0
    ensures DiskReads(Create(DefaultReloadInterval), Stored(t), [0, 10]) == 1
    ensures DiskReads(Create(DefaultReloadInterval), Stored(t), [0, 10, 70]) == 2
  {
    var c0 := Create(DefaultReloadInterval);
    var l0 := Load(c0, Stored(t), 0);
    var l1 := Load(l0.cache, Stored(t), 10);
    var l2 := Load(l1.cache, Stored(t), 70);
    assert [0, 10][1..] == [10];
    assert [0, 10, 70][1..] == [10, 70];
    assert [10, 70][1..] == [70];
    assert [70][1..] == [];
    assert !l1.diskRead && l2.diskRead;
    assert DiskReads(l2.cache, Stored(t), []) == 0;
    assert DiskReads(l1.cache, Stored(t), [70]) == 1;
    assert DiskReads(l0.cache, Stored(t), [10, 70]) == 1;
    assert DiskReads(l0.cache, Stored(t), [10]) == 0;
  }

  /** With an empty tokens file the cache never holds anything, so every load rereads the disk. */
  lemma EmptyDiskAlwaysReloads(c: Cache, disk: Disk, times: seq<int>)
    requires ReadDisk(disk) == map[]
    requires c.tokens == map[]
    ensures DiskReads(c, disk, times) == |times|
    decreases |times|
  {
    if |times| > 0 {
      EmptyDiskAlwaysReloads(Load(c, disk, times[0]).cache, disk, times[1..]);
    }
  }
}
