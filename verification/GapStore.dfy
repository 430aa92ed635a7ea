/**
 The search-gap statements as code (packages/shared/src/search-gaps-db.ts): the tables as an object
 they update in place, a process with its cached salt, and the uninterrupted runs of the recorder and
 of the fold as runs of the steps in `GapCounting`.
 */
module GapStore {
  import opened Common
  import opened GapTables
  import opened GapCounting
  import opened GapRetention

  datatype Outcome = Stored | Secret | Tombstoned | Skipped

  class Tables {
    var today: int
    var salts: map<int, Salt>
    var hits: seq<HitRow>
    var daily: seq<DailyRow>
    var tombstones: set<string>

    constructor (day: int)
      ensures today == day && salts == map[] && hits == [] && daily == [] && tombstones == {}
    {
      today, salts, hits, daily, tombstones := day, map[], [], [], {};
    }

    /** Insert a salt for a day that is today and has none. */
    method InsertSalt(day: int, random: Salt)
      modifies `salts
      ensures salts == if day == today && day !in old(salts) then old(salts)[day := random] else old(salts)
    {
      if day == today && day !in salts {
        salts := salts[day := random];
      }
    }

    method UpsertGapHit(day: int, key: Key, hash: Hash)
      modifies `hits
      ensures hits == Upserted(old(hits), day, key, hash)
    {
      var i := 0;
      while i < |hits| && !IsRow(hits[i], day, key, hash)
        invariant 0 <= i <= |hits| && hits == old(hits)
        invariant Upserted(hits, day, key, hash) == hits[..i] + Upserted(hits[i..], day, key, hash)
      {
        assert hits[i..][0] == hits[i] && hits[i..][1..] == hits[i + 1..];
        assert hits[..i + 1] == hits[..i] + [hits[i]];
        i := i + 1;
      }
      if i < |hits| {
        assert hits[i..][0] == hits[i] && hits[i..][1..] == hits[i + 1..];
        hits := hits[i := hits[i].(hits := hits[i].hits + 1)];
      } else {
        assert hits[i..] == [];
        hits := hits + [HitRow(day, key, hash, 1)];
      }
    }

    /** Add one row's counts to the daily counts. */
    method AddDaily(row: HitRow)
      modifies `daily
      ensures daily == AddedDaily(old(daily), row)
    {
      var i := 0;
      while i < |daily| && !(daily[i].day == row.day && daily[i].key == row.key)
        invariant 0 <= i <= |daily| && daily == old(daily)
        invariant AddedDaily(daily, row) == daily[..i] + AddedDaily(daily[i..], row)
      {
        assert daily[i..][0] == daily[i] && daily[i..][1..] == daily[i + 1..];
        assert daily[..i + 1] == daily[..i] + [daily[i]];
        i := i + 1;
      }
      if i < |daily| {
        assert daily[i..][0] == daily[i] && daily[i..][1..] == daily[i + 1..];
        daily := daily[i := DailyRow(row.day, row.key, daily[i].hits + row.hits, daily[i].searchers + 1)];
      } else {
        assert daily[i..] == [];
        daily := daily + [DailyRow(row.day, row.key, row.hits, 1)];
      }
    }

    /** Fold every finished day, uninterrupted. */
    method FoldSearchGapDays()
      modifies `salts, `hits, `daily
      ensures daily == Retained(Folded(old(daily), Finished(old(hits), today, true)), today - RETENTION_DAYS)
      ensures hits == Finished(old(hits), today, false)
      ensures salts == map d | d in old(salts) && d >= today :: old(salts)[d]
      ensures forall row :: row in daily ==> row.day >= today - 90
      ensures forall d, k :: d >= today - 90 ==>
        DailyHits(daily, d, k) == DailyHits(old(daily), d, k) + if d < today then HitsOf(old(hits), d, k) else 0
      ensures forall d, k :: d >= today - 90 ==>
        DailySearchers(daily, d, k) == DailySearchers(old(daily), d, k) + if d < today then RowsOf(old(hits), d, k) else 0
      ensures forall d, k :: HitsOf(hits, d, k) == if d < today then 0 else HitsOf(old(hits), d, k)
    {
      hide Retained, Finished, HitsOf, RowsOf, DailyHits, DailySearchers;
      var counted := Finished(hits, today, true);
      for i := 0 to |counted|
        invariant hits == old(hits) && salts == old(salts)
        invariant Folded(daily, counted[i..]) == Folded(old(daily), counted)
      {
        assert counted[i..][0] == counted[i] && counted[i..][1..] == counted[i + 1..];
        AddDaily(counted[i]);
      }
      assert counted[|counted|..] == [];
      hits := Finished(hits, today, false);
      salts := map d | d in salts && d >= today :: salts[d];
      FoldDoes(daily, old(daily), old(hits), today);
      daily := Retained(daily, today - RETENTION_DAYS);
    }

    /** Delete every count of one query: its sums are gone, all others stay as they are. */
    method DeleteGapCounts(query: string)
      modifies `hits, `daily
      ensures hits == HitsWithout(old(hits), query) && daily == DailyWithout(old(daily), query)
      ensures forall d, k :: HitsOf(hits, d, k) == if k.query == query then 0 else HitsOf(old(hits), d, k)
      ensures forall d, k :: UsersOf(hits, d, k) == if k.query == query then {} else UsersOf(old(hits), d, k)
      ensures forall d, k :: DailyHits(daily, d, k) == if k.query == query then 0 else DailyHits(old(daily), d, k)
      ensures forall d, k :: DailySearchers(daily, d, k) == if k.query == query then 0 else DailySearchers(old(daily), d, k)
    {
      forall d, k
        ensures HitsOf(HitsWithout(hits, query), d, k) == if k.query == query then 0 else HitsOf(hits, d, k)
        ensures UsersOf(HitsWithout(hits, query), d, k) == if k.query == query then {} else UsersOf(hits, d, k)
        ensures DailyHits(DailyWithout(daily, query), d, k) == if k.query == query then 0 else DailyHits(daily, d, k)
        ensures DailySearchers(DailyWithout(daily, query), d, k) == if k.query == query then 0 else DailySearchers(daily, d, k)
      {
        WithoutSums(hits, query, d, k);
        DailyWithoutSums(daily, query, d, k);
      }
      hits := HitsWithout(hits, query);
      daily := DailyWithout(daily, query);
    }
  }

  /** What folding and pruning do to the counts. */
  lemma FoldDoes(folded: seq<DailyRow>, daily: seq<DailyRow>, hits: seq<HitRow>, today: int)
    requires folded == Folded(daily, Finished(hits, today, true))
    ensures forall row :: row in Retained(folded, today - 90) ==> row.day >= today - 90
    ensures forall d, k :: d >= today - 90 ==>
      DailyHits(Retained(folded, today - 90), d, k) == DailyHits(daily, d, k) + if d < today then HitsOf(hits, d, k) else 0
    ensures forall d, k :: d >= today - 90 ==>
      DailySearchers(Retained(folded, today - 90), d, k) == DailySearchers(daily, d, k) + if d < today then RowsOf(hits, d, k) else 0
    ensures forall d, k :: HitsOf(Finished(hits, today, false), d, k) == if d < today then 0 else HitsOf(hits, d, k)
  {
    hide Retained, Finished, Folded, HitsOf, RowsOf, DailyHits, DailySearchers;
    RetainedExactly(folded, today - 90);
    forall d, k
      ensures d >= today - 90 ==>
        DailyHits(Retained(folded, today - 90), d, k) == DailyHits(daily, d, k) + if d < today then HitsOf(hits, d, k) else 0
      ensures d >= today - 90 ==>
        DailySearchers(Retained(folded, today - 90), d, k) == DailySearchers(daily, d, k) + if d < today then RowsOf(hits, d, k) else 0
      ensures HitsOf(Finished(hits, today, false), d, k) == if d < today then 0 else HitsOf(hits, d, k)
    {
      FoldedSums(daily, Finished(hits, today, true), d, k);
      FinishedSums(hits, today, true, d, k);
      FinishedSums(hits, today, false, d, k);
      if d >= today - 90 {
        RetainedSums(folded, today - 90, d, k);
      }
    }
  }

  /** A process's cached salt is of today. */
  predicate Cached(cache: Option<(int, Salt)>, today: int) {
    cache.Some? && cache.value.0 == today
  }

  /** The salt a hit of today is hashed with. */
  function SaltFor(cache: Option<(int, Salt)>, salts: map<int, Salt>, today: int, random: Salt): Salt {
    if Cached(cache, today) then cache.value.1 else if today in salts then salts[today] else random
  }

  /** The stored salts once it is known. */
  function SaltsWith(cache: Option<(int, Salt)>, salts: map<int, Salt>, today: int, random: Salt): map<int, Salt> {
    if Cached(cache, today) || today in salts then salts else salts[today := random]
  }

  class Process {
    var saltCache: Option<(int, Salt)>

    constructor ()
      ensures saltCache == None
    {
      saltCache := None;
    }

    /** Today's salt: the cached one when it is of today, else the stored one, made if need be. */
    method TodaysSalt(db: Tables, random: Salt) returns (day: int, salt: Salt)
      modifies `saltCache, db`salts
      ensures day == db.today && saltCache == Some((day, salt))
      ensures salt == SaltFor(old(saltCache), old(db.salts), day, random)
      ensures db.salts == SaltsWith(old(saltCache), old(db.salts), day, random)
      ensures !Cached(old(saltCache), day) ==> day in db.salts && db.salts[day] == salt
    {
      day := db.today;
      if saltCache.Some? && saltCache.value.0 == day {
        return day, saltCache.value.1;
      }
      db.InsertSalt(day, random);
      salt := db.salts[day];
      saltCache := Some((day, salt));
    }

    /** Record one hit: nothing for a search that is no gap, a secret, or a tombstoned query. */
    method RecordGapHit(db: Tables, mode: Option<string>, norm: Option<string>, secret: bool, surface: string,
        user: User, random: Salt)
      returns (outcome: Outcome)
      modifies `saltCache, db`salts, db`hits
      ensures outcome ==
        if mode.None? || norm.None? then Skipped
        else if secret then Secret
        else if norm.value in db.tombstones then Tombstoned
        else Stored
      ensures outcome != Stored ==> db.hits == old(db.hits) && db.salts == old(db.salts) && saltCache == old(saltCache)
      ensures outcome == Stored ==>
        var salt := SaltFor(old(saltCache), old(db.salts), db.today, random);
        && saltCache == Some((db.today, salt)) && db.salts == SaltsWith(old(saltCache), old(db.salts), db.today, random)
        && db.hits == Upserted(old(db.hits), db.today, Key(norm.value, surface, mode.value), Hash(salt, user))
    {
      if mode.None? || norm.None? {
        return Skipped;
      }
      if secret {
        return Secret;
      }
      if norm.value in db.tombstones {
        return Tombstoned;
      }
      var day, salt := TodaysSalt(db, random);
      db.UpsertGapHit(day, Key(norm.value, surface, mode.value), Hash(salt, user));
      return Stored;
    }
  }

  /** A call's steps run together are the recorder as code: the same salt, stored salts, cache and hits. */
  lemma RecorderIsRun(s: State, id: nat, process: nat, key: Key, user: User, random: Salt)
    requires id !in s.calls
    requires var cache := CacheOf(s, process); !Locked(Gone(s), s.today, key, Hash(SaltFor(cache, s.salts, s.today, random), user))
    ensures var cache := CacheOf(s, process);
      var s' := Run(s, Recorder(s, id, process, key, user, random));
      var salt := SaltFor(cache, s.salts, s.today, random);
      && s'.salts == SaltsWith(cache, s.salts, s.today, random) && CacheOf(s', process) == Some((s.today, salt))
      && s'.hits == Upserted(s.hits, s.today, key, Hash(salt, user))
      && s'.past.log == s.past.log + [Recording(s.today, key, user)] && s'.daily == s.daily && s'.fold == s.fold
  {
    hide Upserted, Run, Locked, Apply;
    var cache := CacheOf(s, process);
    if Cached(cache, s.today) {
      FourSteps(s, Start(id, process, key, user), ReadDay(id), UseCache(id), Upsert(id));
      var s3 := SaltFromCache(s, id, process, key, user);
      HitStored(s, s3, id, process, key, user, cache.value.1);
    } else {
      var s1 := Apply(s, Start(id, process, key, user));
      FirstStep(s, Start(id, process, key, user), [ReadDay(id), InsertSalt(id, random), ReadSalt(id), Upsert(id)]);
      FourSteps(s1, ReadDay(id), InsertSalt(id, random), ReadSalt(id), Upsert(id));
      var s4 := SaltFromStore(s, id, process, key, user, random);
      HitStored(s, s4, id, process, key, user, SaltFor(cache, s.salts, s.today, random));
    }
  }

  lemma SaltFromCache(s: State, id: nat, process: nat, key: Key, user: User) returns (s3: State)
    requires id !in s.calls && Cached(CacheOf(s, process), s.today)
    ensures s3 == Apply(Apply(Apply(s, Start(id, process, key, user)), ReadDay(id)), UseCache(id))
    ensures s3 == s.(calls := s3.calls)
    ensures id in s3.calls && s3.calls[id] == HasSalt(process, key, user, s.today, s.caches[process].1)
  {
    s3 := Apply(Apply(Apply(s, Start(id, process, key, user)), ReadDay(id)), UseCache(id));
  }

  lemma SaltFromStore(s: State, id: nat, process: nat, key: Key, user: User, random: Salt) returns (s4: State)
    requires id !in s.calls && !Cached(CacheOf(s, process), s.today)
    ensures s4 == Apply(Apply(Apply(Apply(s, Start(id, process, key, user)), ReadDay(id)), InsertSalt(id, random)), ReadSalt(id))
    ensures var salt := if s.today in s.salts then s.salts[s.today] else random;
      && id in s4.calls && s4.calls[id] == HasSalt(process, key, user, s.today, salt)
      && s4 == s.(calls := s4.calls, salts := s4.salts, caches := s.caches[process := (s.today, salt)], past := s.past.(issued := s4.past.issued))
      && s4.salts == if s.today in s.salts then s.salts else s.salts[s.today := random]
  {
    var s2 := Apply(Apply(s, Start(id, process, key, user)), ReadDay(id));
    assert s2 == s.(calls := s2.calls) && id in s2.calls && s2.calls[id] == HasDay(process, key, user, s.today);
    s4 := Apply(Apply(s2, InsertSalt(id, random)), ReadSalt(id));
  }

  lemma HitStored(s: State, ready: State, id: nat, process: nat, key: Key, user: User, salt: Salt)
    requires id in ready.calls && ready.calls[id] == HasSalt(process, key, user, s.today, salt)
    requires ready.hits == s.hits && ready.fold == s.fold && ready.daily == s.daily && ready.past.log == s.past.log
    requires !Locked(Gone(s), s.today, key, Hash(salt, user))
    ensures var s' := Apply(ready, Upsert(id));
      && s'.hits == Upserted(s.hits, s.today, key, Hash(salt, user))
      && s'.past.log == s.past.log + [Recording(s.today, key, user)]
      && s'.salts == ready.salts && s'.caches == ready.caches && s'.daily == s.daily && s'.fold == s.fold
  {
    hide Upserted, Locked;
    assert Gone(ready) == Gone(s);
  }

  /** What a process has cached. */
  function CacheOf(s: State, process: nat): Option<(int, Salt)> {
    if process in s.caches then Some(s.caches[process]) else None
  }

  /** The steps of a call that is not interrupted. */
  function Recorder(s: State, id: nat, process: nat, key: Key, user: User, random: Salt): seq<Event> {
    if Cached(CacheOf(s, process), s.today) then [Start(id, process, key, user), ReadDay(id), UseCache(id), Upsert(id)]
    else [Start(id, process, key, user)] + [ReadDay(id), InsertSalt(id, random), ReadSalt(id), Upsert(id)]
  }

  /** The four steps of a fold run together are the fold as code, and lose nothing. */
  lemma FoldIsFold(s: State)
    requires s.fold.NoFold?
    ensures var s' := Run(s, [FoldBegin, FoldCount, FoldDelete, FoldCommit]);
      && s'.daily == Retained(Folded(s.daily, Finished(s.hits, s.today, true)), s.today - RETENTION_DAYS)
      && s'.hits == Finished(s.hits, s.today, false)
      && s'.salts == (map d | d in s.salts && d >= s.today :: s.salts[d])
      && s'.past.lost == s.past.lost + s.past.pending
      && (forall row :: row in s'.daily ==> row.day >= s.today - 90)
  {
    hide Folded, Retained, Finished;
    RetainedExactly(Folded(s.daily, Finished(s.hits, s.today, true)), s.today - 90);
    FourSteps(s, FoldBegin, FoldCount, FoldDelete, FoldCommit);
    var s3 := Apply(Apply(Apply(s, FoldBegin), FoldCount), FoldDelete);
    assert s3.fold == Deleted(s.today, Finished(s.hits, s.today, true), Finished(s.hits, s.today, true));
    assert Apply(s3, FoldCommit) == DoCommit(s3);
  }

  lemma FirstStep(s: State, e: Event, rest: seq<Event>)
    ensures Run(s, [e] + rest) == Run(Apply(s, e), rest)
  {
    hide Apply;
    assert ([e] + rest)[1..] == rest;
  }

  lemma FourSteps(s: State, a: Event, b: Event, c: Event, d: Event)
    ensures Run(s, [a, b, c, d]) == Apply(Apply(Apply(Apply(s, a), b), c), d)
  {
    hide Apply;
    assert [a, b, c, d] == [a] + [b, c, d] && [b, c, d] == [b] + [c, d] && [c, d] == [c] + [d] && [d] == [d] + [];
    FirstStep(s, a, [b, c, d]);
    FirstStep(Apply(s, a), b, [c, d]);
    FirstStep(Apply(Apply(s, a), b), c, [d]);
    FirstStep(Apply(Apply(Apply(s, a), b), c), d, []);
  }
}
