/**
 Search-gap counting under interleaving (packages/shared/src/search-gaps-db.ts): recorders in several
 processes, the housekeeping fold and admin deletions, each a sequence of atomic statements over the
 tables. The fold's statements run in one READ COMMITTED transaction, so other statements commit
 between them; its own changes become visible when it commits.

 Every step keeps the salts (`SaltsKept`) and the books of every key (`BooksKept`). The promises about
 all runs, from `OneSaltEver` on, read these off.
 */
module GapCounting {
  import opened Common
  import opened GapTables

  const RETENTION_DAYS := 90

  /** One recorded hit. */
  datatype Recording = Recording(day: int, key: Key, user: User)

  /** A call of `recordGapHit`, by the statement it has run last. */
  datatype Call =
    | Ready(process: nat, key: Key, user: User)
    | HasDay(process: nat, key: Key, user: User, day: int)
    | Asked(process: nat, key: Key, user: User, day: int)
    | HasSalt(process: nat, key: Key, user: User, day: int, salt: Salt)
    | Recorded
    | Failed

  /** The fold's transaction: begun, with its clock; having counted; having deleted the counted days'
      hits. `gone` are rows it has deleted and still locks. */
  datatype Fold =
    | NoFold
    | Begun(bound: int)
    | Counted(bound: int, counted: seq<HitRow>)
    | Deleted(bound: int, counted: seq<HitRow>, gone: seq<HitRow>)

  /** What happened so far, to state the claims with. `lost` are recordings the fold deleted without
      counting, `pending` those the fold in progress will, `closed` the bound of the last committed
      fold, `pruned` the first day never pruned, `late` the keys recorded after their day was counted. */
  datatype History = History(
    issued: set<(int, Salt)>, log: seq<Recording>, lost: seq<Recording>, pending: seq<Recording>,
    folded: seq<HitRow>, removed: set<string>, closed: int, pruned: int, late: set<(int, Key)>)

  datatype State = State(
    today: int, salts: map<int, Salt>, caches: map<nat, (int, Salt)>, calls: map<nat, Call>,
    hits: seq<HitRow>, daily: seq<DailyRow>, fold: Fold, past: History)

  datatype Event =
    | Tick(days: nat)
    | Start(id: nat, process: nat, key: Key, user: User)
    | ReadDay(id: nat)
    | UseCache(id: nat)
    | InsertSalt(id: nat, random: Salt)
    | ReadSalt(id: nat)
    | Upsert(id: nat)
    | FoldBegin
    | FoldCount
    | FoldDelete
    | FoldCommit
    | FoldRollback
    | RemoveHits(query: string)
    | RemoveDaily(query: string)

  /** No salt, no row, no call; the days before this one are closed. */
  function Initial(today: int): State {
    State(today, map[], map[], map[], [], [], NoFold, History({}, [], [], [], [], {}, today, today, {}))
  }

  // ----- the steps ----------------------------------------------------------------------------

  /** The rows the fold holds back. */
  function Gone(s: State): seq<HitRow> {
    if s.fold.Deleted? then s.fold.gone else []
  }

  /** Every row not yet folded. */
  function Live(s: State): seq<HitRow> { s.hits + Gone(s) }

  predicate Locked(rows: seq<HitRow>, d: int, k: Key, h: Hash) {
    exists i :: 0 <= i < |rows| && IsRow(rows[i], d, k, h)
  }

  /** The fold has counted this day. */
  predicate IsCounted(s: State, day: int) {
    day < s.past.closed || ((s.fold.Counted? || s.fold.Deleted?) && day < s.fold.bound)
  }

  /** Record one hit. A row the fold has deleted is locked until it ends. */
  function DoUpsert(s: State, id: nat): State {
    if id in s.calls && s.calls[id].HasSalt? then
      var c := s.calls[id];
      var h := Hash(c.salt, c.user);
      if Locked(Gone(s), c.day, c.key, h) then s
      else
        var r := Recording(c.day, c.key, c.user);
        s.(calls := s.calls[id := Recorded],
           hits := Upserted(s.hits, c.day, c.key, h),
           past := s.past.(
             log := s.past.log + [r],
             pending := if s.fold.Counted? && c.day < s.fold.bound then s.past.pending + [r] else s.past.pending,
             late := if IsCounted(s, c.day) then s.past.late + {(c.day, c.key)} else s.past.late))
    else s
  }

  /** Today's salt, unless there is one. */
  function DoInsertSalt(s: State, id: nat, random: Salt): State {
    if id in s.calls && s.calls[id].HasDay? then
      var c := s.calls[id];
      var asked := s.(calls := s.calls[id := Asked(c.process, c.key, c.user, c.day)]);
      if c.day == s.today && c.day !in s.salts then
        asked.(salts := s.salts[c.day := random], past := s.past.(issued := s.past.issued + {(c.day, random)}))
      else asked
    else s
  }

  function DoReadSalt(s: State, id: nat): State {
    if id in s.calls && s.calls[id].Asked? then
      var c := s.calls[id];
      if c.day in s.salts then
        var salt := s.salts[c.day];
        s.(calls := s.calls[id := HasSalt(c.process, c.key, c.user, c.day, salt)],
           caches := s.caches[c.process := (c.day, salt)])
      else s.(calls := s.calls[id := Failed])
    else s
  }

  function DoUseCache(s: State, id: nat): State {
    if id in s.calls && s.calls[id].HasDay? then
      var c := s.calls[id];
      if c.process in s.caches && s.caches[c.process].0 == c.day then
        s.(calls := s.calls[id := HasSalt(c.process, c.key, c.user, c.day, s.caches[c.process].1)])
      else s
    else s
  }

  /** The fold commits: the counted rows move to the daily counts, which are pruned; the finished days'
      salts go. */
  function DoCommit(s: State): State {
    if s.fold.Deleted? then
      var b := s.fold.bound;
      s.(salts := map d | d in s.salts && d >= b :: s.salts[d],
         daily := Retained(Folded(s.daily, s.fold.counted), b - RETENTION_DAYS),
         fold := NoFold,
         past := s.past.(
           lost := s.past.lost + s.past.pending, pending := [],
           folded := s.past.folded + s.fold.counted,
           closed := if b > s.past.closed then b else s.past.closed,
           pruned := if b - RETENTION_DAYS > s.past.pruned then b - RETENTION_DAYS else s.past.pruned))
    else s
  }

  function Apply(s: State, e: Event): State {
    match e
    case Tick(days) => s.(today := s.today + days)
    case Start(id, process, key, user) =>
      if id in s.calls then s else s.(calls := s.calls[id := Ready(process, key, user)])
    case ReadDay(id) =>
      if id in s.calls && s.calls[id].Ready? then
        var c := s.calls[id];
        s.(calls := s.calls[id := HasDay(c.process, c.key, c.user, s.today)])
      else s
    case UseCache(id) => DoUseCache(s, id)
    case InsertSalt(id, random) => DoInsertSalt(s, id, random)
    case ReadSalt(id) => DoReadSalt(s, id)
    case Upsert(id) => DoUpsert(s, id)
    case FoldBegin => if s.fold.NoFold? then s.(fold := Begun(s.today)) else s
    case FoldCount =>
      if s.fold.Begun? then s.(fold := Counted(s.fold.bound, Finished(s.hits, s.fold.bound, true))) else s
    case FoldDelete =>
      if s.fold.Counted? then
        s.(fold := Deleted(s.fold.bound, s.fold.counted, Finished(s.hits, s.fold.bound, true)),
           hits := Finished(s.hits, s.fold.bound, false))
      else s
    case FoldCommit => DoCommit(s)
    case FoldRollback => s.(fold := NoFold, hits := s.hits + Gone(s), past := s.past.(pending := []))
    case RemoveHits(query) =>
      s.(hits := HitsWithout(s.hits, query), past := s.past.(removed := s.past.removed + {query}))
    case RemoveDaily(query) =>
      s.(daily := DailyWithout(s.daily, query), past := s.past.(removed := s.past.removed + {query}))
  }

  function Run(s: State, events: seq<Event>): State
    decreases |events|
  {
    if events == [] then s else Run(Apply(s, events[0]), events[1..])
  }

  // ----- salts --------------------------------------------------------------------------------

  ghost predicate OneSaltADay(issued: set<(int, Salt)>) {
    forall p, q :: p in issued && q in issued && p.0 == q.0 ==> p == q
  }

  /** A day whose salt is gone is over. */
  ghost predicate StoreSound(s: State) {
    && (forall d :: d in s.salts ==> (d, s.salts[d]) in s.past.issued)
    && (forall p :: p in s.past.issued ==> p.0 <= s.today && (p.0 in s.salts || p.0 < s.today))
    && (!s.fold.NoFold? ==> s.fold.bound <= s.today)
  }

  /** Every salt a process or a call holds was issued for its day. */
  ghost predicate HeldSound(s: State) {
    && (forall x :: x in s.caches ==> s.caches[x] in s.past.issued)
    && (forall id :: id in s.calls && s.calls[id].HasSalt? ==> (s.calls[id].day, s.calls[id].salt) in s.past.issued)
  }

  ghost predicate RowsSound(rows: seq<HitRow>, issued: set<(int, Salt)>) {
    forall row :: row in rows ==> (row.day, row.hash.salt) in issued
  }

  /** Every salt anyone holds was issued for its day, and no day was issued two. */
  ghost predicate SaltsSound(s: State) {
    && OneSaltADay(s.past.issued) && StoreSound(s) && HeldSound(s)
    && RowsSound(s.hits, s.past.issued) && RowsSound(Gone(s), s.past.issued)
  }

  lemma UpsertKeepsSalts(s: State, id: nat)
    requires SaltsSound(s)
    ensures SaltsSound(DoUpsert(s, id))
  {
    hide Upserted, Locked, IsCounted, OneSaltADay;
    if id in s.calls && s.calls[id].HasSalt? {
      var c := s.calls[id];
      UpsertKeeps(s.hits, c.day, c.key, Hash(c.salt, c.user));
    }
  }

  lemma InsertKeepsSalts(s: State, id: nat, random: Salt)
    requires SaltsSound(s)
    ensures SaltsSound(DoInsertSalt(s, id, random))
  {
    if id in s.calls && s.calls[id].HasDay? {
      var s', day := DoInsertSalt(s, id, random), s.calls[id].day;
      assert s.past.issued <= s'.past.issued;
      assert OneSaltADay(s'.past.issued) by { hide HeldSound, RowsSound; }
      hide OneSaltADay;
      assert StoreSound(s') by { hide HeldSound, RowsSound; }
      hide StoreSound;
      assert HeldSound(s');
    }
  }

  lemma CommitKeepsSalts(s: State)
    requires SaltsSound(s)
    ensures SaltsSound(DoCommit(s))
  {
    hide Folded, Retained, OneSaltADay, HeldSound, RowsSound;
    var s' := DoCommit(s);
    assert HeldSound(s') by { SameHeld(s, s'); }
    assert RowsSound([], s.past.issued) by { NoRows(s.past.issued); }
  }

  lemma NoRows(issued: set<(int, Salt)>)
    ensures RowsSound([], issued)
  {
  }

  lemma SameHeld(s: State, s': State)
    requires HeldSound(s) && s'.caches == s.caches && s'.calls == s.calls && s'.past.issued == s.past.issued
    ensures HeldSound(s')
  {
  }

  lemma ReadKeepsSalts(s: State, id: nat)
    requires SaltsSound(s)
    ensures SaltsSound(DoReadSalt(s, id))
  {
    hide OneSaltADay, RowsSound;
    assert StoreSound(DoReadSalt(s, id)) by { hide HeldSound; }
    assert HeldSound(DoReadSalt(s, id));
  }

  lemma CacheKeepsSalts(s: State, id: nat)
    requires SaltsSound(s)
    ensures SaltsSound(DoUseCache(s, id))
  {
    hide OneSaltADay, RowsSound;
    assert StoreSound(DoUseCache(s, id)) by { hide HeldSound; }
    hide StoreSound;
    assert HeldSound(DoUseCache(s, id));
  }

  lemma StartKeepsSalts(s: State, e: Event)
    requires SaltsSound(s) && (e.Start? || e.ReadDay?)
    ensures SaltsSound(Apply(s, e))
  {
    hide OneSaltADay, RowsSound, DoUpsert, DoInsertSalt, DoCommit, DoReadSalt, DoUseCache;
    assert StoreSound(Apply(s, e)) by { hide HeldSound; }
    assert HeldSound(Apply(s, e)) by { hide StoreSound; }
  }

  /** Steps that only move or remove rows. */
  lemma RowsKeepSalts(s: State, e: Event)
    requires SaltsSound(s) && (e.FoldDelete? || e.FoldRollback? || e.RemoveHits?)
    ensures SaltsSound(Apply(s, e))
  {
    hide OneSaltADay, Finished, HitsWithout, DoUpsert, DoInsertSalt, DoCommit, DoReadSalt, DoUseCache, HeldSound;
    assert HeldSound(Apply(s, e)) by { SameHeld(s, Apply(s, e)); }
    assert StoreSound(Apply(s, e));
    hide StoreSound;
  }

  lemma SaltsKept(s: State, e: Event)
    requires SaltsSound(s)
    ensures SaltsSound(Apply(s, e))
  {
    hide Finished, DailyWithout, DoUpsert, DoInsertSalt, DoCommit, DoReadSalt, DoUseCache, OneSaltADay, RowsSound, HeldSound;
    match e
    case Upsert(id) => UpsertKeepsSalts(s, id);
    case InsertSalt(id, random) => InsertKeepsSalts(s, id, random);
    case FoldCommit => CommitKeepsSalts(s);
    case ReadSalt(id) => ReadKeepsSalts(s, id);
    case UseCache(id) => CacheKeepsSalts(s, id);
    case Start(_, _, _, _) => StartKeepsSalts(s, e);
    case ReadDay(_) => StartKeepsSalts(s, e);
    case FoldDelete => RowsKeepSalts(s, e);
    case FoldRollback => RowsKeepSalts(s, e);
    case RemoveHits(_) => RowsKeepSalts(s, e);
    case _ => SameHeld(s, Apply(s, e));
  }

  // ----- the books ----------------------------------------------------------------------------

  function CountOf(log: seq<Recording>, d: int, k: Key): nat {
    if log == [] then 0 else (if log[|log| - 1].day == d && log[|log| - 1].key == k then 1 else 0) + CountOf(log[..|log| - 1], d, k)
  }

  function PeopleOf(log: seq<Recording>, d: int, k: Key): set<User> {
    if log == [] then {}
    else (if log[|log| - 1].day == d && log[|log| - 1].key == k then {log[|log| - 1].user} else {}) + PeopleOf(log[..|log| - 1], d, k)
  }

  /** An admin deleted the query's counts. */
  predicate Removed(s: State, k: Key) { k.query in s.past.removed }

  /** Neither deleted by an admin nor pruned. */
  predicate Retains(s: State, d: int, k: Key) { !Removed(s, k) && d >= s.past.pruned }

  /** Every recording is live, folded, or lost between the fold's count and its delete. */
  ghost predicate Balanced(s: State, d: int, k: Key) {
    Retains(s, d, k) ==>
      && CountOf(s.past.log, d, k) == HitsOf(Live(s), d, k) + DailyHits(s.daily, d, k) + CountOf(s.past.lost, d, k)
      && DailyHits(s.daily, d, k) == HitsOf(s.past.folded, d, k)
      && DailySearchers(s.daily, d, k) == RowsOf(s.past.folded, d, k)
  }

  /** What the fold deletes is what it counted and what was recorded since. */
  ghost predicate FoldBalanced(s: State, d: int, k: Key) {
    match s.fold
    case Counted(bound, counted) =>
      !Removed(s, k) ==>
        && HitsOf(counted, d, k) + CountOf(s.past.pending, d, k) == (if d < bound then HitsOf(s.hits, d, k) else 0)
        && (d < bound ==> UsersOf(s.hits, d, k) <= UsersOf(counted, d, k) + PeopleOf(s.past.pending, d, k))
    case Deleted(bound, counted, gone) =>
      !Removed(s, k) ==>
        && HitsOf(counted, d, k) + CountOf(s.past.pending, d, k) == HitsOf(gone, d, k)
        && UsersOf(gone, d, k) <= UsersOf(counted, d, k) + PeopleOf(s.past.pending, d, k)
    case _ => s.past.pending == []
  }

  /** One live row per person; nobody recorded is missing. */
  ghost predicate PeopleKept(s: State, d: int, k: Key) {
    && RowsOf(Live(s), d, k) == |UsersOf(Live(s), d, k)|
    && (!Removed(s, k) ==>
      PeopleOf(s.past.log, d, k) <= UsersOf(Live(s), d, k) + UsersOf(s.past.folded, d, k) + PeopleOf(s.past.lost, d, k))
  }

  /** Of a key never recorded after its day was counted, the rows are all live or all folded. */
  ghost predicate Punctual(s: State, d: int, k: Key) {
    !Removed(s, k) && (d, k) !in s.past.late ==>
      && CountOf(s.past.pending, d, k) == 0 && CountOf(s.past.lost, d, k) == 0
      && (d >= s.past.closed ==> RowsOf(s.past.folded, d, k) == 0 && UsersOf(Live(s), d, k) == PeopleOf(s.past.log, d, k))
      && (d < s.past.closed ==> RowsOf(Live(s), d, k) == 0 && RowsOf(s.past.folded, d, k) == |PeopleOf(s.past.log, d, k)|)
      && (s.fold.Counted? ==> RowsOf(s.fold.counted, d, k) == if d < s.fold.bound then RowsOf(s.hits, d, k) else 0)
      && (s.fold.Deleted? ==>
        && RowsOf(s.fold.counted, d, k) == RowsOf(s.fold.gone, d, k)
        && (if d < s.fold.bound then RowsOf(s.hits, d, k) == 0 else RowsOf(s.fold.gone, d, k) == 0))
  }

  ghost predicate Books(s: State, d: int, k: Key) {
    Balanced(s, d, k) && FoldBalanced(s, d, k) && PeopleKept(s, d, k) && Punctual(s, d, k)
  }

  // ----- recording ----------------------------------------------------------------------------

  lemma LogGrows(log: seq<Recording>, r: Recording, d: int, k: Key)
    ensures var here := r.day == d && r.key == k;
      && CountOf(log + [r], d, k) == CountOf(log, d, k) + (if here then 1 else 0)
      && PeopleOf(log + [r], d, k) == PeopleOf(log, d, k) + (if here then {r.user} else {})
  {
    assert (log + [r])[..|log|] == log;
  }

  lemma {:induction false} LogAppend(a: seq<Recording>, b: seq<Recording>, d: int, k: Key)
    ensures CountOf(a + b, d, k) == CountOf(a, d, k) + CountOf(b, d, k)
    ensures PeopleOf(a + b, d, k) == PeopleOf(a, d, k) + PeopleOf(b, d, k)
    decreases |b|
  {
    if b == [] {
      assert a + b == a;
    } else {
      assert (a + b)[..|a + b| - 1] == a + b[..|b| - 1];
      LogAppend(a, b[..|b| - 1], d, k);
    }
  }

  /** Among rows of one salt a person has a row exactly when that person's hash has one. */
  lemma {:induction false} LockedIff(rows: seq<HitRow>, d: int, k: Key, h: Hash)
    requires Salted(rows, d, h.salt)
    ensures Locked(rows, d, k, h) <==> h.user in UsersOf(rows, d, k)
  {
    if rows != [] {
      assert rows[0] in rows;
      assert forall row :: row in rows[1..] ==> row in rows;
      LockedIff(rows[1..], d, k, h);
      if Locked(rows, d, k, h) && !IsRow(rows[0], d, k, h) {
        var i :| 0 <= i < |rows| && IsRow(rows[i], d, k, h);
        assert IsRow(rows[1..][i - 1], d, k, h);
      }
      if Locked(rows[1..], d, k, h) {
        var i :| 0 <= i < |rows[1..]| && IsRow(rows[1..][i], d, k, h);
        assert IsRow(rows[i + 1], d, k, h);
      }
      if rows[0].day == d && rows[0].key == k && rows[0].hash.user == h.user {
        assert IsRow(rows[0], d, k, h);
      }
    }
  }

  /** What an upsert that is not blocked does to the sums of a key. */
  lemma UpsertLive(s: State, id: nat, d: int, k: Key)
    requires SaltsSound(s) && id in s.calls && s.calls[id].HasSalt?
    requires !Locked(Gone(s), s.calls[id].day, s.calls[id].key, Hash(s.calls[id].salt, s.calls[id].user))
    ensures var s', c := DoUpsert(s, id), s.calls[id];
      var here := c.day == d && c.key == k;
      && s'.fold == s.fold && Gone(s') == Gone(s)
      && HitsOf(s'.hits, d, k) == HitsOf(s.hits, d, k) + (if here then 1 else 0)
      && UsersOf(s'.hits, d, k) == UsersOf(s.hits, d, k) + (if here then {c.user} else {})
      && (!here ==> RowsOf(s'.hits, d, k) == RowsOf(s.hits, d, k))
      && HitsOf(Live(s'), d, k) == HitsOf(Live(s), d, k) + (if here then 1 else 0)
      && UsersOf(Live(s'), d, k) == UsersOf(Live(s), d, k) + (if here then {c.user} else {})
      && RowsOf(Live(s'), d, k) == RowsOf(Live(s), d, k) + (if here && c.user !in UsersOf(Live(s), d, k) then 1 else 0)
  {
    hide Upserted, Locked, IsCounted, HitsOf, RowsOf, UsersOf;
    var c := s.calls[id];
    var h := Hash(c.salt, c.user);
    assert Salted(s.hits, c.day, c.salt);
    assert Salted(Gone(s), c.day, c.salt);
    UpsertSums(s.hits, c.day, c.key, h, d, k);
    LockedIff(Gone(s), c.day, c.key, h);
    SumsAppend(s.hits, Gone(s), d, k);
    SumsAppend(Upserted(s.hits, c.day, c.key, h), Gone(s), d, k);
  }

  /** The sums after an upsert. */
  ghost predicate OneMore(s: State, s': State, c: Call, d: int, k: Key)
    requires c.HasSalt?
  {
    var here := c.day == d && c.key == k;
    var one, them := if here then 1 else 0, if here then {c.user} else {};
    var waits := s.fold.Counted? && c.day < s.fold.bound;
    && s'.fold == s.fold && s'.daily == s.daily && Gone(s') == Gone(s)
    && s'.past.lost == s.past.lost && s'.past.folded == s.past.folded && s'.past.removed == s.past.removed
    && s'.past.closed == s.past.closed && s'.past.pruned == s.past.pruned
    && HitsOf(s'.hits, d, k) == HitsOf(s.hits, d, k) + one
    && UsersOf(s'.hits, d, k) == UsersOf(s.hits, d, k) + them
    && (!here ==> RowsOf(s'.hits, d, k) == RowsOf(s.hits, d, k))
    && HitsOf(Live(s'), d, k) == HitsOf(Live(s), d, k) + one
    && UsersOf(Live(s'), d, k) == UsersOf(Live(s), d, k) + them
    && RowsOf(Live(s'), d, k) == RowsOf(Live(s), d, k) + (if here && c.user !in UsersOf(Live(s), d, k) then 1 else 0)
    && CountOf(s'.past.log, d, k) == CountOf(s.past.log, d, k) + one
    && PeopleOf(s'.past.log, d, k) == PeopleOf(s.past.log, d, k) + them
    && CountOf(s'.past.pending, d, k) == CountOf(s.past.pending, d, k) + (if waits then one else 0)
    && PeopleOf(s'.past.pending, d, k) == PeopleOf(s.past.pending, d, k) + (if waits then them else {})
    && (!waits ==> s'.past.pending == s.past.pending)
    && (here && IsCounted(s, d) ==> (d, k) in s'.past.late) && s.past.late <= s'.past.late
  }

  lemma UpsertIsOneMore(s: State, id: nat, d: int, k: Key)
    requires SaltsSound(s) && id in s.calls && s.calls[id].HasSalt?
    requires !Locked(Gone(s), s.calls[id].day, s.calls[id].key, Hash(s.calls[id].salt, s.calls[id].user))
    ensures OneMore(s, DoUpsert(s, id), s.calls[id], d, k)
  {
    hide Upserted, Locked, IsCounted, HitsOf, RowsOf, UsersOf, CountOf, PeopleOf, SaltsSound;
    var c := s.calls[id];
    var r := Recording(c.day, c.key, c.user);
    UpsertLive(s, id, d, k);
    LogGrows(s.past.log, r, d, k);
    LogGrows(s.past.pending, r, d, k);
  }

  lemma OneMoreBalances(s: State, s': State, c: Call, d: int, k: Key)
    requires c.HasSalt? && OneMore(s, s', c, d, k) && Balanced(s, d, k) && FoldBalanced(s, d, k)
    ensures Balanced(s', d, k) && FoldBalanced(s', d, k)
  {
    hide HitsOf, RowsOf, UsersOf, CountOf, PeopleOf, DailyHits, DailySearchers, Live, IsCounted;
  }

  lemma OneMoreKeepsPeople(s: State, s': State, c: Call, d: int, k: Key)
    requires c.HasSalt? && OneMore(s, s', c, d, k) && PeopleKept(s, d, k)
    ensures PeopleKept(s', d, k)
  {
    hide HitsOf, RowsOf, UsersOf, CountOf, PeopleOf, Live, IsCounted;
    var u := UsersOf(Live(s), d, k);
    if c.day == d && c.key == k && c.user in u {
      assert u + {c.user} == u;
    }
  }

  lemma OneMoreIsPunctual(s: State, s': State, c: Call, d: int, k: Key)
    requires c.HasSalt? && OneMore(s, s', c, d, k) && Punctual(s, d, k)
    ensures Punctual(s', d, k)
  {
    hide HitsOf, RowsOf, UsersOf, CountOf, PeopleOf, Live;
  }

  lemma UpsertKeepsBooks(s: State, id: nat, d: int, k: Key)
    requires SaltsSound(s) && Books(s, d, k)
    ensures Books(DoUpsert(s, id), d, k)
  {
    hide Locked, SaltsSound, Balanced, FoldBalanced, PeopleKept, Punctual, OneMore;
    if id in s.calls && s.calls[id].HasSalt? {
      var c := s.calls[id];
      if !Locked(Gone(s), c.day, c.key, Hash(c.salt, c.user)) {
        var s' := DoUpsert(s, id);
        UpsertIsOneMore(s, id, d, k);
        OneMoreBalances(s, s', c, d, k);
        OneMoreKeepsPeople(s, s', c, d, k);
        OneMoreIsPunctual(s, s', c, d, k);
      }
    }
  }

  // ----- folding ------------------------------------------------------------------------------

  /** Counting takes what is there. */
  lemma CountKeepsBooks(s: State, d: int, k: Key)
    requires Books(s, d, k)
    ensures Books(Apply(s, FoldCount), d, k)
  {
    hide HitsOf, RowsOf, UsersOf, CountOf, PeopleOf, DailyHits, DailySearchers, Finished;
    if s.fold.Begun? {
      FinishedSums(s.hits, s.fold.bound, true, d, k);
      NothingLogged(d, k);
    }
  }

  lemma NothingLogged(d: int, k: Key)
    ensures CountOf([], d, k) == 0 && PeopleOf([], d, k) == {}
  {
  }

  /** Deleting splits the live rows in two. */
  lemma DeleteSplits(s: State, d: int, k: Key)
    requires s.fold.Counted?
    ensures var s' := Apply(s, FoldDelete);
      && HitsOf(Live(s'), d, k) == HitsOf(Live(s), d, k) && RowsOf(Live(s'), d, k) == RowsOf(Live(s), d, k)
      && UsersOf(Live(s'), d, k) == UsersOf(Live(s), d, k)
      && HitsOf(Gone(s'), d, k) == (if d < s.fold.bound then HitsOf(s.hits, d, k) else 0)
      && RowsOf(Gone(s'), d, k) == (if d < s.fold.bound then RowsOf(s.hits, d, k) else 0)
      && UsersOf(Gone(s'), d, k) == (if d < s.fold.bound then UsersOf(s.hits, d, k) else {})
      && RowsOf(s'.hits, d, k) == (if d < s.fold.bound then 0 else RowsOf(s.hits, d, k))
  {
    hide HitsOf, RowsOf, UsersOf, Finished;
    var b := s.fold.bound;
    FinishedSums(s.hits, b, true, d, k);
    FinishedSums(s.hits, b, false, d, k);
    SumsAppend(Finished(s.hits, b, false), Finished(s.hits, b, true), d, k);
    assert s.hits + [] == s.hits;
  }

  lemma DeleteBalances(s: State, d: int, k: Key)
    requires s.fold.Counted? && Balanced(s, d, k) && FoldBalanced(s, d, k)
    ensures Balanced(Apply(s, FoldDelete), d, k) && FoldBalanced(Apply(s, FoldDelete), d, k)
  {
    DeleteSplits(s, d, k);
    hide HitsOf, RowsOf, UsersOf, CountOf, PeopleOf, DailyHits, DailySearchers, Finished, Live;
    assert Balanced(Apply(s, FoldDelete), d, k) by { hide FoldBalanced; }
    hide Balanced;
  }

  lemma DeleteKeepsPeople(s: State, d: int, k: Key)
    requires s.fold.Counted? && PeopleKept(s, d, k) && Punctual(s, d, k)
    ensures PeopleKept(Apply(s, FoldDelete), d, k) && Punctual(Apply(s, FoldDelete), d, k)
  {
    DeleteSplits(s, d, k);
    hide HitsOf, RowsOf, UsersOf, CountOf, PeopleOf, DailyHits, DailySearchers, Finished, Live;
    assert PeopleKept(Apply(s, FoldDelete), d, k) by { hide Punctual; }
    hide PeopleKept;
  }

  lemma DeleteKeepsBooks(s: State, d: int, k: Key)
    requires Books(s, d, k)
    ensures Books(Apply(s, FoldDelete), d, k)
  {
    hide Balanced, FoldBalanced, PeopleKept, Punctual;
    if s.fold.Counted? {
      DeleteBalances(s, d, k);
      DeleteKeepsPeople(s, d, k);
    }
  }

  /** Rolling back puts the rows back. */
  lemma RollbackKeepsBooks(s: State, d: int, k: Key)
    requires Books(s, d, k)
    ensures Books(Apply(s, FoldRollback), d, k)
  {
    hide HitsOf, RowsOf, UsersOf, CountOf, PeopleOf, DailyHits, DailySearchers;
    NothingLogged(d, k);
    var s' := Apply(s, FoldRollback);
    assert Live(s') == Live(s);
  }

  /** With one row a person among two lists of rows there is one row a person in each. */
  lemma OneRowEach(a: seq<HitRow>, b: seq<HitRow>, d: int, k: Key)
    requires RowsOf(a + b, d, k) == |UsersOf(a + b, d, k)|
    ensures RowsOf(a, d, k) == |UsersOf(a, d, k)|
  {
    hide HitsOf, RowsOf, UsersOf;
    SumsAppend(a, b, d, k);
    RowsCoverUsers(a, d, k);
    RowsCoverUsers(b, d, k);
    UnionSize(UsersOf(a, d, k), UsersOf(b, d, k));
  }

  /** The sums after a commit. */
  lemma CommitMoves(s: State, d: int, k: Key)
    requires s.fold.Deleted?
    ensures var s' := DoCommit(s);
      && Live(s') == s.hits
      && HitsOf(Live(s), d, k) == HitsOf(s.hits, d, k) + HitsOf(s.fold.gone, d, k)
      && RowsOf(Live(s), d, k) == RowsOf(s.hits, d, k) + RowsOf(s.fold.gone, d, k)
      && UsersOf(Live(s), d, k) == UsersOf(s.hits, d, k) + UsersOf(s.fold.gone, d, k)
      && HitsOf(s'.past.folded, d, k) == HitsOf(s.past.folded, d, k) + HitsOf(s.fold.counted, d, k)
      && RowsOf(s'.past.folded, d, k) == RowsOf(s.past.folded, d, k) + RowsOf(s.fold.counted, d, k)
      && UsersOf(s'.past.folded, d, k) == UsersOf(s.past.folded, d, k) + UsersOf(s.fold.counted, d, k)
      && CountOf(s'.past.lost, d, k) == CountOf(s.past.lost, d, k) + CountOf(s.past.pending, d, k)
      && PeopleOf(s'.past.lost, d, k) == PeopleOf(s.past.lost, d, k) + PeopleOf(s.past.pending, d, k)
      && (Retains(s', d, k) ==>
        && DailyHits(s'.daily, d, k) == DailyHits(s.daily, d, k) + HitsOf(s.fold.counted, d, k)
        && DailySearchers(s'.daily, d, k) == DailySearchers(s.daily, d, k) + RowsOf(s.fold.counted, d, k))
  {
    hide HitsOf, RowsOf, UsersOf, CountOf, PeopleOf, DailyHits, DailySearchers, Folded, Retained;
    var s' := DoCommit(s);
    assert s.hits + [] == s.hits;
    SumsAppend(s.hits, s.fold.gone, d, k);
    SumsAppend(s.past.folded, s.fold.counted, d, k);
    LogAppend(s.past.lost, s.past.pending, d, k);
    FoldedSums(s.daily, s.fold.counted, d, k);
    if Retains(s', d, k) {
      RetainedSums(Folded(s.daily, s.fold.counted), s.fold.bound - RETENTION_DAYS, d, k);
    }
  }

  lemma CommitBalances(s: State, d: int, k: Key)
    requires s.fold.Deleted? && Balanced(s, d, k) && FoldBalanced(s, d, k)
    ensures Balanced(DoCommit(s), d, k) && FoldBalanced(DoCommit(s), d, k)
  {
    CommitMoves(s, d, k);
    hide HitsOf, RowsOf, UsersOf, CountOf, PeopleOf, DailyHits, DailySearchers, Live, Folded, Retained;
  }

  lemma CommitKeepsPeople(s: State, d: int, k: Key)
    requires s.fold.Deleted? && PeopleKept(s, d, k) && FoldBalanced(s, d, k)
    ensures PeopleKept(DoCommit(s), d, k)
  {
    hide HitsOf, RowsOf, UsersOf, CountOf, PeopleOf, DailyHits, DailySearchers, Folded, Retained;
    CommitMoves(s, d, k);
    OneRowEach(s.hits, s.fold.gone, d, k);
  }

  lemma CommitIsPunctual(s: State, d: int, k: Key)
    requires s.fold.Deleted? && Punctual(s, d, k) && PeopleKept(s, d, k)
    ensures Punctual(DoCommit(s), d, k)
  {
    hide HitsOf, RowsOf, UsersOf, CountOf, PeopleOf, DailyHits, DailySearchers, Folded, Retained;
    CommitMoves(s, d, k);
    NothingLogged(d, k);
    RowsCoverUsers(s.fold.gone, d, k);
    NoUsers(s.fold.gone, d, k);
  }

  lemma NoUsers(rows: seq<HitRow>, d: int, k: Key)
    ensures RowsOf(rows, d, k) == 0 ==> UsersOf(rows, d, k) == {}
  {
    RowsCoverUsers(rows, d, k);
  }

  lemma CommitKeepsBooks(s: State, d: int, k: Key)
    requires Books(s, d, k)
    ensures Books(DoCommit(s), d, k)
  {
    hide Balanced, FoldBalanced, PeopleKept, Punctual;
    if s.fold.Deleted? {
      CommitBalances(s, d, k);
      CommitKeepsPeople(s, d, k);
      CommitIsPunctual(s, d, k);
    }
  }

  // ----- deleting -----------------------------------------------------------------------------

  /** The books of a key depend on its sums only. */
  lemma SameSums(s: State, s': State, d: int, k: Key)
    requires Books(s, d, k) && s'.fold == s.fold
    requires s'.past.(removed := s.past.removed) == s.past && (k.query in s'.past.removed <==> k.query in s.past.removed)
    requires HitsOf(s'.hits, d, k) == HitsOf(s.hits, d, k) && RowsOf(s'.hits, d, k) == RowsOf(s.hits, d, k)
    requires UsersOf(s'.hits, d, k) == UsersOf(s.hits, d, k)
    requires DailyHits(s'.daily, d, k) == DailyHits(s.daily, d, k)
    requires DailySearchers(s'.daily, d, k) == DailySearchers(s.daily, d, k)
    ensures Books(s', d, k)
  {
    hide HitsOf, RowsOf, UsersOf, CountOf, PeopleOf, DailyHits, DailySearchers;
    SumsAppend(s.hits, Gone(s), d, k);
    SumsAppend(s'.hits, Gone(s), d, k);
    assert Live(s') == s'.hits + Gone(s) && Live(s) == s.hits + Gone(s);
    hide Live;
    assert Balanced(s', d, k) by { hide FoldBalanced, PeopleKept, Punctual; }
    assert FoldBalanced(s', d, k) by { hide Balanced, PeopleKept, Punctual; }
    assert PeopleKept(s', d, k) by { hide Balanced, FoldBalanced, Punctual; }
    assert Punctual(s', d, k) by { hide Balanced, FoldBalanced, PeopleKept; }
  }

  lemma RemoveHitsKeepsBooks(s: State, query: string, d: int, k: Key)
    requires Books(s, d, k)
    ensures Books(Apply(s, RemoveHits(query)), d, k)
  {
    hide HitsOf, RowsOf, UsersOf, CountOf, PeopleOf, DailyHits, DailySearchers, HitsWithout;
    var s' := Apply(s, RemoveHits(query));
    WithoutSums(s.hits, query, d, k);
    if k.query == query {
      OneRowEachOther(s.hits, Gone(s), d, k);
      SumsAppend(s'.hits, Gone(s), d, k);
      assert {} + UsersOf(Gone(s), d, k) == UsersOf(Gone(s), d, k);
    } else {
      SameSums(s, s', d, k);
    }
  }

  lemma RemoveDailyKeepsBooks(s: State, query: string, d: int, k: Key)
    requires Books(s, d, k)
    ensures Books(Apply(s, RemoveDaily(query)), d, k)
  {
    hide HitsOf, RowsOf, UsersOf, CountOf, PeopleOf, DailyHits, DailySearchers, DailyWithout;
    var s' := Apply(s, RemoveDaily(query));
    if k.query != query {
      DailyWithoutSums(s.daily, query, d, k);
      SameSums(s, s', d, k);
    } else {
      assert Live(s') == Live(s);
      hide Live;
    }
  }

  lemma OneRowEachOther(a: seq<HitRow>, b: seq<HitRow>, d: int, k: Key)
    requires RowsOf(a + b, d, k) == |UsersOf(a + b, d, k)|
    ensures RowsOf(b, d, k) == |UsersOf(b, d, k)|
  {
    hide HitsOf, RowsOf, UsersOf;
    SumsAppend(a, b, d, k);
    RowsCoverUsers(a, d, k);
    RowsCoverUsers(b, d, k);
    UnionSize(UsersOf(a, d, k), UsersOf(b, d, k));
  }

  // ----- every run ----------------------------------------------------------------------------

  /** Every step keeps the books of every key. */
  lemma BooksKept(s: State, e: Event, d: int, k: Key)
    requires SaltsSound(s) && Books(s, d, k)
    ensures Books(Apply(s, e), d, k)
  {
    hide HitsOf, RowsOf, UsersOf, CountOf, PeopleOf, DailyHits, DailySearchers, DoUpsert, DoCommit;
    match e
    case Upsert(id) => UpsertKeepsBooks(s, id, d, k);
    case FoldCount => CountKeepsBooks(s, d, k);
    case FoldDelete => DeleteKeepsBooks(s, d, k);
    case FoldCommit => CommitKeepsBooks(s, d, k);
    case FoldRollback => RollbackKeepsBooks(s, d, k);
    case RemoveHits(query) => RemoveHitsKeepsBooks(s, query, d, k);
    case RemoveDaily(query) => RemoveDailyKeepsBooks(s, query, d, k);
    case _ => SameBooks(s, Apply(s, e), d, k);
  }

  /** Steps that touch neither rows nor books. */
  lemma SameBooks(s: State, s': State, d: int, k: Key)
    requires Books(s, d, k) && s'.hits == s.hits && s'.daily == s.daily && s'.past.(issued := s.past.issued) == s.past
    requires s'.fold == s.fold || (s.fold.NoFold? && s'.fold.Begun?)
    ensures Books(s', d, k)
  {
    assert Live(s') == Live(s);
    hide Live, HitsOf, RowsOf, UsersOf, CountOf, PeopleOf, DailyHits, DailySearchers;
  }

  lemma {:induction false} RunKeeps(s: State, events: seq<Event>, d: int, k: Key)
    requires SaltsSound(s) && Books(s, d, k)
    ensures SaltsSound(Run(s, events)) && Books(Run(s, events), d, k)
    decreases |events|
  {
    hide SaltsSound, Books, Apply;
    if events != [] {
      SaltsKept(s, events[0]);
      BooksKept(s, events[0], d, k);
      RunKeeps(Apply(s, events[0]), events[1..], d, k);
    }
  }

  /** Every run from empty tables keeps the books of every key. */
  lemma Reachable(today: int, events: seq<Event>, d: int, k: Key)
    ensures SaltsSound(Run(Initial(today), events)) && Books(Run(Initial(today), events), d, k)
  {
    hide Run, Apply;
    RunKeeps(Initial(today), events, d, k);
  }

  /** At most one salt ever exists for a day, and every hash of the day is made with it. */
  lemma OneSaltEver(today: int, events: seq<Event>, d: int, a: Salt, b: Salt, row: HitRow)
    requires var s := Run(Initial(today), events); (d, a) in s.past.issued && (d, b) in s.past.issued
    ensures a == b
    ensures row in Run(Initial(today), events).hits && row.day == d ==> row.hash.salt == a
  {
    hide Run, Apply;
    Reachable(today, events, d, Key("", "", ""));
    assert (d, a) == (d, b);
    var s := Run(Initial(today), events);
    if row in s.hits && row.day == d {
      assert (row.day, row.hash.salt) in s.past.issued;
      assert (d, row.hash.salt) == (d, a);
    }
  }

  /** Live and folded hits make up the recordings of every retained key but for those lost between a
      fold's count and its delete. */
  lemma HitsConserved(today: int, events: seq<Event>, d: int, k: Key)
    requires Retains(Run(Initial(today), events), d, k)
    ensures var s := Run(Initial(today), events);
      CountOf(s.past.log, d, k) == HitsOf(Live(s), d, k) + DailyHits(s.daily, d, k) + CountOf(s.past.lost, d, k)
  {
    hide Run, Apply, HitsOf, DailyHits, CountOf;
    Reachable(today, events, d, k);
  }

  /** Live and folded searchers never undercount the people who searched, short of those lost. */
  lemma SearchersNeverUndercount(today: int, events: seq<Event>, d: int, k: Key)
    requires Retains(Run(Initial(today), events), d, k)
    ensures var s := Run(Initial(today), events);
      |PeopleOf(s.past.log, d, k)| <=
        RowsOf(Live(s), d, k) + DailySearchers(s.daily, d, k) + |PeopleOf(s.past.lost, d, k)|
    ensures var s := Run(Initial(today), events);
      CountOf(s.past.lost, d, k) == 0 ==>
        |PeopleOf(s.past.log, d, k)| <= RowsOf(Live(s), d, k) + DailySearchers(s.daily, d, k)
  {
    hide Run, Apply, HitsOf, DailyHits, CountOf, PeopleOf, UsersOf, RowsOf, DailySearchers;
    Reachable(today, events, d, k);
    var s := Run(Initial(today), events);
    var live, folded, lost := UsersOf(Live(s), d, k), UsersOf(s.past.folded, d, k), PeopleOf(s.past.lost, d, k);
    RowsCoverUsers(s.past.folded, d, k);
    SubsetSize(PeopleOf(s.past.log, d, k), live + folded + lost);
    UnionSize(live + folded, lost);
    UnionSize(live, folded);
    NobodyCounted(s.past.lost, d, k);
  }

  lemma {:induction false} NobodyCounted(log: seq<Recording>, d: int, k: Key)
    ensures CountOf(log, d, k) == 0 ==> PeopleOf(log, d, k) == {}
  {
    if log != [] {
      NobodyCounted(log[..|log| - 1], d, k);
    }
  }

  /** They are exact when no recording lands after its day was counted; then nothing is lost either. */
  lemma SearchersExact(today: int, events: seq<Event>, d: int, k: Key)
    requires var s := Run(Initial(today), events); Retains(s, d, k) && (d, k) !in s.past.late
    ensures var s := Run(Initial(today), events);
      && RowsOf(Live(s), d, k) + DailySearchers(s.daily, d, k) == |PeopleOf(s.past.log, d, k)|
      && CountOf(s.past.log, d, k) == HitsOf(Live(s), d, k) + DailyHits(s.daily, d, k)
  {
    hide Run, Apply, HitsOf, DailyHits, CountOf, PeopleOf, UsersOf, RowsOf, DailySearchers;
    Reachable(today, events, d, k);
  }

  // ----- when nothing is lost -----------------------------------------------------------------

  /** Nothing runs between a fold's count and its delete. */
  predicate FoldsTogether(events: seq<Event>) {
    forall i :: 0 <= i < |events| - 1 && events[i] == FoldCount ==> events[i + 1] == FoldDelete
  }

  /** Then nothing is lost. */
  lemma {:induction false} NothingLost(s: State, events: seq<Event>)
    requires FoldsTogether(events) && s.past.pending == [] && s.past.lost == []
    requires s.fold.Counted? ==> events == [] || events[0] == FoldDelete
    ensures Run(s, events).past.lost == []
    decreases |events|
  {
    hide Finished, Upserted, Locked, IsCounted, Folded, Retained;
    if events != [] {
      var s' := Apply(s, events[0]);
      assert FoldsTogether(events[1..]);
      assert s'.past.pending == [] && s'.past.lost == [];
      assert s'.fold.Counted? ==> events[0] == FoldCount || s.fold.Counted?;
      NothingLost(s', events[1..]);
    }
  }

  /** A recording whose day ended before its upsert, landing between the count and the delete. */
  function Straggler(k: Key): seq<Event> {
    [Start(0, 0, k, 7), ReadDay(0), InsertSalt(0, 3), ReadSalt(0), Tick(1), FoldBegin, FoldCount, Upsert(0), FoldDelete, FoldCommit]
  }

  lemma RunFrom(s: State, events: seq<Event>, i: nat)
    requires i < |events|
    ensures Run(s, events[i..]) == Run(Apply(s, events[i]), events[i + 1..])
  {
    hide Apply;
    assert events[i..][1..] == events[i + 1..];
  }

  /** Five steps at once. */
  lemma RunFive(s: State, events: seq<Event>, i: nat)
    requires i + 5 <= |events|
    ensures Run(s, events[i..]) ==
      Run(Apply(Apply(Apply(Apply(Apply(s, events[i]), events[i + 1]), events[i + 2]), events[i + 3]), events[i + 4]), events[i + 5..])
  {
    hide Apply, Run;
    var s1 := Apply(s, events[i]);
    var s2 := Apply(s1, events[i + 1]);
    var s3 := Apply(s2, events[i + 2]);
    RunFrom(s, events, i);
    RunFrom(s1, events, i + 1);
    RunFrom(s2, events, i + 2);
    RunFrom(s3, events, i + 3);
    RunFrom(Apply(s3, events[i + 3]), events, i + 4);
  }

  /** It is recorded, and then neither live nor folded: housekeeping loses it. */
  lemma StragglerIsLost(k: Key)
    ensures var s := Run(Initial(0), Straggler(k));
      && CountOf(s.past.log, 0, k) == 1 && Retains(s, 0, k)
      && HitsOf(Live(s), 0, k) + DailyHits(s.daily, 0, k) == 0
  {
    hide Run;
    var e := Straggler(k);
    assert e[0..] == e;
    RunFive(Initial(0), e, 0);
    var s5 := StragglerAsks(k);
    RunFive(s5, e, 5);
    var s := StragglerFolded(k, s5);
    assert e[10..] == [];
    assert Run(s, []) == s by { RunNothing(s); }
  }

  lemma RunNothing(s: State)
    ensures Run(s, []) == s
  {
  }

  /** The day has ended, and the call holds its salt. */
  lemma StragglerAsks(k: Key) returns (s: State)
    ensures s == Apply(Apply(Apply(Apply(Apply(Initial(0), Start(0, 0, k, 7)), ReadDay(0)), InsertSalt(0, 3)), ReadSalt(0)), Tick(1))
    ensures s.today == 1 && 0 in s.calls && s.calls[0] == HasSalt(0, k, 7, 0, 3) && s.fold == NoFold
    ensures s.hits == [] && s.daily == [] && s.past == Initial(0).past.(issued := {(0, 3)})
  {
    s := Apply(Apply(Initial(0), Start(0, 0, k, 7)), ReadDay(0));
    assert s.calls[0] == HasDay(0, k, 7, 0);
    s := Apply(s, InsertSalt(0, 3));
    assert s.calls[0] == Asked(0, k, 7, 0) && s.salts[0] == 3;
    s := Apply(Apply(s, ReadSalt(0)), Tick(1));
  }

  /** The fold counts nothing, and the call then records. */
  lemma StragglerRecords(k: Key, s0: State) returns (s: State)
    requires s0.today == 1 && 0 in s0.calls && s0.calls[0] == HasSalt(0, k, 7, 0, 3) && s0.fold == NoFold
    requires s0.hits == [] && s0.daily == [] && s0.past == Initial(0).past.(issued := {(0, 3)})
    ensures s == Apply(Apply(Apply(s0, FoldBegin), FoldCount), Upsert(0))
    ensures s.hits == [HitRow(0, k, Hash(3, 7), 1)] && s.daily == [] && s.fold == Counted(1, [])
    ensures CountOf(s.past.log, 0, k) == 1 && Retains(s, 0, k) && s.past.pruned == 0
  {
    hide CountOf;
    s := Apply(Apply(s0, FoldBegin), FoldCount);
    assert s.fold == Counted(1, []) && s.past == s0.past;
    assert !Locked(Gone(s), 0, k, Hash(3, 7));
    s := Apply(s, Upsert(0));
    assert s.past.log == [] + [Recording(0, k, 7)];
    LogGrows([], Recording(0, k, 7), 0, k);
    assert CountOf([], 0, k) == 0 by { NothingLogged(0, k); }
  }

  lemma StragglerFolded(k: Key, s0: State) returns (s: State)
    requires s0.today == 1 && 0 in s0.calls && s0.calls[0] == HasSalt(0, k, 7, 0, 3) && s0.fold == NoFold
    requires s0.hits == [] && s0.daily == [] && s0.past == Initial(0).past.(issued := {(0, 3)})
    ensures s == Apply(Apply(Apply(Apply(Apply(s0, FoldBegin), FoldCount), Upsert(0)), FoldDelete), FoldCommit)
    ensures CountOf(s.past.log, 0, k) == 1 && Retains(s, 0, k)
    ensures HitsOf(Live(s), 0, k) + DailyHits(s.daily, 0, k) == 0
  {
    hide CountOf, DoUpsert;
    s := StragglerRecords(k, s0);
    var row := HitRow(0, k, Hash(3, 7), 1);
    assert [row][1..] == [];
    assert Finished([row], 1, true) == [row] && Finished([row], 1, false) == [];
    s := Apply(s, FoldDelete);
    assert s.fold == Deleted(1, [], [row]) && s.hits == [];
    s := Apply(s, FoldCommit);
    assert s.hits == [] && s.daily == [];
  }
}
