/**
 The tables of the search-gap counts (packages/shared/src/search-gaps-db.ts): the statements that
 change them, and what each does to the sums.
 */
module GapTables {
  import opened Common

  type Salt = nat
  type User = nat

  datatype Key = Key(query: string, surface: string, mode: string)

  /** The keyed hash of a user id under a salt, as a free term: injective, and nothing else is known. */
  datatype Hash = Hash(salt: Salt, user: User)

  datatype HitRow = HitRow(day: int, key: Key, hash: Hash, hits: nat)

  datatype DailyRow = DailyRow(day: int, key: Key, hits: nat, searchers: nat)

  // ----- sums ---------------------------------------------------------------------------------

  function HitsOf(rows: seq<HitRow>, d: int, k: Key): nat {
    if rows == [] then 0
    else (if rows[0].day == d && rows[0].key == k then rows[0].hits else 0) + HitsOf(rows[1..], d, k)
  }

  function RowsOf(rows: seq<HitRow>, d: int, k: Key): nat {
    if rows == [] then 0
    else (if rows[0].day == d && rows[0].key == k then 1 else 0) + RowsOf(rows[1..], d, k)
  }

  function UsersOf(rows: seq<HitRow>, d: int, k: Key): set<User> {
    if rows == [] then {}
    else (if rows[0].day == d && rows[0].key == k then {rows[0].hash.user} else {}) + UsersOf(rows[1..], d, k)
  }

  function DailyHits(rows: seq<DailyRow>, d: int, k: Key): nat {
    if rows == [] then 0
    else (if rows[0].day == d && rows[0].key == k then rows[0].hits else 0) + DailyHits(rows[1..], d, k)
  }

  function DailySearchers(rows: seq<DailyRow>, d: int, k: Key): nat {
    if rows == [] then 0
    else (if rows[0].day == d && rows[0].key == k then rows[0].searchers else 0) + DailySearchers(rows[1..], d, k)
  }

  // ----- the statements -----------------------------------------------------------------------

  predicate IsRow(row: HitRow, d: int, k: Key, h: Hash) {
    row.day == d && row.key == k && row.hash == h
  }

  /** Insert a hit, or add one to the row that has its primary key. */
  function Upserted(rows: seq<HitRow>, d: int, k: Key, h: Hash): seq<HitRow> {
    if rows == [] then [HitRow(d, k, h, 1)]
    else if IsRow(rows[0], d, k, h) then [rows[0].(hits := rows[0].hits + 1)] + rows[1..]
    else [rows[0]] + Upserted(rows[1..], d, k, h)
  }

  /** Add one hit row's counts to the daily row of its day and key. */
  function AddedDaily(daily: seq<DailyRow>, row: HitRow): seq<DailyRow> {
    if daily == [] then [DailyRow(row.day, row.key, row.hits, 1)]
    else if daily[0].day == row.day && daily[0].key == row.key then
      [DailyRow(row.day, row.key, daily[0].hits + row.hits, daily[0].searchers + 1)] + daily[1..]
    else [daily[0]] + AddedDaily(daily[1..], row)
  }

  function Folded(daily: seq<DailyRow>, rows: seq<HitRow>): seq<DailyRow>
    decreases |rows|
  {
    if rows == [] then daily else Folded(AddedDaily(daily, rows[0]), rows[1..])
  }

  /** The rows of the days before a bound, or of the others. */
  function Finished(rows: seq<HitRow>, bound: int, yes: bool): (r: seq<HitRow>)
    ensures forall row :: row in r <==> row in rows && (row.day < bound <==> yes)
  {
    if rows == [] then []
    else if rows[0].day < bound <==> yes then [rows[0]] + Finished(rows[1..], bound, yes)
    else Finished(rows[1..], bound, yes)
  }

  function Retained(daily: seq<DailyRow>, bound: int): seq<DailyRow> {
    if daily == [] then []
    else if daily[0].day < bound then Retained(daily[1..], bound)
    else [daily[0]] + Retained(daily[1..], bound)
  }

  /** Without the rows of one query. */
  function HitsWithout(rows: seq<HitRow>, query: string): (r: seq<HitRow>)
    ensures forall row :: row in r ==> row in rows
  {
    if rows == [] then []
    else if rows[0].key.query == query then HitsWithout(rows[1..], query)
    else [rows[0]] + HitsWithout(rows[1..], query)
  }

  function DailyWithout(daily: seq<DailyRow>, query: string): seq<DailyRow> {
    if daily == [] then []
    else if daily[0].key.query == query then DailyWithout(daily[1..], query)
    else [daily[0]] + DailyWithout(daily[1..], query)
  }

  // ----- what they do to the sums -------------------------------------------------------------

  lemma {:induction false} SumsAppend(a: seq<HitRow>, b: seq<HitRow>, d: int, k: Key)
    ensures HitsOf(a + b, d, k) == HitsOf(a, d, k) + HitsOf(b, d, k)
    ensures RowsOf(a + b, d, k) == RowsOf(a, d, k) + RowsOf(b, d, k)
    ensures UsersOf(a + b, d, k) == UsersOf(a, d, k) + UsersOf(b, d, k)
  {
    if a == [] {
      assert a + b == b;
    } else {
      assert (a + b)[1..] == a[1..] + b;
      SumsAppend(a[1..], b, d, k);
    }
  }

  /** There are at least as many rows as people. */
  lemma {:induction false} RowsCoverUsers(rows: seq<HitRow>, d: int, k: Key)
    ensures |UsersOf(rows, d, k)| <= RowsOf(rows, d, k)
  {
    if rows != [] {
      RowsCoverUsers(rows[1..], d, k);
      UnionSize(if rows[0].day == d && rows[0].key == k then {rows[0].hash.user} else {}, UsersOf(rows[1..], d, k));
    }
  }

  lemma {:induction false} SubsetSize(a: set<User>, b: set<User>)
    requires a <= b
    ensures |a| <= |b|
    decreases |a|
  {
    if a != {} {
      var x :| x in a;
      SubsetSize(a - {x}, b - {x});
    }
  }

  /** Splitting the rows by a bound splits the sums by it. */
  lemma {:induction false} FinishedSums(rows: seq<HitRow>, bound: int, yes: bool, d: int, k: Key)
    ensures var keep := d < bound <==> yes;
      && HitsOf(Finished(rows, bound, yes), d, k) == (if keep then HitsOf(rows, d, k) else 0)
      && RowsOf(Finished(rows, bound, yes), d, k) == (if keep then RowsOf(rows, d, k) else 0)
      && UsersOf(Finished(rows, bound, yes), d, k) == (if keep then UsersOf(rows, d, k) else {})
  {
    if rows != [] {
      FinishedSums(rows[1..], bound, yes, d, k);
      var rest := Finished(rows[1..], bound, yes);
      assert ([rows[0]] + rest)[1..] == rest;
    }
  }

  /** All rows of a day carry the same salt. */
  ghost predicate Salted(rows: seq<HitRow>, d: int, salt: Salt) {
    forall row :: row in rows && row.day == d ==> row.hash.salt == salt
  }

  /** An upsert counts one hit, and one row more exactly when the person is new. */
  lemma {:induction false} UpsertSums(rows: seq<HitRow>, day: int, key: Key, h: Hash, d: int, k: Key)
    requires Salted(rows, day, h.salt)
    ensures var here, after := d == day && k == key, Upserted(rows, day, key, h);
      && HitsOf(after, d, k) == HitsOf(rows, d, k) + (if here then 1 else 0)
      && RowsOf(after, d, k) == RowsOf(rows, d, k) + (if here && h.user !in UsersOf(rows, d, k) then 1 else 0)
      && UsersOf(after, d, k) == UsersOf(rows, d, k) + (if here then {h.user} else {})
  {
    if rows != [] {
      assert rows[0] in rows;
      assert forall row :: row in rows[1..] ==> row in rows;
      UpsertSums(rows[1..], day, key, h, d, k);
      var rest := Upserted(rows[1..], day, key, h);
      if IsRow(rows[0], day, key, h) {
        assert Upserted(rows, day, key, h)[1..] == rows[1..];
        assert UsersOf(rows, d, k) + (if d == day && k == key then {h.user} else {}) == UsersOf(rows, d, k);
      } else {
        assert ([rows[0]] + rest)[1..] == rest;
      }
    }
  }

  /** Every row after an upsert is an old one or the one upserted. */
  lemma {:induction false} UpsertKeeps(rows: seq<HitRow>, day: int, key: Key, h: Hash)
    ensures forall row :: row in Upserted(rows, day, key, h) ==> row in rows || IsRow(row, day, key, h)
  {
    if rows != [] {
      UpsertKeeps(rows[1..], day, key, h);
      assert forall row :: row in rows[1..] ==> row in rows;
    }
  }

  lemma {:induction false} AddedSums(daily: seq<DailyRow>, row: HitRow, d: int, k: Key)
    ensures var here, after := row.day == d && row.key == k, AddedDaily(daily, row);
      && DailyHits(after, d, k) == DailyHits(daily, d, k) + (if here then row.hits else 0)
      && DailySearchers(after, d, k) == DailySearchers(daily, d, k) + (if here then 1 else 0)
  {
    if daily != [] {
      AddedSums(daily[1..], row, d, k);
    }
  }

  /** Folding rows moves their hits and their number into the daily counts. */
  lemma {:induction false} FoldedSums(daily: seq<DailyRow>, rows: seq<HitRow>, d: int, k: Key)
    ensures DailyHits(Folded(daily, rows), d, k) == DailyHits(daily, d, k) + HitsOf(rows, d, k)
    ensures DailySearchers(Folded(daily, rows), d, k) == DailySearchers(daily, d, k) + RowsOf(rows, d, k)
    decreases |rows|
  {
    if rows != [] {
      AddedSums(daily, rows[0], d, k);
      FoldedSums(AddedDaily(daily, rows[0]), rows[1..], d, k);
    }
  }

  lemma {:induction false} RetainedSums(daily: seq<DailyRow>, bound: int, d: int, k: Key)
    requires d >= bound
    ensures DailyHits(Retained(daily, bound), d, k) == DailyHits(daily, d, k)
    ensures DailySearchers(Retained(daily, bound), d, k) == DailySearchers(daily, d, k)
  {
    if daily != [] {
      RetainedSums(daily[1..], bound, d, k);
      var rest := Retained(daily[1..], bound);
      assert ([daily[0]] + rest)[1..] == rest;
    }
  }

  lemma {:induction false} WithoutSums(rows: seq<HitRow>, query: string, d: int, k: Key)
    ensures HitsOf(HitsWithout(rows, query), d, k) == if k.query == query then 0 else HitsOf(rows, d, k)
    ensures RowsOf(HitsWithout(rows, query), d, k) == if k.query == query then 0 else RowsOf(rows, d, k)
    ensures UsersOf(HitsWithout(rows, query), d, k) == if k.query == query then {} else UsersOf(rows, d, k)
  {
    if rows != [] {
      WithoutSums(rows[1..], query, d, k);
      var rest := HitsWithout(rows[1..], query);
      assert ([rows[0]] + rest)[1..] == rest;
    }
  }

  lemma {:induction false} DailyWithoutSums(daily: seq<DailyRow>, query: string, d: int, k: Key)
    ensures DailyHits(DailyWithout(daily, query), d, k) == if k.query == query then 0 else DailyHits(daily, d, k)
    ensures DailySearchers(DailyWithout(daily, query), d, k) == if k.query == query then 0 else DailySearchers(daily, d, k)
  {
    if daily != [] {
      DailyWithoutSums(daily[1..], query, d, k);
      var rest := DailyWithout(daily[1..], query);
      assert ([daily[0]] + rest)[1..] == rest;
    }
  }
}
