/**
 What the housekeeping fold of the search-gap counts (packages/shared/src/search-gaps-db.ts) removes: daily
 counts past the retention, and the salts of finished days, over every run.
 */
module GapRetention {
  import opened GapTables
  import opened GapCounting

  /** Pruning leaves exactly the rows at or behind the bound, as often as they were there. */
  lemma {:induction false} RetainedExactly(daily: seq<DailyRow>, bound: int)
    ensures forall row :: row in Retained(daily, bound) <==> row in daily && row.day >= bound
    ensures forall row: DailyRow :: row.day >= bound ==> multiset(Retained(daily, bound))[row] == multiset(daily)[row]
  {
    if daily != [] {
      RetainedExactly(daily[1..], bound);
      assert daily == [daily[0]] + daily[1..];
    }
  }

  /** And in their order. */
  lemma {:induction false} RetainedAppend(a: seq<DailyRow>, b: seq<DailyRow>, bound: int)
    ensures Retained(a + b, bound) == Retained(a, bound) + Retained(b, bound)
  {
    if a == [] {
      assert a + b == b;
    } else {
      assert (a + b)[1..] == a[1..] + b;
      RetainedAppend(a[1..], b, bound);
    }
  }

  /** No daily count is older than 90 days before the last committed fold, and no salt is of a day it finished. */
  ghost predicate Aged(s: State) {
    && (forall row :: row in s.daily ==> row.day >= s.past.closed - 90)
    && (forall d :: d in s.salts ==> d >= s.past.closed)
    && s.past.closed <= s.today
    && (!s.fold.NoFold? ==> s.past.closed <= s.fold.bound <= s.today)
  }

  lemma {:induction false} DailyWithoutKeeps(daily: seq<DailyRow>, query: string)
    ensures forall row :: row in DailyWithout(daily, query) ==> row in daily
  {
    if daily != [] {
      DailyWithoutKeeps(daily[1..], query);
    }
  }

  lemma AgedKept(s: State, e: Event)
    requires Aged(s)
    ensures Aged(Apply(s, e))
  {
    hide Folded, Retained, Finished, Upserted, HitsWithout, DailyWithout, Locked, IsCounted;
    match e
    case FoldCommit =>
      if s.fold.Deleted? {
        RetainedExactly(Folded(s.daily, s.fold.counted), s.fold.bound - 90);
      }
    case RemoveDaily(query) => DailyWithoutKeeps(s.daily, query);
    case _ =>
  }

  lemma {:induction false} AgedRun(s: State, events: seq<Event>)
    requires Aged(s)
    ensures Aged(Run(s, events))
    decreases |events|
  {
    hide Aged, Apply;
    if events != [] {
      AgedKept(s, events[0]);
      AgedRun(Apply(s, events[0]), events[1..]);
    }
  }

  /** In every reachable state. */
  lemma AgedEver(today: int, events: seq<Event>)
    ensures Aged(Run(Initial(today), events))
  {
    hide Run, Apply;
    AgedRun(Initial(today), events);
  }

  /** And a committed fold is the last one committed: behind it the bound is its own day. */
  lemma CommitCloses(s: State)
    requires Aged(s) && s.fold.Deleted?
    ensures var s' := Apply(s, FoldCommit);
      && s'.past.closed == s.fold.bound
      && (forall row :: row in s'.daily ==> row.day >= s.fold.bound - 90)
      && (forall d :: d in s'.salts <==> d in s.salts && d >= s.fold.bound)
  {
    hide Folded, Retained;
    AgedKept(s, FoldCommit);
  }
}
