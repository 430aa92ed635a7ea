/**
 Exactly which hits the search-gap fold loses (packages/shared/src/search-gaps-db.ts): those recorded for a
 finished day between the count and the delete of a fold that commits.
 */
module GapLoss {
  import opened GapTables
  import opened GapCounting

  /** A call records a hit of the key and day, which the running fold has counted and not yet deleted. */
  predicate Misses(s: State, e: Event, d: int, k: Key) {
    && e.Upsert? && s.fold.Counted? && d < s.fold.bound
    && e.id in s.calls && s.calls[e.id].HasSalt? && s.calls[e.id].day == d && s.calls[e.id].key == k
  }

  predicate Commits(s: State, e: Event) { e.FoldCommit? && s.fold.Deleted? }

  /** The state in front of event i. */
  function At(s: State, events: seq<Event>, i: nat): State
    requires i <= |events|
    decreases i
  {
    if i == 0 then s else At(Apply(s, events[0]), events[1..], i - 1)
  }

  predicate NoRollback(events: seq<Event>, from: int, to: int) {
    forall x :: from < x < to && 0 <= x < |events| ==> events[x] != FoldRollback
  }

  /** Event i records a hit that the running fold has counted past, and event j commits that fold. */
  ghost predicate LosesAt(s: State, events: seq<Event>, d: int, k: Key, i: nat, j: nat) {
    i < j < |events| && Misses(At(s, events, i), events[i], d, k) && Commits(At(s, events, j), events[j]) && NoRollback(events, i, j)
  }

  ghost predicate Loses(s: State, events: seq<Event>, d: int, k: Key) {
    exists i: nat, j: nat :: LosesAt(s, events, d, k, i, j)
  }

  /** Event j commits the fold that was running at the start. */
  ghost predicate CommitsAt(s: State, events: seq<Event>, j: nat) {
    j < |events| && Commits(At(s, events, j), events[j]) && NoRollback(events, -1, j)
  }

  ghost predicate CommitsFirst(s: State, events: seq<Event>) {
    exists j: nat :: CommitsAt(s, events, j)
  }

  // ----- one event ----------------------------------------------------------------------------

  function Pending(s: State, d: int, k: Key): nat { CountOf(s.past.pending, d, k) }

  function Lost(s: State, d: int, k: Key): nat { CountOf(s.past.lost, d, k) }

  /** What one step does to the hits waiting to be lost and to those lost. */
  lemma StepCounts(s: State, e: Event, d: int, k: Key)
    ensures var s' := Apply(s, e);
      && Lost(s', d, k) == Lost(s, d, k) + (if Commits(s, e) then Pending(s, d, k) else 0)
      && Pending(s', d, k) ==
        if Commits(s, e) || e == FoldRollback then 0
        else Pending(s, d, k) + if Misses(s, e, d, k) then 1 else 0
  {
    hide Finished, Upserted, IsCounted, Folded, Retained, HitsWithout, DailyWithout;
    NothingLogged(d, k);
    if e.Upsert? && e.id in s.calls && s.calls[e.id].HasSalt? {
      var c := s.calls[e.id];
      LogGrows(s.past.pending, Recording(c.day, c.key, c.user), d, k);
      assert s.fold.Counted? ==> Gone(s) == [];
    } else if Commits(s, e) {
      LogAppend(s.past.lost, s.past.pending, d, k);
    }
  }

  // ----- runs ---------------------------------------------------------------------------------

  /** A pair of events behind the first is a pair of the rest. */
  lemma LosesLater(s: State, events: seq<Event>, d: int, k: Key, i: nat, j: nat)
    requires events != []
    ensures LosesAt(s, events, d, k, i + 1, j + 1) <==> LosesAt(Apply(s, events[0]), events[1..], d, k, i, j)
    ensures LosesAt(s, events, d, k, 0, j + 1) <==>
      Misses(s, events[0], d, k) && CommitsAt(Apply(s, events[0]), events[1..], j)
    ensures CommitsAt(s, events, j + 1) <==> events[0] != FoldRollback && CommitsAt(Apply(s, events[0]), events[1..], j)
    ensures CommitsAt(s, events, 0) <==> Commits(s, events[0])
  {
    hide Apply, Misses, Commits;
    NoRollbackLater(events, i + 1, j + 1);
    NoRollbackLater(events, 0, j + 1);
    assert NoRollback(events, -1, j + 1) <==> events[0] != FoldRollback && NoRollback(events, 0, j + 1) by {
      if NoRollback(events, -1, j + 1) {
        assert 0 <= 0 < |events|;
      }
    }
  }

  lemma NoRollbackLater(events: seq<Event>, from: nat, to: nat)
    requires events != []
    ensures NoRollback(events, from, to) <==> NoRollback(events[1..], from - 1, to - 1)
  {
    var rest := events[1..];
    if NoRollback(events, from, to) {
      forall x | from - 1 < x < to - 1 && 0 <= x < |rest| ensures rest[x] != FoldRollback {
        assert rest[x] == events[x + 1];
      }
    }
    if NoRollback(rest, from - 1, to - 1) {
      forall x | from < x < to && 0 <= x < |events| ensures events[x] != FoldRollback {
        assert events[x] == rest[x - 1];
      }
    }
  }

  /** What a run loses, from the first event on. */
  lemma SplitFirst(s: State, events: seq<Event>, d: int, k: Key)
    requires events != []
    ensures var after, rest := Apply(s, events[0]), events[1..];
      && (Loses(s, events, d, k) <==>
        Loses(after, rest, d, k) || (Misses(s, events[0], d, k) && CommitsFirst(after, rest)))
      && (CommitsFirst(s, events) <==> Commits(s, events[0]) || (events[0] != FoldRollback && CommitsFirst(after, rest)))
  {
    hide Apply, Misses, Commits, LosesAt, CommitsAt;
    var after, rest := Apply(s, events[0]), events[1..];
    if Loses(s, events, d, k) {
      var i: nat, j: nat :| LosesAt(s, events, d, k, i, j);
      assert j > 0 by { LosesOrder(s, events, d, k, i, j); }
      LosesLater(s, events, d, k, if i > 0 then i - 1 else 0, j - 1);
    }
    if Loses(after, rest, d, k) {
      var i: nat, j: nat :| LosesAt(after, rest, d, k, i, j);
      LosesLater(s, events, d, k, i, j);
    }
    if CommitsFirst(after, rest) {
      var j: nat :| CommitsAt(after, rest, j);
      LosesLater(s, events, d, k, 0, j);
    }
    LosesLater(s, events, d, k, 0, 0);
    assert Commits(s, events[0]) ==> CommitsAt(s, events, 0);
    if CommitsFirst(s, events) {
      var j: nat :| CommitsAt(s, events, j);
      if j > 0 {
        LosesLater(s, events, d, k, 0, j - 1);
      }
    }
  }

  lemma LosesOrder(s: State, events: seq<Event>, d: int, k: Key, i: nat, j: nat)
    requires LosesAt(s, events, d, k, i, j)
    ensures i < j
  {
  }

  /** A run never takes back a loss; it adds one if and only if a hit was waiting and its fold commits, or
      a hit is recorded between the count and the delete of a fold that commits. */
  lemma {:induction false} LossIs(s: State, events: seq<Event>, d: int, k: Key)
    ensures Lost(Run(s, events), d, k) >= Lost(s, d, k)
    ensures Lost(Run(s, events), d, k) > Lost(s, d, k) <==>
      (Pending(s, d, k) > 0 && CommitsFirst(s, events)) || Loses(s, events, d, k)
    decreases |events|
  {
    hide Apply, Misses, Commits, Pending, Lost;
    if events != [] {
      hide Loses, CommitsFirst;
      var after := Apply(s, events[0]);
      LossIs(after, events[1..], d, k);
      StepCounts(s, events[0], d, k);
      SplitFirst(s, events, d, k);
      assert Misses(s, events[0], d, k) ==> events[0] != FoldRollback && !Commits(s, events[0]) by { MissIsNoEnd(s, events[0], d, k); }
      assert Commits(s, events[0]) ==> events[0] != FoldRollback by { MissIsNoEnd(s, events[0], d, k); }
    }
  }

  lemma MissIsNoEnd(s: State, e: Event, d: int, k: Key)
    ensures Misses(s, e, d, k) ==> e != FoldRollback && !Commits(s, e)
    ensures Commits(s, e) ==> e != FoldRollback
  {
  }

  /** From empty tables: live and folded hits of a retained key equal its recordings if and only if none was
      recorded, for a finished day, between the count and the delete of a fold that commits. */
  lemma HitsKeptIff(today: int, events: seq<Event>, d: int, k: Key)
    requires Retains(Run(Initial(today), events), d, k)
    ensures var s := Run(Initial(today), events);
      CountOf(s.past.log, d, k) == HitsOf(Live(s), d, k) + DailyHits(s.daily, d, k) <==> !Loses(Initial(today), events, d, k)
  {
    hide Run, Apply, Loses, HitsOf, DailyHits, CountOf;
    HitsConserved(today, events, d, k);
    LossIs(Initial(today), events, d, k);
    NothingLogged(d, k);
  }
}
