/** The engine's invariant Factory.Valid is kept by every operation: a piece
    is in flight on at most one step, precedence holds, every held job is a
    running row held by exactly one station, every running row is held, and
    busy_until is set exactly on busy stations. */
module FactoryInvariant {
  import opened Wrappers
  import opened Chain
  import opened Ordering
  import opened Catalog
  import opened Factory
  import opened FactoryFacts

  /** Empty tables satisfy the invariant. */
  lemma EmptyValid(orders: OrderTable)
    ensures Valid(Db(map[], map[], orders))
  {
  }

  lemma {:induction false} EnsureStationsValid(d: Db, cat: Catalog)
    requires Valid(d)
    ensures Valid(EnsureStations(d, cat))
  {
    var d' := EnsureStations(d, cat);
    forall k | k in d'.progress && d'.progress[k].state == Running
      ensures exists st :: st in d'.stations && d'.stations[st].job == Some(k)
    {
      var st :| st in d.stations && d.stations[st].job == Some(k);
      assert d'.stations[st] == d.stations[st];
    }
  }

  lemma {:induction false} EnsuredRowsValid(d: Db, o: string, chain: seq<int>, amount: int)
    requires Valid(d)
    ensures Valid(d.(progress := EnsuredRows(d.progress, o, chain, amount)))
  {
    var P := d.progress;
    var E := EnsuredRows(P, o, chain, amount);
    var d' := d.(progress := E);
    EnsuredRowsSpec(P, o, chain, amount);
    forall k | k in E && E[k].state != Pending && k.order in d.orders
      ensures PrevFinished(E, k.order, StepChain(d.orders[k.order].stepName), k.piece, k.step)
    {
      assert k in P;
    }
    forall k1, k2 | k1 in E && k2 in E && E[k1].state == Running && E[k2].state == Running
                    && k1.order == k2.order && k1.piece == k2.piece
      ensures k1 == k2
    {
      assert k1 in P && k2 in P;
    }
    forall k | k in E && E[k].state == Running
      ensures exists st :: st in d.stations && d.stations[st].job == Some(k)
    {
      assert k in P;
    }
  }

  lemma {:induction false} SweepPrecedence(d: Db, now: int)
    requires PrecedenceHolds(d)
    ensures PrecedenceHolds(Sweep(d, now))
  {
    var P := d.progress;
    var P' := Sweep(d, now).progress;
    SweepKeepsSettledRows(d, now);
    forall k | k in P' && P'[k].state != Pending && k.order in d.orders
      ensures PrevFinished(P', k.order, StepChain(d.orders[k.order].stepName), k.piece, k.step)
    {
      assert P[k].state != Pending;
      var prev := PrevStep(StepChain(d.orders[k.order].stepName), k.step);
      if prev.Some? {
        assert P'[RowKey(k.order, k.piece, prev.value)] == P[RowKey(k.order, k.piece, prev.value)];
      }
    }
  }

  lemma {:induction false} SweepHeldJobs(d: Db, now: int)
    requires Valid(d)
    ensures JobsRunning(Sweep(d, now)) && RunningHeld(Sweep(d, now))
  {
    var P, S := d.progress, d.stations;
    var d' := Sweep(d, now);
    var P', S' := d'.progress, d'.stations;
    forall st | st in S' && S'[st].job.Some?
      ensures S'[st].job.value in P' && P'[S'[st].job.value].state == Running
    {
      SweepSkipsNotDue(d, now, st);
    }
    forall k | k in P' && P'[k].state == Running
      ensures exists st :: st in S' && S'[st].job == Some(k)
    {
      assert !HeldByDue(S, S.Keys, k, now);
      var st :| st in S && S[st].job == Some(k);
      assert S'[st] == S[st];
    }
  }

  lemma {:induction false} SweepTidy(d: Db, now: int)
    requires SingleFlight(d.progress) && OneStationPerJob(d.stations) && DeadlineIffBusy(d.stations)
    ensures var d' := Sweep(d, now);
      SingleFlight(d'.progress) && OneStationPerJob(d'.stations) && DeadlineIffBusy(d'.stations)
  {
    var d' := Sweep(d, now);
    var P, P' := d.progress, d'.progress;
    var S, S' := d.stations, d'.stations;
    forall k1, k2 | k1 in P' && k2 in P' && P'[k1].state == Running && P'[k2].state == Running
                    && k1.order == k2.order && k1.piece == k2.piece
      ensures k1 == k2
    {
      assert P[k1].state == Running && P[k2].state == Running;
    }
    forall s1, s2 | s1 in S' && s2 in S' && S'[s1].job.Some? && S'[s1].job == S'[s2].job
      ensures s1 == s2
    {
      assert S'[s1] == S[s1] && S'[s2] == S[s2];
    }
  }

  lemma {:induction false} SweepValid(d: Db, now: int)
    requires Valid(d)
    ensures Valid(Sweep(d, now))
  {
    SweepTidy(d, now);
    SweepPrecedence(d, now);
    SweepHeldJobs(d, now);
  }

  /** One station's turn keeps the invariant, for an idle station and the
      chain of an order of the table. */
  lemma {:induction false} StationTurnValid(cat: Catalog, d: Db, o: string, chain: seq<int>, now: int, st: string)
    requires Valid(d)
    requires st in d.stations && d.stations[st].job.None?
    requires o in d.orders && chain == StepChain(d.orders[o].stepName)
    ensures Valid(StationTurn(cat, d, o, chain, now, st).0)
  {
    var t := StationTurn(cat, d, o, chain, now, st);
    StationTurnChoice(cat, d, o, chain, now, st);
    if t.1 == [] {
      return;
    }
    var a := t.1[0];
    var k := AssignedKey(a);
    HandOverFlight(d.progress, k, now);
    HandOverPrecedence(d, k, now);
    HandOverHeld(d, st, k, a.busyUntil, now);
  }

  /** Starting a pending row of a piece that runs nothing keeps one step in
      flight per piece. */
  lemma HandOverFlight(P: ProgressTable, k: RowKey, now: int)
    requires SingleFlight(P)
    requires k in P && P[k].state == Pending && !PieceIsRunning(P, k.order, k.piece)
    ensures SingleFlight(P[k := StartRow(P[k], now)])
  {
    var P1 := P[k := StartRow(P[k], now)];
    forall k1, k2 | k1 in P1 && k2 in P1 && P1[k1].state == Running && P1[k2].state == Running
                    && k1.order == k2.order && k1.piece == k2.piece
      ensures k1 == k2
    {
      if k1 != k2 && (k1 == k || k2 == k) {
        assert false;
      }
    }
  }

  /** Starting a pending row whose previous step is finished keeps precedence. */
  lemma HandOverPrecedence(d: Db, k: RowKey, now: int)
    requires PrecedenceHolds(d)
    requires k in d.progress && d.progress[k].state == Pending
    requires k.order in d.orders ==>
      PrevFinished(d.progress, k.order, StepChain(d.orders[k.order].stepName), k.piece, k.step)
    ensures PrecedenceHolds(d.(progress := d.progress[k := StartRow(d.progress[k], now)]))
  {
    var P := d.progress;
    var d1 := d.(progress := P[k := StartRow(P[k], now)]);
    forall x | x in d1.progress && d1.progress[x].state != Pending && x.order in d1.orders
      ensures PrevFinished(d1.progress, x.order, StepChain(d1.orders[x.order].stepName), x.piece, x.step)
    {
      var prev := PrevStep(StepChain(d.orders[x.order].stepName), x.step);
      if x != k {
        assert P[x].state != Pending;
      }
      if prev.Some? {
        assert RowKey(x.order, x.piece, prev.value) != k;
      }
    }
  }

  /** Giving a pending row to an idle station, and starting it, keeps every
      held job running, one station per job, every running row held and
      busy_until set exactly on busy stations. */
  lemma HandOverHeld(d: Db, st: string, k: RowKey, until: int, now: int)
    requires JobsRunning(d) && OneStationPerJob(d.stations) && RunningHeld(d) && DeadlineIffBusy(d.stations)
    requires st in d.stations && d.stations[st].job.None?
    requires k in d.progress && d.progress[k].state == Pending
    ensures var d1 := d.(progress := d.progress[k := StartRow(d.progress[k], now)],
                         stations := d.stations[st := StationRow(Some(k), At(until))]);
      JobsRunning(d1) && OneStationPerJob(d1.stations) && RunningHeld(d1) && DeadlineIffBusy(d1.stations)
  {
    var P, S := d.progress, d.stations;
    var P1, S1 := P[k := StartRow(P[k], now)], S[st := StationRow(Some(k), At(until))];
    forall s1 | s1 in S1 && S1[s1].job.Some?
      ensures S1[s1].job.value in P1 && P1[S1[s1].job.value].state == Running
    {
      if s1 != st {
        assert S1[s1] == S[s1];
        assert S[s1].job.value != k;
      }
    }
    forall s1, s2 | s1 in S1 && s2 in S1 && S1[s1].job.Some? && S1[s1].job == S1[s2].job
      ensures s1 == s2
    {
      if s1 != s2 && (s1 == st || s2 == st) {
        assert false;
      }
    }
    forall x | x in P1 && P1[x].state == Running
      ensures exists s1 :: s1 in S1 && S1[s1].job == Some(x)
    {
      if x == k {
        assert S1[st].job == Some(k);
      } else {
        assert P[x].state == Running;
        var s2 :| s2 in S && S[s2].job == Some(x);
        assert s2 != st;
        assert S1[s2] == S[s2];
      }
    }
  }

  /** The loop over distinct idle stations keeps the invariant. */
  lemma {:induction false} AssignAllValid(cat: Catalog, d: Db, o: string, chain: seq<int>, now: int, idle: seq<string>)
    requires Valid(d)
    requires forall st :: st in idle ==> st in d.stations && d.stations[st].job.None?
    requires DistinctNames(idle)
    requires o in d.orders && chain == StepChain(d.orders[o].stepName)
    ensures Valid(AssignAll(cat, d, o, chain, now, idle).0)
    decreases |idle|
  {
    if idle == [] {
      return;
    }
    var st := idle[0];
    var turn := StationTurn(cat, d, o, chain, now, st);
    StationTurnValid(cat, d, o, chain, now, st);
    StationTurnChoice(cat, d, o, chain, now, st);
    DistinctTail(idle);
    forall x | x in idle[1..]
      ensures x in turn.0.stations && turn.0.stations[x].job.None?
    {
      assert x != st;
    }
    AssignAllValid(cat, turn.0, o, chain, now, idle[1..]);
  }

  lemma AscendingDistinct(r: seq<string>)
    requires AscendingNames(r)
    ensures DistinctNames(r)
  {
    forall i, j | 0 <= i < j < |r|
      ensures r[i] != r[j]
    {
      if r[i] == r[j] {
        Text.LexIrreflexive(r[i]);
      }
    }
  }

  lemma {:induction false} DispatchValid(cat: Catalog, d: Db, o: string, now: int)
    requires Valid(d)
    ensures Valid(Dispatch(cat, d, o, now).0)
  {
    if o !in d.orders || d.orders[o].status != ActiveStatus {
      return;
    }
    var chain := StepChain(d.orders[o].stepName);
    if chain == [] {
      return;
    }
    var d1 := d.(progress := EnsuredRows(d.progress, o, chain, NormAmount(d.orders[o].amount)));
    EnsuredRowsValid(d, o, chain, NormAmount(d.orders[o].amount));
    var idle := SortedNames(IdleStations(d1.stations));
    AscendingDistinct(idle);
    AssignAllValid(cat, d1, o, chain, now, idle);
  }

  lemma {:induction false} CheckCompletionValid(d: Db, o: string)
    requires Valid(d)
    ensures Valid(CheckCompletion(d, o))
  {
    var d' := CheckCompletion(d, o);
    assert forall x :: x in d.orders <==> x in d'.orders;
    assert forall x :: x in d.orders ==> d'.orders[x].stepName == d.orders[x].stepName;
  }

  /** A tick keeps the invariant. */
  lemma {:induction false} TickValid(cat: Catalog, d: Db, o: string, now: int)
    requires Valid(d)
    ensures Valid(Tick(cat, d, o, now).0)
  {
    SweepValid(d, now);
    DispatchValid(cat, Sweep(d, now), o, now);
    CheckCompletionValid(Dispatch(cat, Sweep(d, now), o, now).0, o);
  }

  /** The reset keeps the invariant. */
  lemma {:induction false} ClearedValid(d: Db, o: string)
    requires Valid(d)
    ensures Valid(Cleared(d, o))
  {
    ClearedPrecedence(d, o);
    ClearedHeld(d, o);
  }

  lemma ClearedPrecedence(d: Db, o: string)
    requires PrecedenceHolds(d)
    ensures PrecedenceHolds(Cleared(d, o))
  {
    var d' := Cleared(d, o);
    forall x | x in d'.progress && d'.progress[x].state != Pending && x.order in d'.orders
      ensures PrevFinished(d'.progress, x.order, StepChain(d'.orders[x.order].stepName), x.piece, x.step)
    {
      var prev := PrevStep(StepChain(d.orders[x.order].stepName), x.step);
      if prev.Some? {
        assert RowKey(x.order, x.piece, prev.value).order != o;
      }
    }
  }

  lemma ClearedHeld(d: Db, o: string)
    requires JobsRunning(d) && RunningHeld(d)
    ensures JobsRunning(Cleared(d, o)) && RunningHeld(Cleared(d, o))
  {
    var d' := Cleared(d, o);
    var S := d.stations;
    forall st | st in d'.stations && d'.stations[st].job.Some?
      ensures d'.stations[st].job.value in d'.progress && d'.progress[d'.stations[st].job.value].state == Running
    {
      assert d'.stations[st] == S[st];
    }
    forall x | x in d'.progress && d'.progress[x].state == Running
      ensures exists st :: st in d'.stations && d'.stations[st].job == Some(x)
    {
      var st :| st in S && S[st].job == Some(x);
      assert d'.stations[st] == S[st];
    }
  }
}
