/** The production line as the route handlers drive it: the three tables of
    the order database are fields that each operation updates statement by
    statement, and each operation is proved to leave exactly the state its
    function in module Factory describes. */
module FactoryLine {
  import opened Wrappers
  import opened Chain
  import opened Ordering
  import opened Catalog
  import opened Factory
  import opened FactoryFacts
  import opened FactoryInvariant

  // ---------------------------------------------------------------------
  // Steps of the loops, stated on the specification functions

  /** One INSERT OR IGNORE of a pending row. */
  lemma WithPendingInsert(P: ProgressTable, keys: set<RowKey>, k: RowKey)
    ensures var W := WithPending(P, keys);
      (if k in W then W else W[k := PendingRow]) == WithPending(P, keys + {k})
  {
  }

  /** The rows of piece p are those of the pieces below it plus one per chain step. */
  lemma NewRowKeysNext(o: string, chain: seq<int>, p: int)
    requires p >= 1
    ensures NewRowKeys(o, chain, p) == NewRowKeys(o, chain, p - 1) + set s | s in chain :: RowKey(o, p, s)
  {
    var A := NewRowKeys(o, chain, p);
    var B := NewRowKeys(o, chain, p - 1) + set s | s in chain :: RowKey(o, p, s);
    forall k | k in A ensures k in B {
      if k.piece < p {
        assert k in NewRowKeys(o, chain, p - 1);
      }
    }
    forall k | k in B ensures k in A {
    }
  }

  lemma PrefixSteps(o: string, p: int, chain: seq<int>, j: int)
    requires 0 <= j < |chain|
    ensures (set s | s in chain[..j + 1] :: RowKey(o, p, s)) == (set s | s in chain[..j] :: RowKey(o, p, s)) + {RowKey(o, p, chain[j])}
  {
    assert chain[..j + 1] == chain[..j] + [chain[j]];
  }

  /** INSERT OR IGNORE of an idle row for each name of `names`. */
  function WithIdle(S: StationTable, names: set<string>): StationTable {
    map st | st in S.Keys + names :: if st in S then S[st] else IdleRow
  }

  lemma WithIdleInsert(S: StationTable, names: set<string>, st: string)
    ensures var W := WithIdle(S, names);
      (if st in W then W else W[st := IdleRow]) == WithIdle(S, names + {st})
  {
  }

  lemma EnsureStationsWithIdle(d: Db, cat: Catalog)
    ensures EnsureStations(d, cat) == d.(stations := WithIdle(d.stations, StationNames(cat)))
  {
  }

  /** The names listed in xs. */
  function Elements(xs: seq<string>): set<string> {
    set x | x in xs
  }

  lemma ElementsSnoc(xs: seq<string>, i: int)
    requires 0 <= i < |xs|
    ensures Elements(xs[..i + 1]) == Elements(xs[..i]) + {xs[i]}
  {
    assert xs[..i + 1] == xs[..i] + [xs[i]];
  }

  lemma ElementsSorted(s: set<string>)
    ensures Elements(SortedNames(s)) == s
  {
  }

  /** One pass of the station insert loop. */
  lemma IdleStep(S0: StationTable, names: seq<string>, i: int)
    requires 0 <= i < |names|
    ensures var W := WithIdle(S0, Elements(names[..i]));
      (if names[i] in W then W else W[names[i] := IdleRow]) == WithIdle(S0, Elements(names[..i + 1]))
  {
    ElementsSnoc(names, i);
    WithIdleInsert(S0, Elements(names[..i]), names[i]);
  }

  /** The station insert loop, once over the sorted names, is EnsureStations. */
  lemma IdleDone(d: Db, cat: Catalog, names: seq<string>)
    requires names == SortedNames(StationNames(cat))
    ensures EnsureStations(d, cat) == d.(stations := WithIdle(d.stations, Elements(names)))
  {
    ElementsSorted(StationNames(cat));
    EnsureStationsWithIdle(d, cat);
  }

  /** The keys the piece insert loops have covered after piece p's first j steps. */
  function Upto(o: string, chain: seq<int>, p: int, j: int): set<RowKey>
    requires 0 <= j <= |chain|
  {
    NewRowKeys(o, chain, p - 1) + set s | s in chain[..j] :: RowKey(o, p, s)
  }

  /** One pass of the inner insert loop. */
  lemma PendingStep(P0: ProgressTable, o: string, chain: seq<int>, p: int, j: int)
    requires 0 <= j < |chain|
    ensures var W := WithPending(P0, Upto(o, chain, p, j));
      var key := RowKey(o, p, chain[j]);
      (if key in W then W else W[key := PendingRow]) == WithPending(P0, Upto(o, chain, p, j + 1))
  {
    PrefixSteps(o, p, chain, j);
    WithPendingInsert(P0, Upto(o, chain, p, j), RowKey(o, p, chain[j]));
  }

  /** The ends of the inner loop: no step of piece p, then all of them. */
  lemma PendingRound(o: string, chain: seq<int>, p: int)
    requires p >= 1
    ensures Upto(o, chain, p, 0) == NewRowKeys(o, chain, p - 1)
    ensures Upto(o, chain, p, |chain|) == NewRowKeys(o, chain, p)
  {
    assert chain[..|chain|] == chain;
    NewRowKeysNext(o, chain, p);
  }

  /** The stations that the sweep reads: a job and a non-NULL busy_until. */
  function Occupied(S: StationTable): set<string> {
    set st | st in S && S[st].job.Some? && !S[st].busyUntil.NoDeadline?
  }

  /** Sweeping one more station of the snapshot S0 on top of the stations in `done`. */
  lemma SweepOneMore(P0: ProgressTable, S0: StationTable, done: set<string>, st: string, now: int)
    requires st in S0 && st !in done
    ensures var P := SweepProgress(P0, S0, done, now);
      SweepProgress(P0, S0, done + {st}, now) ==
        if Due(S0[st], now) && S0[st].job.value in P && P[S0[st].job.value].state == Running
        then P[S0[st].job.value := FinishRow(P[S0[st].job.value], now)] else P
    ensures SweepStations(S0, done + {st}, now) ==
      if Due(S0[st], now) then SweepStations(S0, done, now)[st := IdleRow] else SweepStations(S0, done, now)
  {
    var P := SweepProgress(P0, S0, done, now);
    var P' := SweepProgress(P0, S0, done + {st}, now);
    if Due(S0[st], now) {
      var k := S0[st].job.value;
      assert HeldByDue(S0, done + {st}, k, now);
      forall x | x in P0 && x != k
        ensures HeldByDue(S0, done + {st}, x, now) == HeldByDue(S0, done, x, now)
      {
        if HeldByDue(S0, done + {st}, x, now) {
          var w :| w in done + {st} && w in S0 && Due(S0[w], now) && S0[w].job == Some(x);
          assert w != st;
        }
      }
    } else {
      forall x | x in P0
        ensures HeldByDue(S0, done + {st}, x, now) == HeldByDue(S0, done, x, now)
      {
        if HeldByDue(S0, done + {st}, x, now) {
          var w :| w in done + {st} && w in S0 && Due(S0[w], now) && S0[w].job == Some(x);
          assert w != st;
        }
      }
      assert P' == P;
    }
  }

  /** Sweeping only the occupied stations is sweeping them all. */
  lemma SweepOccupied(P0: ProgressTable, S0: StationTable, now: int)
    ensures SweepProgress(P0, S0, Occupied(S0), now) == SweepProgress(P0, S0, S0.Keys, now)
    ensures SweepStations(S0, Occupied(S0), now) == SweepStations(S0, S0.Keys, now)
  {
    forall x | x in P0
      ensures HeldByDue(S0, Occupied(S0), x, now) == HeldByDue(S0, S0.Keys, x, now)
    {
      if HeldByDue(S0, S0.Keys, x, now) {
        var w :| w in S0 && Due(S0[w], now) && S0[w].job == Some(x);
        assert w in Occupied(S0);
      }
    }
  }

  /** Unfolding the loop over the idle stations by one station. */
  lemma AssignAllStep(cat: Catalog, d: Db, o: string, chain: seq<int>, now: int, idle: seq<string>, i: int)
    requires 0 <= i < |idle|
    ensures var turn := StationTurn(cat, d, o, chain, now, idle[i]);
      var next := AssignAll(cat, turn.0, o, chain, now, idle[i + 1..]);
      AssignAll(cat, d, o, chain, now, idle[i..]) == (next.0, turn.1 + next.1)
  {
    assert idle[i..][0] == idle[i] && idle[i..][1..] == idle[i + 1..];
  }

  lemma DispatchUnfold(cat: Catalog, d: Db, o: string, now: int)
    requires o in d.orders && d.orders[o].status == ActiveStatus && StepChain(d.orders[o].stepName) != []
    ensures var chain := StepChain(d.orders[o].stepName);
      var d1 := d.(progress := EnsuredRows(d.progress, o, chain, NormAmount(d.orders[o].amount)));
      Dispatch(cat, d, o, now) == AssignAll(cat, d1, o, chain, now, SortedNames(IdleStations(d1.stations)))
  {
  }

  /** The loop over the idle stations, having handed `out` out and reached
      state `cur` after i stations, ends where AssignAll from d1 ends. */
  ghost predicate LoopInv(cat: Catalog, d1: Db, o: string, chain: seq<int>, now: int, idle: seq<string>, i: int, cur: Db, out: seq<Assignment>)
    requires 0 <= i <= |idle|
  {
    var r := AssignAll(cat, cur, o, chain, now, idle[i..]);
    AssignAll(cat, d1, o, chain, now, idle) == (r.0, out + r.1)
  }

  /** One idle station's turn, given its best job. */
  /** One turn of the loop over the idle stations keeps the loop invariant. */
  lemma LoopTurn(cat: Catalog, d1: Db, o: string, chain: seq<int>, now: int, idle: seq<string>, i: int,
                 before: Db, done: seq<Assignment>, job: Option<Candidate>)
    requires 0 <= i < |idle|
    requires LoopInv(cat, d1, o, chain, now, idle, i, before, done)
    requires job == BestJob(before.progress, o, chain, SortedInts(StepsOfStation(cat, idle[i])))
    ensures LoopInv(cat, d1, o, chain, now, idle, i + 1, TurnState(cat, before, o, now, idle[i], job),
                    done + TurnOutput(cat, o, now, idle[i], job))
  {
    LoopStep(cat, d1, o, chain, now, idle, i, before, done,
             TurnState(cat, before, o, now, idle[i], job), TurnOutput(cat, o, now, idle[i], job));
  }

  lemma LoopStart(cat: Catalog, d: Db, o: string, chain: seq<int>, now: int, idle: seq<string>)
    ensures LoopInv(cat, d, o, chain, now, idle, 0, d, [])
  {
    assert idle[0..] == idle;
    var r := AssignAll(cat, d, o, chain, now, idle);
    assert [] + r.1 == r.1;
  }

  /** One turn of the loop over the idle stations keeps the loop invariant. */
  lemma LoopStep(cat: Catalog, d1: Db, o: string, chain: seq<int>, now: int, idle: seq<string>, i: int,
                 before: Db, done: seq<Assignment>, after: Db, turn: seq<Assignment>)
    requires 0 <= i < |idle|
    requires LoopInv(cat, d1, o, chain, now, idle, i, before, done)
    requires StationTurn(cat, before, o, chain, now, idle[i]).0 == after
    requires StationTurn(cat, before, o, chain, now, idle[i]).1 == turn
    ensures LoopInv(cat, d1, o, chain, now, idle, i + 1, after, done + turn)
  {
    AssignAllStep(cat, before, o, chain, now, idle, i);
    var r := AssignAll(cat, after, o, chain, now, idle[i + 1..]);
    assert done + (turn + r.1) == (done + turn) + r.1;
  }

  lemma LoopEnd(cat: Catalog, d1: Db, o: string, chain: seq<int>, now: int, idle: seq<string>, last: Db, out: seq<Assignment>)
    requires LoopInv(cat, d1, o, chain, now, idle, |idle|, last, out)
    ensures AssignAll(cat, d1, o, chain, now, idle) == (last, out)
  {
    assert idle[|idle|..] == [];
    assert out + [] == out;
  }

  lemma ProjectionStep(P: ProgressTable, o: string, defs: seq<StepDef>, amount: int, i: int)
    requires 0 <= i < |defs|
    ensures Projection(P, o, defs[..i + 1], amount) == Projection(P, o, defs[..i], amount) + [ViewOf(P, o, defs[i], amount)]
  {
    ProjectionAppend(P, o, defs[..i], [defs[i]], amount);
    assert defs[..i + 1] == defs[..i] + [defs[i]];
  }

  lemma {:induction false} ProjectionAppend(P: ProgressTable, o: string, a: seq<StepDef>, b: seq<StepDef>, amount: int)
    ensures Projection(P, o, a + b, amount) == Projection(P, o, a, amount) + Projection(P, o, b, amount)
  {
    if a == [] {
      assert a + b == b;
    } else {
      assert (a + b)[0] == a[0] && (a + b)[1..] == a[1..] + b;
      ProjectionAppend(P, o, a[1..], b, amount);
    }
  }

  /** Why simulate answers without a page. */
  datatype PageError = OrderNotFound | EmptyStepChain

  // ---------------------------------------------------------------------

  class ProductionLine {
    /** standard_process, read-only for the line. */
    const catalog: Catalog
    /** piece_step_progress */
    var progress: ProgressTable
    /** station_state */
    var stations: StationTable
    /** order_list */
    var orders: OrderTable

    function State(): Db
      reads this
    {
      Db(progress, stations, orders)
    }

    /** The engine's invariant on the current tables. */
    ghost predicate Consistent()
      reads this
    {
      Valid(State())
    }

    /** Fresh tables: no progress row, no station row, the given orders. */
    constructor (cat: Catalog, initialOrders: OrderTable)
      ensures catalog == cat && State() == Db(map[], map[], initialOrders)
      ensures Consistent()
    {
      catalog := cat;
      progress := map[];
      stations := map[];
      orders := initialOrders;
    }

    /** _ensure_station_rows: an idle row for every catalog station, in
        station order, existing rows left alone. */
    method EnsureStationRows()
      modifies this
      ensures State() == EnsureStations(old(State()), catalog)
      ensures old(Consistent()) ==> Consistent()
    {
      var names := SortNames(StationNames(catalog));
      InsertIdleRows(names);
      IdleDone(old(State()), catalog, names);
      if old(Consistent()) {
        EnsureStationsValid(old(State()), catalog);
      }
    }

    /** The insert loop of _ensure_station_rows over the given names. */
    method InsertIdleRows(names: seq<string>)
      modifies this
      ensures stations == WithIdle(old(stations), Elements(names))
      ensures progress == old(progress) && orders == old(orders)
    {
      for i := 0 to |names|
        invariant progress == old(progress) && orders == old(orders)
        invariant stations == WithIdle(old(stations), Elements(names[..i]))
      {
        IdleStep(old(stations), names, i);
        if names[i] !in stations {
          stations := stations[names[i] := IdleRow];
        }
      }
      assert names[..|names|] == names;
    }

    /** _ensure_piece_rows: the nested insert loops over pieces
        1..max(1, amount) and the steps of the chain. */
    method EnsurePieceRows(o: string, chain: seq<int>, amount: int)
      modifies this
      ensures progress == EnsuredRows(old(progress), o, chain, amount)
      ensures stations == old(stations) && orders == old(orders)
      ensures old(Consistent()) ==> Consistent()
    {
      var n := Max1(amount);
      ghost var P0 := progress;
      for p := 1 to n + 1
        invariant stations == old(stations) && orders == old(orders)
        invariant progress == WithPending(P0, NewRowKeys(o, chain, p - 1))
      {
        PendingRound(o, chain, p);
        for j := 0 to |chain|
          invariant stations == old(stations) && orders == old(orders)
          invariant progress == WithPending(P0, Upto(o, chain, p, j))
        {
          var key := RowKey(o, p, chain[j]);
          PendingStep(P0, o, chain, p, j);
          if key !in progress {
            progress := progress[key := PendingRow];
          }
        }
      }
      if old(Consistent()) {
        EnsuredRowsValid(old(State()), o, chain, amount);
      }
    }

    /** _complete_due_jobs: every occupied station whose busy_until has
        passed finishes its running row and becomes idle. */
    method CompleteDueJobs(now: int)
      modifies this
      ensures State() == Sweep(old(State()), now)
      ensures old(Consistent()) ==> Consistent()
    {
      ghost var P0 := progress;
      var snapshot := stations;
      var pendingStations := Occupied(snapshot);
      ghost var done: set<string> := {};
      while pendingStations != {}
        invariant pendingStations <= snapshot.Keys && done !! pendingStations
        invariant done + pendingStations == Occupied(snapshot)
        invariant orders == old(orders)
        invariant progress == SweepProgress(P0, snapshot, done, now)
        invariant stations == SweepStations(snapshot, done, now)
        decreases pendingStations
      {
        var st :| st in pendingStations;
        SweepOneMore(P0, snapshot, done, st, now);
        var row := snapshot[st];
        if row.busyUntil.At? && row.busyUntil.time <= now {
          var k := row.job.value;
          if k in progress && progress[k].state == Running {
            progress := progress[k := FinishRow(progress[k], now)];
          }
          stations := stations[st := IdleRow];
        }
        pendingStations := pendingStations - {st};
        done := done + {st};
      }
      SweepOccupied(P0, snapshot, now);
      if old(Consistent()) {
        SweepValid(old(State()), now);
      }
    }

    /** The candidate loop over pending pieces in ascending piece_no: the
        first piece not running on any step whose previous chain step is
        finished. */
    method FirstReadyPiece(o: string, chain: seq<int>, s: int, cand: seq<int>) returns (piece: Option<int>)
      ensures piece == FirstPiece(progress, o, chain, s, cand)
    {
      var prev := PrevStep(chain, s);
      for i := 0 to |cand|
        invariant FirstPiece(progress, o, chain, s, cand) == FirstPiece(progress, o, chain, s, cand[i..])
      {
        assert cand[i..][0] == cand[i] && cand[i..][1..] == cand[i + 1..];
        var p := cand[i];
        if PieceIsRunning(progress, o, p) {
          continue;
        }
        var ok := prev.None? || (RowKey(o, p, prev.value) in progress && progress[RowKey(o, p, prev.value)].state == Finished);
        if ok {
          return Some(p);
        }
      }
      assert cand[|cand|..] == [];
      return None;
    }

    /** best_job of one station: its steps in ascending id, skipping those
        outside the chain, each tried over its pending pieces. */
    method FindBestJob(o: string, chain: seq<int>, station: string) returns (job: Option<Candidate>)
      ensures job == BestJob(progress, o, chain, SortedInts(StepsOfStation(catalog, station)))
      ensures job.Some? ==> Eligible(progress, o, chain, job.value.piece, job.value.step)
    {
      var stepList := SortInts(StepsOfStation(catalog, station));
      BestJobSpec(progress, o, chain, stepList);
      for j := 0 to |stepList|
        invariant BestJob(progress, o, chain, stepList) == BestJob(progress, o, chain, stepList[j..])
      {
        assert stepList[j..][0] == stepList[j] && stepList[j..][1..] == stepList[j + 1..];
        var s := stepList[j];
        if s !in chain {
          continue;
        }
        var cand := SortInts(PendingPieces(progress, o, s));
        var piece := FirstReadyPiece(o, chain, s, cand);
        if piece.Some? {
          return Some(Candidate(piece.value, s));
        }
      }
      assert stepList[|stepList|..] == [];
      return None;
    }

    /** _dispatch_for_focus_order: for an active order with a non-empty chain,
        ensure its piece rows, then give each idle station, in ascending
        name, its best job. */
    method DispatchForFocusOrder(o: string, now: int) returns (dispatched: seq<Assignment>)
      modifies this
      ensures (State(), dispatched) == Dispatch(catalog, old(State()), o, now)
      ensures old(Consistent()) ==> Consistent()
    {
      if o !in orders || orders[o].status != ActiveStatus {
        return [];
      }
      var chain := ParseStepChain(orders[o].stepName);
      if chain == [] {
        return [];
      }
      var amount := NormAmount(orders[o].amount);
      EnsurePieceRows(o, chain, amount);
      var idle := SortNames(IdleStations(stations));
      ghost var d1 := State();
      DispatchUnfold(catalog, old(State()), o, now);
      dispatched := [];
      LoopStart(catalog, d1, o, chain, now, idle);
      for i := 0 to |idle|
        invariant LoopInv(catalog, d1, o, chain, now, idle, i, State(), dispatched)
      {
        var station := idle[i];
        ghost var before, done := State(), dispatched;
        var job := FindBestJob(o, chain, station);
        LoopTurn(catalog, d1, o, chain, now, idle, i, before, done, job);
        var turn := HandOver(station, o, job, now);
        dispatched := dispatched + turn;
      }
      LoopEnd(catalog, d1, o, chain, now, idle, State(), dispatched);
      if old(Consistent()) {
        DispatchValid(catalog, old(State()), o, now);
      }
    }

    /** The two UPDATE statements that give the station its job (when it
        found one) and the element appended to the dispatched list. */
    method HandOver(station: string, o: string, job: Option<Candidate>, now: int) returns (turn: seq<Assignment>)
      modifies this
      ensures State() == TurnState(catalog, old(State()), o, now, station, job)
      ensures turn == TurnOutput(catalog, o, now, station, job)
    {
      turn := [];
      if job.Some? {
        var until := now + EstSeconds(catalog, job.value.step);
        var k := RowKey(o, job.value.piece, job.value.step);
        if k in progress && progress[k].state == Pending {
          progress := progress[k := StartRow(progress[k], now)];
        }
        if station in stations {
          stations := stations[station := StationRow(Some(k), At(until))];
        }
        turn := [Assignment(station, o, job.value.piece, job.value.step, until)];
      }
    }

    /** _tick_once_for_order: the global sweep, the dispatch for the order,
        then the completion check on the order's last chain step. */
    method TickOnceForOrder(o: string, now: int) returns (dispatched: seq<Assignment>)
      modifies this
      ensures (State(), dispatched) == Tick(catalog, old(State()), o, now)
      ensures old(Consistent()) ==> Consistent()
    {
      CompleteDueJobs(now);
      dispatched := DispatchForFocusOrder(o, now);
      StampIfCompleted(o);
      if old(Consistent()) {
        TickValid(catalog, old(State()), o, now);
      }
    }

    /** The tail of _tick_once_for_order: mark the order completed once its
        last chain step has finished max(1, amount) pieces. */
    method StampIfCompleted(o: string)
      modifies this
      ensures State() == CheckCompletion(old(State()), o)
    {
      if o in orders {
        var chain := ParseStepChain(orders[o].stepName);
        if chain != [] {
          var amount := NormAmount(orders[o].amount);
          if IsOrderCompleted(progress, o, chain[|chain| - 1], amount) {
            orders := orders[o := orders[o].(status := CompletedStatus)];
          }
        }
      }
    }

    /** The aggregation and classification loops of simulate; reads the
        tables only. */
    method StepStatus(o: string, chain: seq<int>, amount: int) returns (view: seq<StepView>)
      ensures view == Projection(progress, o, StepDefs(catalog, chain), amount)
    {
      var agg: map<int, (nat, nat)> := map[];
      for i := 0 to |chain|
        invariant forall s :: s in agg <==> s in chain[..i]
        invariant forall s :: s in agg ==> agg[s] == (FinishedCount(progress, o, s), RunningCount(progress, o, s))
      {
        assert chain[..i + 1] == chain[..i] + [chain[i]];
        agg := agg[chain[i] := (FinishedCount(progress, o, chain[i]), RunningCount(progress, o, chain[i]))];
      }
      assert chain[..|chain|] == chain;
      var steps := StepDefs(catalog, chain);
      forall i | 0 <= i < |steps|
        ensures steps[i].step in agg
      {
        assert steps[i].step in DefSteps(steps) by {
          DefStepsAt(steps, i);
        }
        StepDefsMembers(catalog, chain, steps[i].step);
      }
      view := [];
      for i := 0 to |steps|
        invariant view == Projection(progress, o, steps[..i], amount)
      {
        var counts := agg[steps[i].step];
        var doneQty := counts.0;
        var runningQty := counts.1;
        var state := if doneQty >= amount then Finished else if runningQty > 0 then Running else Pending;
        ProjectionStep(progress, o, steps, amount, i);
        view := view + [StepView(steps[i], doneQty, amount, state)];
      }
      assert steps[..|steps|] == steps;
    }

    /** simulate: the station rows, the order lookup, the piece rows, one
        tick, then the status of each catalogued chain step. */
    method Simulate(o: string, now: int) returns (page: Result<seq<StepView>, PageError>)
      modifies this
      ensures var d1 := EnsureStations(old(State()), catalog);
        if o !in d1.orders then page == Err(OrderNotFound) && State() == d1
        else
          var chain := StepChain(d1.orders[o].stepName);
          var amount := NormAmount(d1.orders[o].amount);
          if chain == [] then page == Err(EmptyStepChain) && State() == d1
          else
            var t := Tick(catalog, d1.(progress := EnsuredRows(d1.progress, o, chain, amount)), o, now);
            State() == t.0 && page == Ok(Projection(t.0.progress, o, StepDefs(catalog, chain), amount))
      ensures old(Consistent()) ==> Consistent()
    {
      EnsureStationRows();
      if o !in orders {
        return Err(OrderNotFound);
      }
      var chain := ParseStepChain(orders[o].stepName);
      if chain == [] {
        return Err(EmptyStepChain);
      }
      var amount := NormAmount(orders[o].amount);
      EnsurePieceRows(o, chain, amount);
      var _ := TickOnceForOrder(o, now);
      var view := StepStatus(o, chain, amount);
      return Ok(view);
    }

    /** api_reset: free the stations working on the order and delete its
        progress rows. */
    method Reset(o: string)
      modifies this
      ensures State() == Cleared(old(State()), o)
      ensures old(Consistent()) ==> Consistent()
    {
      stations := map st | st in stations ::
        if stations[st].job.Some? && stations[st].job.value.order == o then IdleRow else stations[st];
      progress := map k | k in progress && k.order != o :: progress[k];
      if old(Consistent()) {
        ClearedValid(old(State()), o);
      }
    }
  }
}
