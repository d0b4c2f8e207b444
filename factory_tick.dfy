/** What a whole dispatch and a whole tick do, and what the reset does. */
module FactoryTick {
  import opened Wrappers
  import opened Chain
  import opened Ordering
  import opened Catalog
  import opened Factory
  import opened FactoryFacts
  import opened FactoryInvariant

  /** A missing, non-active or empty-chain order yields no assignment and
      changes nothing. */
  lemma DispatchNothingToDo(cat: Catalog, d: Db, o: string, now: int)
    requires o !in d.orders || d.orders[o].status != ActiveStatus || StepChain(d.orders[o].stepName) == []
    ensures Dispatch(cat, d, o, now).0 == d && Dispatch(cat, d, o, now).1 == []
  {
  }

  /** For an active order with a non-empty chain: its piece rows are ensured
      first; jobs go only to stations that were idle, at most one per station,
      each the eligible job the station found, started in the ensured table;
      nothing else changes. */
  lemma {:induction false} DispatchAssigns(cat: Catalog, d: Db, o: string, now: int)
    requires o in d.orders && d.orders[o].status == ActiveStatus && StepChain(d.orders[o].stepName) != []
    ensures var chain := StepChain(d.orders[o].stepName);
      var E := EnsuredRows(d.progress, o, chain, NormAmount(d.orders[o].amount));
      var r := Dispatch(cat, d, o, now);
      && r.0.orders == d.orders
      && r.0.progress.Keys == E.Keys && r.0.stations.Keys == d.stations.Keys
      && StationsHold(r.0, SortedNames(IdleStations(d.stations)), r.1)
      && (forall i :: 0 <= i < |r.1| ==> r.1[i].station in IdleStations(d.stations))
      && ChoicesHold(cat, d.(progress := E), r.0, o, chain, now, r.1)
      && (forall k :: k in E && k !in AssignedKeys(r.1) ==> r.0.progress[k] == E[k])
      && (forall st :: st in d.stations && st !in AssignedStations(r.1) ==> r.0.stations[st] == d.stations[st])
  {
    var chain := StepChain(d.orders[o].stepName);
    var E := EnsuredRows(d.progress, o, chain, NormAmount(d.orders[o].amount));
    var d1 := d.(progress := E);
    var idle := SortedNames(IdleStations(d1.stations));
    AscendingDistinct(idle);
    AssignAllFrame(cat, d1, o, chain, now, idle);
    AssignAllChoices(cat, d1, o, chain, now, idle);
    AssignAllStations(cat, d1, o, chain, now, idle);
  }

  /** Dispatch changes no order, keeps every row that is not pending and adds
      rows only for the focus order. */
  lemma {:induction false} DispatchKeepsSettled(cat: Catalog, d: Db, o: string, now: int)
    ensures var r := Dispatch(cat, d, o, now);
      && r.0.orders == d.orders
      && d.progress.Keys <= r.0.progress.Keys
      && (forall k :: k in d.progress && d.progress[k].state != Pending ==> r.0.progress[k] == d.progress[k])
      && (forall k :: k in r.0.progress && k.order != o ==> k in d.progress && r.0.progress[k] == d.progress[k])
  {
    if o !in d.orders || d.orders[o].status != ActiveStatus || StepChain(d.orders[o].stepName) == [] {
      return;
    }
    var chain := StepChain(d.orders[o].stepName);
    var E := EnsuredRows(d.progress, o, chain, NormAmount(d.orders[o].amount));
    EnsuredRowsSpec(d.progress, o, chain, NormAmount(d.orders[o].amount));
    DispatchAssigns(cat, d, o, now);
    var r := Dispatch(cat, d, o, now);
    var idle := SortedNames(IdleStations(d.stations));
    AssignAllFrame(cat, d.(progress := E), o, chain, now, idle);
    forall k | k in r.0.progress && k.order != o
      ensures k in d.progress && r.0.progress[k] == d.progress[k]
    {
      assert k !in AssignedKeys(r.1) by {
        forall i | 0 <= i < |r.1|
          ensures AssignedKey(r.1[i]) != k
        {
        }
      }
    }
  }

  lemma {:induction false} SubsetCard<T>(a: set<T>, b: set<T>)
    requires a <= b
    ensures |a| <= |b|
    decreases b
  {
    if a != {} {
      var x := Pick(a);
      SubsetCard(a - {x}, b - {x});
    }
  }

  /** A tick never loses or alters a finished row, so the finished count of
      every step of every order never decreases. */
  lemma {:induction false} TickKeepsFinished(cat: Catalog, d: Db, o: string, now: int)
    ensures var d' := Tick(cat, d, o, now).0;
      && (forall k :: k in d.progress && d.progress[k].state == Finished ==> k in d'.progress && d'.progress[k] == d.progress[k])
      && (forall o', s :: FinishedCount(d.progress, o', s) <= FinishedCount(d'.progress, o', s))
  {
    var d' := Tick(cat, d, o, now).0;
    SweepKeepsSettledRows(d, now);
    DispatchKeepsSettled(cat, Sweep(d, now), o, now);
    forall o', s
      ensures FinishedCount(d.progress, o', s) <= FinishedCount(d'.progress, o', s)
    {
      SubsetCard(FinishedKeys(d.progress, o', s), FinishedKeys(d'.progress, o', s));
    }
  }

  /** Rows of other orders change only by the global completion sweep. */
  lemma {:induction false} TickFocusOnly(cat: Catalog, d: Db, o: string, now: int)
    ensures var d' := Tick(cat, d, o, now).0;
      forall k :: k in d'.progress && k.order != o ==> k in d.progress && d'.progress[k] == Sweep(d, now).progress[k]
  {
    SweepKeepsSettledRows(d, now);
    DispatchKeepsSettled(cat, Sweep(d, now), o, now);
  }

  /** After a tick the order is completed exactly when it was already, or its
      last chain step has at least max(1, amount) finished rows; no other
      order and no other column changes. */
  lemma {:induction false} TickCompletion(cat: Catalog, d: Db, o: string, now: int)
    ensures var d' := Tick(cat, d, o, now).0;
      && d'.orders.Keys == d.orders.Keys
      && (forall x :: x in d.orders && x != o ==> d'.orders[x] == d.orders[x])
      && (o in d.orders ==>
            var chain := StepChain(d.orders[o].stepName);
            && d'.orders[o].stepName == d.orders[o].stepName
            && d'.orders[o].amount == d.orders[o].amount
            && (d'.orders[o].status == CompletedStatus <==>
                  || d.orders[o].status == CompletedStatus
                  || (chain != [] && FinishedCount(d'.progress, o, chain[|chain| - 1]) >= NormAmount(d.orders[o].amount)))
            && (d'.orders[o].status != CompletedStatus ==> d'.orders[o].status == d.orders[o].status))
  {
    SweepKeepsSettledRows(d, now);
    DispatchKeepsSettled(cat, Sweep(d, now), o, now);
    var d2 := Dispatch(cat, Sweep(d, now), o, now).0;
    assert d2.orders == d.orders;
    CompletionStamp(d2, o);
  }

  /** The completion check only stamps the order's status. */
  lemma CompletionStamp(d: Db, o: string)
    ensures var d' := CheckCompletion(d, o);
      && d'.progress == d.progress
      && d'.orders.Keys == d.orders.Keys
      && (forall x :: x in d.orders && x != o ==> d'.orders[x] == d.orders[x])
      && (o in d.orders ==>
            var chain := StepChain(d.orders[o].stepName);
            && d'.orders[o].stepName == d.orders[o].stepName
            && d'.orders[o].amount == d.orders[o].amount
            && (d'.orders[o].status == CompletedStatus <==>
                  || d.orders[o].status == CompletedStatus
                  || (chain != [] && FinishedCount(d.progress, o, chain[|chain| - 1]) >= NormAmount(d.orders[o].amount)))
            && (d'.orders[o].status != CompletedStatus ==> d'.orders[o].status == d.orders[o].status))
  {
  }

  /** After the reset no row of the order is left and no station holds a job
      of it; other orders' rows, the other stations and the orders table are
      unchanged. */
  lemma ClearedSpec(d: Db, o: string)
    ensures var d' := Cleared(d, o);
      && d'.orders == d.orders && d'.stations.Keys == d.stations.Keys
      && (forall k :: k in d'.progress ==> k.order != o)
      && (forall k :: k in d.progress && k.order != o ==> k in d'.progress && d'.progress[k] == d.progress[k])
      && (forall st :: st in d'.stations && d'.stations[st].job.Some? ==> d'.stations[st].job.value.order != o)
      && (forall st :: st in d.stations && (d.stations[st].job.None? || d.stations[st].job.value.order != o) ==>
            d'.stations[st] == d.stations[st])
  {
  }

  /** After the reset every step of the order counts no finished and no
      running piece, and ensuring the rows again leaves every row of the
      order pending. */
  lemma {:induction false} ClearedRestarts(d: Db, o: string, chain: seq<int>, amount: int)
    ensures forall s :: FinishedCount(Cleared(d, o).progress, o, s) == 0 && RunningCount(Cleared(d, o).progress, o, s) == 0
    ensures var E := EnsuredRows(Cleared(d, o).progress, o, chain, amount);
      forall k :: k in E && k.order == o ==> E[k] == PendingRow
  {
    var P := Cleared(d, o).progress;
    forall s
      ensures FinishedCount(P, o, s) == 0 && RunningCount(P, o, s) == 0
    {
      assert FinishedKeys(P, o, s) == {};
      assert RunningKeys(P, o, s) == {};
    }
    EnsuredRowsSpec(P, o, chain, amount);
  }

  // ---------------------------------------------------------------------
  // the step table of the simulate page

  lemma {:induction false} ProjectionLength(P: ProgressTable, o: string, defs: seq<StepDef>, amount: int)
    ensures |Projection(P, o, defs, amount)| == |defs|
  {
    if defs != [] {
      ProjectionLength(P, o, defs[1..], amount);
    }
  }

  lemma {:induction false} ProjectionAt(P: ProgressTable, o: string, defs: seq<StepDef>, amount: int, i: int)
    requires 0 <= i < |defs|
    ensures |Projection(P, o, defs, amount)| == |defs|
    ensures Projection(P, o, defs, amount)[i] == ViewOf(P, o, defs[i], amount)
  {
    if i > 0 {
      ProjectionAt(P, o, defs[1..], amount, i - 1);
    } else if |defs| > 1 {
      ProjectionAt(P, o, defs[1..], amount, 0);
    }
  }

  /** One line per catalogued step of the chain, in chain order, each with
      the order's finished count for that step and the order amount; a step
      reads finished once that count reaches the amount, running while some
      piece of it is running, pending otherwise. */
  lemma ProjectionSpec(P: ProgressTable, o: string, cat: Catalog, chain: seq<int>, amount: int)
    ensures var defs := StepDefs(cat, chain);
      var v := Projection(P, o, defs, amount);
      && |v| == |defs|
      && forall i :: 0 <= i < |v| ==>
        var s := v[i].def.step;
        && v[i].def == defs[i]
        && s in chain && s in cat && v[i].def.row == cat[s]
        && v[i].doneQty == |FinishedKeys(P, o, s)|
        && v[i].totalQty == amount
        && (v[i].state == Finished <==> v[i].doneQty >= amount)
        && (v[i].state == Running <==> v[i].doneQty < amount && RunningKeys(P, o, s) != {})
        && (v[i].state == Pending <==> v[i].doneQty < amount && RunningKeys(P, o, s) == {})
  {
    var defs := StepDefs(cat, chain);
    var v := Projection(P, o, defs, amount);
    ProjectionLength(P, o, defs, amount);
    forall i | 0 <= i < |v|
      ensures v[i] == ViewOf(P, o, defs[i], amount) && defs[i].step in chain
    {
      ProjectionAt(P, o, defs, amount, i);
      DefStepsAt(defs, i);
      StepDefsMembers(cat, chain, defs[i].step);
    }
  }
}
