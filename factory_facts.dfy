/** What each operation of the simulator does to the tables, stated about the
    functions of module Factory. */
module FactoryFacts {
  import opened Wrappers
  import opened Chain
  import opened Ordering
  import opened Catalog
  import opened Factory

  // ---------------------------------------------------------------------
  // _ensure_piece_rows

  /** After the inserts there is a row for every piece 1..max(1, amount) and
      every chain step; existing rows keep their values; every added row is a
      pending row of this order for one of those pieces and steps. */
  lemma EnsuredRowsSpec(P: ProgressTable, o: string, chain: seq<int>, amount: int)
    ensures var E := EnsuredRows(P, o, chain, amount);
      && (forall p, s :: 1 <= p <= Max1(amount) && s in chain ==> RowKey(o, p, s) in E)
      && (forall k :: k in P ==> k in E && E[k] == P[k])
      && (forall k :: k in E && k !in P ==>
            E[k] == PendingRow && k.order == o && 1 <= k.piece <= Max1(amount) && k.step in chain)
  {
    var E := EnsuredRows(P, o, chain, amount);
    forall p, s | 1 <= p <= Max1(amount) && s in chain
      ensures RowKey(o, p, s) in E
    {
      assert RowKey(o, p, s) in NewRowKeys(o, chain, Max1(amount));
    }
  }

  /** Running the inserts twice equals running them once. */
  lemma EnsuredRowsIdempotent(P: ProgressTable, o: string, chain: seq<int>, amount: int)
    ensures EnsuredRows(EnsuredRows(P, o, chain, amount), o, chain, amount) == EnsuredRows(P, o, chain, amount)
  {
    var E := EnsuredRows(P, o, chain, amount);
    var E2 := EnsuredRows(E, o, chain, amount);
    EnsuredRowsSpec(P, o, chain, amount);
    EnsuredRowsSpec(E, o, chain, amount);
    assert E2.Keys == E.Keys;
  }

  /** Station rows: every catalog station gets a row, existing rows are kept,
      added rows are idle. */
  lemma EnsureStationsSpec(d: Db, cat: Catalog)
    ensures var d' := EnsureStations(d, cat);
      && d'.progress == d.progress && d'.orders == d.orders
      && d'.stations.Keys == d.stations.Keys + StationNames(cat)
      && (forall st :: st in d.stations ==> d'.stations[st] == d.stations[st])
      && (forall st :: st in d'.stations && st !in d.stations ==> d'.stations[st] == IdleRow)
  {
  }

  // ---------------------------------------------------------------------
  // _complete_due_jobs

  /** A due station becomes idle and, when its job row was running, that row
      becomes finished at now with its start time kept. */
  lemma SweepFinishesDue(d: Db, now: int, st: string)
    requires st in d.stations && Due(d.stations[st], now)
    ensures var d' := Sweep(d, now); var k := d.stations[st].job.value;
      && d'.stations[st] == IdleRow
      && (k in d.progress && d.progress[k].state == Running ==>
            d'.progress[k] == Progress(Finished, d.progress[k].startedAt, Some(now)))
  {
    var k := d.stations[st].job.value;
    if k in d.progress && d.progress[k].state == Running {
      assert HeldByDue(d.stations, d.stations.Keys, k, now);
    }
  }

  /** A station that is idle, or whose busy_until is in the future or
      unreadable, is left as it was; so is the job it holds, provided no other
      station holds the same job. */
  lemma SweepSkipsNotDue(d: Db, now: int, st: string)
    requires st in d.stations && !Due(d.stations[st], now)
    requires OneStationPerJob(d.stations)
    ensures var d' := Sweep(d, now);
      && d'.stations[st] == d.stations[st]
      && (d.stations[st].job.Some? && d.stations[st].job.value in d.progress ==>
            d'.progress[d.stations[st].job.value] == d.progress[d.stations[st].job.value])
  {
    var S := d.stations;
    if S[st].job.Some? && S[st].job.value in d.progress {
      var k := S[st].job.value;
      assert !HeldByDue(S, S.Keys, k, now);
    }
  }

  /** Rows that are not running are never modified by the sweep, the table
      keeps its keys, and no row goes back to pending or running. */
  lemma SweepKeepsSettledRows(d: Db, now: int)
    ensures var d' := Sweep(d, now);
      && d'.orders == d.orders
      && d'.progress.Keys == d.progress.Keys && d'.stations.Keys == d.stations.Keys
      && (forall k :: k in d.progress && d.progress[k].state != Running ==> d'.progress[k] == d.progress[k])
      && (forall k :: k in d.progress && d'.progress[k].state != d.progress[k].state ==>
            d.progress[k].state == Running && d'.progress[k].state == Finished)
  {
  }

  // ---------------------------------------------------------------------
  // Choosing a job

  lemma PendingPiecesExact(P: ProgressTable, o: string, s: int, p: int)
    ensures p in PendingPieces(P, o, s) <==> RowKey(o, p, s) in P && P[RowKey(o, p, s)].state == Pending
  {
    if p in PendingPieces(P, o, s) {
      var k :| k in P && k.order == o && k.step == s && P[k].state == Pending && k.piece == p;
      assert k == RowKey(o, p, s);
    }
  }

  ghost predicate Ready(P: ProgressTable, o: string, chain: seq<int>, p: int, s: int) {
    !PieceIsRunning(P, o, p) && PrevFinished(P, o, chain, p, s)
  }

  /** FirstPiece returns the first ready piece of the list, and None when no
      piece of the list is ready. */
  lemma {:induction false} FirstPieceSpec(P: ProgressTable, o: string, chain: seq<int>, s: int, pieces: seq<int>)
    ensures var r := FirstPiece(P, o, chain, s, pieces);
      && (r.Some? ==> exists i :: 0 <= i < |pieces| && pieces[i] == r.value && Ready(P, o, chain, r.value, s)
                         && forall j :: 0 <= j < i ==> !Ready(P, o, chain, pieces[j], s))
      && (r.None? ==> forall p :: p in pieces ==> !Ready(P, o, chain, p, s))
    decreases |pieces|
  {
    if pieces == [] {
    } else if Ready(P, o, chain, pieces[0], s) {
      assert pieces[0] == FirstPiece(P, o, chain, s, pieces).value;
    } else {
      var tail := pieces[1..];
      FirstPieceSpec(P, o, chain, s, tail);
      var r := FirstPiece(P, o, chain, s, pieces);
      assert r == FirstPiece(P, o, chain, s, tail);
      if r.Some? {
        var i :| 0 <= i < |tail| && tail[i] == r.value && Ready(P, o, chain, r.value, s)
                 && forall j :: 0 <= j < i ==> !Ready(P, o, chain, tail[j], s);
        assert pieces[i + 1] == r.value;
        forall j | 0 <= j < i + 1
          ensures !Ready(P, o, chain, pieces[j], s)
        {
          if j > 0 { assert pieces[j] == tail[j - 1]; }
        }
      } else {
        forall p | p in pieces
          ensures !Ready(P, o, chain, p, s)
        {
          if p != pieces[0] {
            var i :| 0 <= i < |pieces| && pieces[i] == p;
            assert tail[i - 1] == p;
          }
        }
      }
    }
  }

  /** On an increasing list, no smaller piece of the list is ready. */
  lemma {:induction false} FirstPieceLeast(P: ProgressTable, o: string, chain: seq<int>, s: int, pieces: seq<int>, q: int)
    requires Increasing(pieces)
    requires FirstPiece(P, o, chain, s, pieces).Some?
    requires q in pieces && q < FirstPiece(P, o, chain, s, pieces).value
    ensures !Ready(P, o, chain, q, s)
    decreases |pieces|
  {
    if Ready(P, o, chain, pieces[0], s) {
      assert false;
    } else if q != pieces[0] {
      var tail := pieces[1..];
      assert Increasing(tail) by {
        forall i, j | 0 <= i < j < |tail| ensures tail[i] < tail[j] {
          assert tail[i] == pieces[i + 1] && tail[j] == pieces[j + 1];
        }
      }
      var i :| 0 <= i < |pieces| && pieces[i] == q;
      assert tail[i - 1] == q;
      FirstPieceLeast(P, o, chain, s, tail, q);
    }
  }

  /** The candidate pieces of step s, in ascending order, are exactly the
      pieces whose row of step s is pending; FirstPiece over them finds the
      least eligible piece. */
  lemma StepChoice(P: ProgressTable, o: string, chain: seq<int>, s: int)
    ensures var r := FirstPiece(P, o, chain, s, SortedInts(PendingPieces(P, o, s)));
      && (r.Some? ==> Eligible(P, o, chain, r.value, s)
                      && forall q :: q < r.value ==> !Eligible(P, o, chain, q, s))
      && (r.None? ==> forall q :: !Eligible(P, o, chain, q, s))
  {
    var pieces := SortedInts(PendingPieces(P, o, s));
    var r := FirstPiece(P, o, chain, s, pieces);
    FirstPieceSpec(P, o, chain, s, pieces);
    if r.Some? {
      var i :| 0 <= i < |pieces| && pieces[i] == r.value && Ready(P, o, chain, r.value, s)
               && forall j :: 0 <= j < i ==> !Ready(P, o, chain, pieces[j], s);
      assert r.value in pieces;
      PendingPiecesExact(P, o, s, r.value);
      forall q | q < r.value
        ensures !Eligible(P, o, chain, q, s)
      {
        PendingPiecesExact(P, o, s, q);
        if Eligible(P, o, chain, q, s) {
          assert q in pieces;
          FirstPieceLeast(P, o, chain, s, pieces, q);
        }
      }
    } else {
      forall q
        ensures !Eligible(P, o, chain, q, s)
      {
        PendingPiecesExact(P, o, s, q);
        if q in PendingPieces(P, o, s) {
          assert q in pieces;
        }
      }
    }
  }

  /** best_job is eligible and comes from a step of the list that is in the
      chain; every earlier step of the list has no eligible piece, and no
      smaller piece is eligible for the chosen step. None means that no step
      of the list that is in the chain has an eligible piece. */
  lemma {:induction false} BestJobSpec(P: ProgressTable, o: string, chain: seq<int>, steps: seq<int>)
    ensures var r := BestJob(P, o, chain, steps);
      && (r.Some? ==>
            && r.value.step in chain
            && Eligible(P, o, chain, r.value.piece, r.value.step)
            && (forall q :: q < r.value.piece ==> !Eligible(P, o, chain, q, r.value.step))
            && exists i :: 0 <= i < |steps| && steps[i] == r.value.step
                 && forall j, q :: 0 <= j < i && steps[j] in chain ==> !Eligible(P, o, chain, q, steps[j]))
      && (r.None? ==> forall i, q :: 0 <= i < |steps| && steps[i] in chain ==> !Eligible(P, o, chain, q, steps[i]))
    decreases |steps|
  {
    if steps == [] {
      return;
    }
    var tail := steps[1..];
    var r := BestJob(P, o, chain, steps);
    BestJobSpec(P, o, chain, tail);
    if steps[0] in chain {
      StepChoice(P, o, chain, steps[0]);
    }
    if steps[0] in chain && FirstPiece(P, o, chain, steps[0], SortedInts(PendingPieces(P, o, steps[0]))).Some? {
      assert steps[0] == r.value.step;
    } else {
      assert r == BestJob(P, o, chain, tail);
      if r.Some? {
        var i :| 0 <= i < |tail| && tail[i] == r.value.step
                 && forall j, q :: 0 <= j < i && tail[j] in chain ==> !Eligible(P, o, chain, q, tail[j]);
        assert steps[i + 1] == r.value.step;
        forall j, q | 0 <= j < i + 1 && steps[j] in chain
          ensures !Eligible(P, o, chain, q, steps[j])
        {
          if j > 0 { assert steps[j] == tail[j - 1]; }
        }
      } else {
        forall i, q | 0 <= i < |steps| && steps[i] in chain
          ensures !Eligible(P, o, chain, q, steps[i])
        {
          if i > 0 { assert steps[i] == tail[i - 1]; }
        }
      }
    }
  }

  // ---------------------------------------------------------------------
  // Handing jobs to the idle stations

  /** One hand-over: the chosen pending row becomes running and the station
      holds it until `until`; nothing else changes. */
  lemma AssignSpec(d: Db, st: string, o: string, chain: seq<int>, c: Candidate, until: int, now: int)
    requires st in d.stations
    requires Eligible(d.progress, o, chain, c.piece, c.step)
    ensures var d1 := Assign(d, st, o, c, until, now); var k := RowKey(o, c.piece, c.step);
      && d1.orders == d.orders
      && d1.progress == d.progress[k := StartRow(d.progress[k], now)]
      && d1.stations == d.stations[st := StationRow(Some(k), At(until))]
  {
  }

  /** A piece eligible after a hand-over was eligible before it, and is not
      the piece that was just started. */
  lemma EligibleBefore(P: ProgressTable, o: string, chain: seq<int>, k: RowKey, now: int, q: int, s: int)
    requires k in P && P[k].state == Pending && k.order == o
    requires Eligible(P[k := StartRow(P[k], now)], o, chain, q, s)
    ensures Eligible(P, o, chain, q, s)
    ensures q != k.piece
  {
    var P1 := P[k := StartRow(P[k], now)];
    assert PieceIsRunning(P1, o, k.piece) by {
      assert k in P1 && P1[k].state == Running;
    }
  }

  lemma AssignedAppend(a: seq<Assignment>, b: seq<Assignment>)
    ensures AssignedKeys(a + b) == AssignedKeys(a) + AssignedKeys(b)
    ensures AssignedStations(a + b) == AssignedStations(a) + AssignedStations(b)
  {
    var out := a + b;
    forall x | x in AssignedKeys(out) ensures x in AssignedKeys(a) + AssignedKeys(b) {
      var i :| 0 <= i < |out| && AssignedKey(out[i]) == x;
      if i < |a| { assert out[i] == a[i]; } else { assert out[i] == b[i - |a|]; }
    }
    forall x | x in AssignedKeys(a) + AssignedKeys(b) ensures x in AssignedKeys(out) {
      if x in AssignedKeys(a) {
        var i :| 0 <= i < |a| && AssignedKey(a[i]) == x;
        assert out[i] == a[i];
      } else {
        var i :| 0 <= i < |b| && AssignedKey(b[i]) == x;
        assert out[|a| + i] == b[i];
      }
    }
    forall x | x in AssignedStations(out) ensures x in AssignedStations(a) + AssignedStations(b) {
      var i :| 0 <= i < |out| && out[i].station == x;
      if i < |a| { assert out[i] == a[i]; } else { assert out[i] == b[i - |a|]; }
    }
    forall x | x in AssignedStations(a) + AssignedStations(b) ensures x in AssignedStations(out) {
      if x in AssignedStations(a) {
        var i :| 0 <= i < |a| && a[i].station == x;
        assert out[i] == a[i];
      } else {
        var i :| 0 <= i < |b| && b[i].station == x;
        assert out[|a| + i] == b[i];
      }
    }
  }

  /** One station's turn changes at most the row it starts (and only when that
      row was pending) and its own station row. */
  lemma StationTurnFrame(cat: Catalog, d: Db, o: string, chain: seq<int>, now: int, st: string)
    requires st in d.stations
    ensures var t := StationTurn(cat, d, o, chain, now, st);
      && t.0.orders == d.orders
      && t.0.progress.Keys == d.progress.Keys && t.0.stations.Keys == d.stations.Keys
      && (forall k :: k in d.progress && k !in AssignedKeys(t.1) ==> t.0.progress[k] == d.progress[k])
      && (forall x :: x in d.stations && x !in AssignedStations(t.1) ==> t.0.stations[x] == d.stations[x])
      && (forall k :: k in d.progress && d.progress[k].state != Pending ==> t.0.progress[k] == d.progress[k])
      && AssignedStations(t.1) <= {st}
  {
    var t := StationTurn(cat, d, o, chain, now, st);
    if t.1 != [] {
      assert AssignedKeys(t.1) == {AssignedKey(t.1[0])};
      assert AssignedStations(t.1) == {st};
    }
  }

  /** The loop over the idle stations changes no order, adds or removes no
      row, and leaves every row and station it does not assign unchanged;
      rows that are not pending are never touched. */
  lemma {:induction false} AssignAllFrame(cat: Catalog, d: Db, o: string, chain: seq<int>, now: int, idle: seq<string>)
    requires forall st :: st in idle ==> st in d.stations
    ensures var r := AssignAll(cat, d, o, chain, now, idle);
      && r.0.orders == d.orders
      && r.0.progress.Keys == d.progress.Keys && r.0.stations.Keys == d.stations.Keys
      && (forall k :: k in d.progress && k !in AssignedKeys(r.1) ==> r.0.progress[k] == d.progress[k])
      && (forall st :: st in d.stations && st !in AssignedStations(r.1) ==> r.0.stations[st] == d.stations[st])
      && (forall k :: k in d.progress && d.progress[k].state != Pending ==> r.0.progress[k] == d.progress[k])
      && AssignedStations(r.1) <= set st | st in idle
    decreases |idle|
  {
    if idle == [] {
      return;
    }
    var turn := StationTurn(cat, d, o, chain, now, idle[0]);
    StationTurnFrame(cat, d, o, chain, now, idle[0]);
    AssignAllFrame(cat, turn.0, o, chain, now, idle[1..]);
    var next := AssignAll(cat, turn.0, o, chain, now, idle[1..]);
    AssignedAppend(turn.1, next.1);
  }

  /** One station's turn hands over exactly best_job, if there is one. */
  lemma StationTurnIsBestJob(cat: Catalog, d: Db, o: string, chain: seq<int>, now: int, st: string)
    ensures var t := StationTurn(cat, d, o, chain, now, st);
      var job := BestJob(d.progress, o, chain, SortedInts(StepsOfStation(cat, st)));
      && (job.None? ==> t.0 == d && t.1 == [])
      && (job.Some? ==>
            |t.1| == 1 && t.1[0] == Assignment(st, o, job.value.piece, job.value.step, now + EstSeconds(cat, job.value.step)))
  {
  }

  /** A turn that hands over a job: the row was eligible and is now running,
      the station holds it until now + est. */
  lemma StationTurnChoice(cat: Catalog, d: Db, o: string, chain: seq<int>, now: int, st: string)
    requires st in d.stations
    ensures var t := StationTurn(cat, d, o, chain, now, st);
      && (t.1 == [] ==> t.0 == d)
      && (t.1 != [] ==>
            var a := t.1[0];
            var k := AssignedKey(a);
            && |t.1| == 1 && a.station == st && a.order == o && a.step in chain
            && a.busyUntil == now + EstSeconds(cat, a.step)
            && Eligible(d.progress, o, chain, a.piece, a.step)
            && t.0.orders == d.orders
            && t.0.progress == d.progress[k := StartRow(d.progress[k], now)]
            && t.0.stations == d.stations[st := StationRow(Some(k), At(a.busyUntil))])
  {
    var job := BestJob(d.progress, o, chain, SortedInts(StepsOfStation(cat, st)));
    BestJobChosen(d.progress, o, chain, SortedInts(StepsOfStation(cat, st)));
    TurnChoice(cat, d, o, chain, now, st, job);
  }

  /** StationTurnChoice for a given job. */
  lemma TurnChoice(cat: Catalog, d: Db, o: string, chain: seq<int>, now: int, st: string, job: Option<Candidate>)
    requires st in d.stations
    requires job.Some? ==> job.value.step in chain && Eligible(d.progress, o, chain, job.value.piece, job.value.step)
    ensures var s, out := TurnState(cat, d, o, now, st, job), TurnOutput(cat, o, now, st, job);
      && (out == [] ==> s == d)
      && (out != [] ==>
            var a := out[0];
            var k := AssignedKey(a);
            && |out| == 1 && a.station == st && a.order == o && a.step in chain
            && a.busyUntil == now + EstSeconds(cat, a.step)
            && Eligible(d.progress, o, chain, a.piece, a.step)
            && s.orders == d.orders
            && s.progress == d.progress[k := StartRow(d.progress[k], now)]
            && s.stations == d.stations[st := StationRow(Some(k), At(a.busyUntil))])
  {
  }

  /** The part of BestJobSpec a single turn needs. */
  lemma BestJobChosen(P: ProgressTable, o: string, chain: seq<int>, steps: seq<int>)
    ensures var r := BestJob(P, o, chain, steps);
      r.Some? ==> r.value.step in chain && Eligible(P, o, chain, r.value.piece, r.value.step)
  {
    BestJobSpec(P, o, chain, steps);
  }

  /** The assignments `out` leading from d to the final state d': each is for
      order o and a chain step, was eligible in d, and left its row running with
      started_at coalesced; no two share a piece. */
  ghost predicate ChoicesHold(cat: Catalog, d: Db, d': Db, o: string, chain: seq<int>, now: int, out: seq<Assignment>) {
    && (forall i :: 0 <= i < |out| ==>
          && out[i].order == o && out[i].step in chain
          && out[i].busyUntil == now + EstSeconds(cat, out[i].step)
          && Eligible(d.progress, o, chain, out[i].piece, out[i].step)
          && AssignedKey(out[i]) in d'.progress
          && d'.progress[AssignedKey(out[i])] == StartRow(d.progress[AssignedKey(out[i])], now))
    && (forall i, j :: 0 <= i < j < |out| ==> out[i].piece != out[j].piece)
  }

  lemma ChoicesCons(cat: Catalog, d: Db, t: Db, d': Db, o: string, chain: seq<int>, now: int, a: Assignment, rest: seq<Assignment>)
    requires a.order == o && a.step in chain && a.busyUntil == now + EstSeconds(cat, a.step)
    requires Eligible(d.progress, o, chain, a.piece, a.step)
    requires t.progress == d.progress[AssignedKey(a) := StartRow(d.progress[AssignedKey(a)], now)]
    requires ChoicesHold(cat, t, d', o, chain, now, rest)
    requires forall k :: k in t.progress && t.progress[k].state != Pending ==> k in d'.progress && d'.progress[k] == t.progress[k]
    ensures ChoicesHold(cat, d, d', o, chain, now, [a] + rest)
  {
    var k := AssignedKey(a);
    var out := [a] + rest;
    forall i | 0 <= i < |rest|
      ensures Eligible(d.progress, o, chain, rest[i].piece, rest[i].step)
      ensures rest[i].piece != a.piece
      ensures d'.progress[AssignedKey(rest[i])] == StartRow(d.progress[AssignedKey(rest[i])], now)
    {
      EligibleBefore(d.progress, o, chain, k, now, rest[i].piece, rest[i].step);
    }
    assert t.progress[k].state == Running;
    forall i | 0 <= i < |out|
      ensures out[i] == if i == 0 then a else rest[i - 1]
    {
    }
  }

  /** Every assignment of the loop is for the focus order and a chain step,
      was eligible in the state the loop started from, and leaves its row
      running with started_at coalesced; no two assignments share a piece. */
  lemma {:induction false} AssignAllChoices(cat: Catalog, d: Db, o: string, chain: seq<int>, now: int, idle: seq<string>)
    requires forall st :: st in idle ==> st in d.stations
    ensures var r := AssignAll(cat, d, o, chain, now, idle);
      ChoicesHold(cat, d, r.0, o, chain, now, r.1)
    decreases |idle|
  {
    if idle == [] {
      return;
    }
    var st := idle[0];
    var turn := StationTurn(cat, d, o, chain, now, st);
    StationTurnChoice(cat, d, o, chain, now, st);
    AssignAllChoices(cat, turn.0, o, chain, now, idle[1..]);
    AssignAllFrame(cat, turn.0, o, chain, now, idle[1..]);
    var next := AssignAll(cat, turn.0, o, chain, now, idle[1..]);
    if turn.1 == [] {
      assert turn.1 + next.1 == next.1;
    } else {
      assert turn.1 == [turn.1[0]];
      ChoicesCons(cat, d, turn.0, next.0, o, chain, now, turn.1[0], next.1);
    }
  }

  /** The assignments `out` go to distinct stations of `idle`, and each of those
      stations holds its assignment in d'. */
  ghost predicate StationsHold(d': Db, idle: seq<string>, out: seq<Assignment>) {
    && (forall i :: 0 <= i < |out| ==> out[i].station in idle)
    && (forall i, j :: 0 <= i < j < |out| ==> out[i].station != out[j].station)
    && (forall i :: 0 <= i < |out| ==>
          && out[i].station in d'.stations
          && d'.stations[out[i].station] == StationRow(Some(AssignedKey(out[i])), At(out[i].busyUntil)))
  }

  lemma StationsCons(d': Db, t: Db, st: string, tail: seq<string>, a: Assignment, rest: seq<Assignment>)
    requires st !in tail && a.station == st
    requires st in t.stations && t.stations[st] == StationRow(Some(AssignedKey(a)), At(a.busyUntil))
    requires StationsHold(d', tail, rest)
    requires forall x :: x in t.stations && x !in AssignedStations(rest) ==> x in d'.stations && d'.stations[x] == t.stations[x]
    ensures StationsHold(d', [st] + tail, [a] + rest)
  {
    var out := [a] + rest;
    assert st !in AssignedStations(rest) by {
      forall x | x in AssignedStations(rest) ensures x != st {
        var i :| 0 <= i < |rest| && rest[i].station == x;
      }
    }
    forall i | 0 <= i < |out|
      ensures out[i] == if i == 0 then a else rest[i - 1]
    {
    }
  }

  /** With distinct idle stations, the assignments go to distinct stations of
      the list, and each of those stations ends up holding its assignment. */
  lemma {:induction false} AssignAllStations(cat: Catalog, d: Db, o: string, chain: seq<int>, now: int, idle: seq<string>)
    requires forall st :: st in idle ==> st in d.stations
    requires DistinctNames(idle)
    ensures var r := AssignAll(cat, d, o, chain, now, idle);
      StationsHold(r.0, idle, r.1)
    decreases |idle|
  {
    if idle == [] {
      return;
    }
    var st := idle[0];
    var turn := StationTurn(cat, d, o, chain, now, st);
    StationTurnChoice(cat, d, o, chain, now, st);
    var tail := idle[1..];
    DistinctTail(idle);
    AssignAllStations(cat, turn.0, o, chain, now, tail);
    AssignAllFrame(cat, turn.0, o, chain, now, tail);
    var next := AssignAll(cat, turn.0, o, chain, now, tail);
    if turn.1 == [] {
      assert turn.1 + next.1 == next.1;
      StationsWiden(next.0, st, tail, next.1);
    } else {
      assert turn.1 == [turn.1[0]];
      StationsCons(next.0, turn.0, st, tail, turn.1[0], next.1);
    }
  }

  lemma DistinctTail(xs: seq<string>)
    requires xs != [] && DistinctNames(xs)
    ensures DistinctNames(xs[1..]) && xs[0] !in xs[1..] && xs == [xs[0]] + xs[1..]
  {
    var tail := xs[1..];
    forall i, j | 0 <= i < j < |tail| ensures tail[i] != tail[j] {
      assert tail[i] == xs[i + 1] && tail[j] == xs[j + 1];
    }
    forall i | 0 <= i < |tail| ensures tail[i] != xs[0] {
      assert tail[i] == xs[i + 1];
    }
  }

  lemma StationsWiden(d': Db, st: string, tail: seq<string>, out: seq<Assignment>)
    requires StationsHold(d', tail, out)
    ensures StationsHold(d', [st] + tail, out)
  {
  }
}
