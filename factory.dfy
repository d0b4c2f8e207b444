/** The production-line simulator's state and the meaning of each of its
    operations, as functions from the state before to the state after.

    Three tables of the order database are modelled as maps:
      - piece_step_progress: (order_id, piece_no, step_order) -> state and time stamps,
      - station_state: station -> the job it holds and busy_until,
      - order_list: order_id -> step chain text, amount and status.
    Time is an integer number of seconds (the caller's "now"). */
module Factory {
  import opened Wrappers
  import opened Chain
  import opened Ordering
  import opened Catalog

  datatype PieceState = Pending | Running | Finished

  /** The primary key of piece_step_progress. */
  datatype RowKey = RowKey(order: string, piece: int, step: int)

  datatype Progress = Progress(state: PieceState, startedAt: Option<int>, finishedAt: Option<int>)

  /** busy_until: NULL, a time, or a text datetime.fromisoformat rejects. */
  datatype Deadline = NoDeadline | At(time: int) | Unreadable

  /** A station_state row; job holds current_order_id, current_piece_no and
      current_step_order, which the engine always writes together. */
  datatype StationRow = StationRow(job: Option<RowKey>, busyUntil: Deadline)

  /** The order_list columns the engine reads; a NULL step_name is stored as "". */
  datatype OrderRow = OrderRow(stepName: string, amount: SqlValue, status: string)

  type ProgressTable = map<RowKey, Progress>
  type StationTable = map<string, StationRow>
  type OrderTable = map<string, OrderRow>

  datatype Db = Db(progress: ProgressTable, stations: StationTable, orders: OrderTable)

  /** One element of the list a tick returns. */
  datatype Assignment = Assignment(station: string, order: string, piece: int, step: int, busyUntil: int)

  /** The job a station settles on: a piece and a step. */
  datatype Candidate = Candidate(piece: int, step: int)

  const ActiveStatus: string := "active"
  const CompletedStatus: string := "completed"

  const PendingRow: Progress := Progress(Pending, None, None)
  const IdleRow: StationRow := StationRow(None, NoDeadline)

  function Max1(x: int): (r: int)
    ensures r >= 1 && r >= x && (r == 1 || r == x)
  {
    if x < 1 then 1 else x
  }

  /** max(1, int(amount or 1)), 1 when int() raises. */
  function NormAmount(v: SqlValue): (n: int)
    ensures n >= 1
    ensures (v.Int? && v.i >= 1) ==> n == v.i
    ensures (v.IntText? && v.n >= 1) ==> n == v.n
    ensures v.Null? || v.Junk? ==> n == 1
    ensures (v.Int? && v.i < 1) || (v.IntText? && v.n < 1) ==> n == 1
  {
    match v
    case Null => 1
    case Int(i) => Max1(i)
    case IntText(t) => Max1(t)
    case Junk => 1
  }

  // ---------------------------------------------------------------------
  // _ensure_station_rows and _ensure_piece_rows

  /** INSERT OR IGNORE an idle row for every station of the catalog. */
  function EnsureStations(d: Db, cat: Catalog): Db {
    d.(stations := map st | st in d.stations.Keys + StationNames(cat) ::
                     if st in d.stations then d.stations[st] else IdleRow)
  }

  function NewRowKeys(o: string, chain: seq<int>, n: int): set<RowKey> {
    set p, s | 1 <= p <= n && s in chain :: RowKey(o, p, s)
  }

  /** INSERT OR IGNORE of a pending row for each key of `keys`. */
  function WithPending(P: ProgressTable, keys: set<RowKey>): ProgressTable {
    map k | k in P.Keys + keys :: if k in P then P[k] else PendingRow
  }

  /** INSERT OR IGNORE a pending row for every piece 1..max(1, amount) and every
      step of the chain. */
  function EnsuredRows(P: ProgressTable, o: string, chain: seq<int>, amount: int): ProgressTable {
    WithPending(P, NewRowKeys(o, chain, Max1(amount)))
  }

  // ---------------------------------------------------------------------
  // Queries on piece_step_progress

  /** _piece_is_running: some row of this piece of this order is running. */
  predicate PieceIsRunning(P: ProgressTable, o: string, p: int) {
    exists k :: k in P && k.order == o && k.piece == p && P[k].state == Running
  }

  /** The precedence test of the dispatcher: the step before s (if any) is
      finished for this piece. */
  predicate PrevFinished(P: ProgressTable, o: string, chain: seq<int>, p: int, s: int) {
    var prev := PrevStep(chain, s);
    prev.None? || (RowKey(o, p, prev.value) in P && P[RowKey(o, p, prev.value)].state == Finished)
  }

  /** The piece numbers of the pending rows of (order, step). */
  function PendingPieces(P: ProgressTable, o: string, s: int): set<int> {
    set k | k in P && k.order == o && k.step == s && P[k].state == Pending :: k.piece
  }

  /** A piece may start step s: its row is pending, no row of that piece is
      running, and the previous step of the chain is finished for it. */
  ghost predicate Eligible(P: ProgressTable, o: string, chain: seq<int>, p: int, s: int) {
    && RowKey(o, p, s) in P && P[RowKey(o, p, s)].state == Pending
    && !PieceIsRunning(P, o, p)
    && PrevFinished(P, o, chain, p, s)
  }

  function FinishedKeys(P: ProgressTable, o: string, s: int): set<RowKey> {
    set k | k in P && k.order == o && k.step == s && P[k].state == Finished
  }

  function RunningKeys(P: ProgressTable, o: string, s: int): set<RowKey> {
    set k | k in P && k.order == o && k.step == s && P[k].state == Running
  }

  /** SELECT COUNT(*) ... state='finished' for one step of one order. */
  function FinishedCount(P: ProgressTable, o: string, s: int): nat {
    |FinishedKeys(P, o, s)|
  }

  /** SELECT COUNT(*) ... state='running' for one step of one order. */
  function RunningCount(P: ProgressTable, o: string, s: int): nat {
    |RunningKeys(P, o, s)|
  }

  /** _is_order_completed. */
  predicate IsOrderCompleted(P: ProgressTable, o: string, lastStep: int, amount: int) {
    FinishedCount(P, o, lastStep) >= Max1(amount)
  }

  // ---------------------------------------------------------------------
  // _complete_due_jobs

  /** The sweep acts on a station that holds a job and whose readable
      busy_until is not after now. */
  predicate Due(row: StationRow, now: int) {
    row.job.Some? && row.busyUntil.At? && row.busyUntil.time <= now
  }

  /** Some station of the set `among` is due and holds the job k. */
  predicate HeldByDue(S: StationTable, among: set<string>, k: RowKey, now: int) {
    exists st :: st in among && st in S && Due(S[st], now) && S[st].job == Some(k)
  }

  function FinishRow(r: Progress, now: int): Progress {
    r.(state := Finished, finishedAt := Some(now))
  }

  /** The progress table once the stations of `among` have been swept. */
  function SweepProgress(P: ProgressTable, S: StationTable, among: set<string>, now: int): ProgressTable {
    map k | k in P :: if P[k].state == Running && HeldByDue(S, among, k, now) then FinishRow(P[k], now) else P[k]
  }

  /** The station table once the stations of `among` have been swept. */
  function SweepStations(S: StationTable, among: set<string>, now: int): StationTable {
    map st | st in S :: if st in among && Due(S[st], now) then IdleRow else S[st]
  }

  /** _complete_due_jobs: every station of the table is swept with the same now. */
  function Sweep(d: Db, now: int): Db {
    d.(progress := SweepProgress(d.progress, d.stations, d.stations.Keys, now),
       stations := SweepStations(d.stations, d.stations.Keys, now))
  }

  // ---------------------------------------------------------------------
  // _dispatch_for_focus_order

  /** The first piece of the list that is not running and whose previous step
      is finished. */
  function FirstPiece(P: ProgressTable, o: string, chain: seq<int>, s: int, pieces: seq<int>): Option<int> {
    if pieces == [] then None
    else if !PieceIsRunning(P, o, pieces[0]) && PrevFinished(P, o, chain, pieces[0], s) then Some(pieces[0])
    else FirstPiece(P, o, chain, s, pieces[1..])
  }

  /** best_job for one station: its steps in ascending id, those outside the
      chain skipped, each with its pending pieces in ascending piece_no; the
      first eligible pair wins. */
  ghost function BestJob(P: ProgressTable, o: string, chain: seq<int>, steps: seq<int>): Option<Candidate> {
    if steps == [] then None
    else if steps[0] !in chain then BestJob(P, o, chain, steps[1..])
    else
      match FirstPiece(P, o, chain, steps[0], SortedInts(PendingPieces(P, o, steps[0])))
      case Some(p) => Some(Candidate(p, steps[0]))
      case None => BestJob(P, o, chain, steps[1..])
  }

  /** pending -> running (started_at kept when already set). */
  function StartRow(r: Progress, now: int): Progress {
    r.(state := Running, startedAt := if r.startedAt.Some? then r.startedAt else Some(now))
  }

  /** The two UPDATE statements that hand a job to a station. */
  function Assign(d: Db, station: string, o: string, c: Candidate, until: int, now: int): Db {
    var k := RowKey(o, c.piece, c.step);
    d.(progress := if k in d.progress && d.progress[k].state == Pending then d.progress[k := StartRow(d.progress[k], now)] else d.progress,
       stations := if station in d.stations then d.stations[station := StationRow(Some(k), At(until))] else d.stations)
  }

  /** The stations with current_order_id IS NULL. */
  function IdleStations(S: StationTable): set<string> {
    set st | st in S && S[st].job.None?
  }

  /** One idle station's turn: look for its best job and, when there is one,
      hand it over; the list holds the resulting assignment, if any. */
  ghost function StationTurn(cat: Catalog, d: Db, o: string, chain: seq<int>, now: int, st: string): (Db, seq<Assignment>) {
    var job := BestJob(d.progress, o, chain, SortedInts(StepsOfStation(cat, st)));
    (TurnState(cat, d, o, now, st, job), TurnOutput(cat, o, now, st, job))
  }

  /** The tables after a station's turn, given the job it found. */
  function TurnState(cat: Catalog, d: Db, o: string, now: int, st: string, job: Option<Candidate>): Db {
    if job.None? then d else Assign(d, st, o, job.value, now + EstSeconds(cat, job.value.step), now)
  }

  /** What a station's turn adds to the dispatched list, given the job it found. */
  function TurnOutput(cat: Catalog, o: string, now: int, st: string, job: Option<Candidate>): seq<Assignment> {
    if job.None? then [] else [Assignment(st, o, job.value.piece, job.value.step, now + EstSeconds(cat, job.value.step))]
  }

  /** The loop over the idle stations, in the given order. */
  ghost function AssignAll(cat: Catalog, d: Db, o: string, chain: seq<int>, now: int, idle: seq<string>): (Db, seq<Assignment>)
    decreases |idle|
  {
    if idle == [] then (d, [])
    else
      var turn := StationTurn(cat, d, o, chain, now, idle[0]);
      var next := AssignAll(cat, turn.0, o, chain, now, idle[1..]);
      (next.0, turn.1 + next.1)
  }

  function AssignedKey(a: Assignment): RowKey {
    RowKey(a.order, a.piece, a.step)
  }

  function AssignedKeys(out: seq<Assignment>): set<RowKey> {
    set i | 0 <= i < |out| :: AssignedKey(out[i])
  }

  function AssignedStations(out: seq<Assignment>): set<string> {
    set i | 0 <= i < |out| :: out[i].station
  }

  predicate DistinctNames(xs: seq<string>) {
    forall i, j :: 0 <= i < j < |xs| ==> xs[i] != xs[j]
  }

  /** _dispatch_for_focus_order: nothing for a missing or non-active order or an
      empty chain; otherwise ensure the piece rows, then visit the idle stations
      in ascending name. */
  ghost function Dispatch(cat: Catalog, d: Db, o: string, now: int): (Db, seq<Assignment>) {
    if o !in d.orders || d.orders[o].status != ActiveStatus then (d, [])
    else
      var chain := StepChain(d.orders[o].stepName);
      if chain == [] then (d, [])
      else
        var d1 := d.(progress := EnsuredRows(d.progress, o, chain, NormAmount(d.orders[o].amount)));
        AssignAll(cat, d1, o, chain, now, SortedNames(IdleStations(d1.stations)))
  }

  // ---------------------------------------------------------------------
  // _tick_once_for_order and api_reset

  /** The order-completion step of a tick: whatever the current status, the
      order becomes completed once its last step has max(1, amount) finished rows. */
  function CheckCompletion(d: Db, o: string): Db {
    if o !in d.orders then d
    else
      var chain := StepChain(d.orders[o].stepName);
      if chain != [] && IsOrderCompleted(d.progress, o, chain[|chain| - 1], NormAmount(d.orders[o].amount))
      then d.(orders := d.orders[o := d.orders[o].(status := CompletedStatus)])
      else d
  }

  ghost function Tick(cat: Catalog, d: Db, o: string, now: int): (Db, seq<Assignment>) {
    var r := Dispatch(cat, Sweep(d, now), o, now);
    (CheckCompletion(r.0, o), r.1)
  }

  /** api_reset: free the stations holding a job of the order and delete all of
      the order's progress rows. */
  function Cleared(d: Db, o: string): Db {
    d.(stations := map st | st in d.stations ::
                     if d.stations[st].job.Some? && d.stations[st].job.value.order == o then IdleRow else d.stations[st],
       progress := map k | k in d.progress && k.order != o :: d.progress[k])
  }

  // ---------------------------------------------------------------------
  // The per-step status that simulate shows

  /** One step of the view: its definition, done_qty, total_qty and state. */
  datatype StepView = StepView(def: StepDef, doneQty: nat, totalQty: int, state: PieceState)

  /** finished once done reaches the amount, else running when some piece is
      on the step, else pending. */
  function StepState(done: nat, running: nat, amount: int): PieceState {
    if done >= amount then Finished else if running > 0 then Running else Pending
  }

  function ViewOf(P: ProgressTable, o: string, def: StepDef, amount: int): StepView {
    StepView(def, FinishedCount(P, o, def.step), amount,
             StepState(FinishedCount(P, o, def.step), RunningCount(P, o, def.step), amount))
  }

  /** The view of every catalogued step of the chain, in chain order. */
  function Projection(P: ProgressTable, o: string, defs: seq<StepDef>, amount: int): seq<StepView> {
    if defs == [] then [] else [ViewOf(P, o, defs[0], amount)] + Projection(P, o, defs[1..], amount)
  }

  // ---------------------------------------------------------------------
  // The invariants of the engine

  /** A piece is in flight on at most one step. */
  ghost predicate SingleFlight(P: ProgressTable) {
    forall k1, k2 ::
      (k1 in P && k2 in P && P[k1].state == Running && P[k2].state == Running
       && k1.order == k2.order && k1.piece == k2.piece) ==> k1 == k2
  }

  /** A started (running or finished) row has its previous chain step finished. */
  ghost predicate PrecedenceHolds(d: Db) {
    forall k :: k in d.progress && d.progress[k].state != Pending && k.order in d.orders ==>
      PrevFinished(d.progress, k.order, StepChain(d.orders[k.order].stepName), k.piece, k.step)
  }

  /** Every job a station holds is a running row. */
  ghost predicate JobsRunning(d: Db) {
    forall st :: st in d.stations && d.stations[st].job.Some? ==>
      d.stations[st].job.value in d.progress && d.progress[d.stations[st].job.value].state == Running
  }

  /** No two stations hold the same job. */
  ghost predicate OneStationPerJob(S: StationTable) {
    forall st1, st2 :: st1 in S && st2 in S && S[st1].job.Some? && S[st1].job == S[st2].job ==> st1 == st2
  }

  /** Every running row is held by a station. */
  ghost predicate RunningHeld(d: Db) {
    forall k :: k in d.progress && d.progress[k].state == Running ==>
      exists st :: st in d.stations && d.stations[st].job == Some(k)
  }

  /** busy_until is NULL exactly when the station is idle. */
  ghost predicate DeadlineIffBusy(S: StationTable) {
    forall st :: st in S ==> (S[st].job.None? <==> S[st].busyUntil.NoDeadline?)
  }

  ghost predicate Valid(d: Db) {
    && SingleFlight(d.progress)
    && PrecedenceHolds(d)
    && JobsRunning(d)
    && OneStationPerJob(d.stations)
    && RunningHeld(d)
    && DeadlineIffBusy(d.stations)
  }
}
