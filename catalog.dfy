/** The process catalog (the standard_process table of the product database),
    read-only for the production line: step_order -> step definition. */
module Catalog {
  import opened Text

  /** A database cell that the code coerces with int(cell or default):
      NULL, an INTEGER, a non-empty TEXT that int() accepts (with its value), or
      anything int() rejects. */
  datatype SqlValue = Null | Int(i: int) | IntText(n: int) | Junk

  /** One standard_process row; a NULL station is stored as "". */
  datatype ProcessStep = ProcessStep(name: string, station: string, description: string, estimatedTime: SqlValue)

  /** The table keyed by step_order (one row per step_order). */
  type Catalog = map<int, ProcessStep>

  const DefaultEstSeconds: int := 5

  /** _get_est_sec: the estimated seconds of a step. A missing row, a NULL or
      0 cell and a cell int() rejects all give 5; a non-empty text "0" is truthy
      in Python and gives 0; any other value is taken as it is, negative ones
      included. */
  function EstSeconds(cat: Catalog, step: int): (r: int)
    ensures step !in cat ==> r == DefaultEstSeconds
    ensures step in cat && cat[step].estimatedTime in {Null, Int(0), Junk} ==> r == DefaultEstSeconds
    ensures step in cat && cat[step].estimatedTime.Int? && cat[step].estimatedTime.i != 0 ==> r == cat[step].estimatedTime.i
    ensures step in cat && cat[step].estimatedTime.IntText? ==> r == cat[step].estimatedTime.n
    ensures r <= 0 ==> step in cat && (cat[step].estimatedTime.Int? || cat[step].estimatedTime.IntText?)
  {
    if step !in cat then DefaultEstSeconds
    else match cat[step].estimatedTime
      case Null => DefaultEstSeconds
      case Int(v) => if v == 0 then DefaultEstSeconds else v
      case IntText(v) => v
      case Junk => DefaultEstSeconds
  }

  /** The value _get_step_station_map gives a catalogued step: its station, stripped. */
  function StationOf(cat: Catalog, step: int): string
    requires step in cat
  {
    Strip(cat[step].station)
  }

  /** The steps the dispatcher lets a station run: station_steps.get(station, []),
      i.e. the catalogued steps whose stripped station is that non-empty name. */
  function StepsOfStation(cat: Catalog, station: string): set<int> {
    set s | s in cat && station != "" && StationOf(cat, s) == station
  }

  /** Each catalogued step with a non-blank station is offered to exactly one
      station name, and a step never appears under a name other than its own. */
  lemma StepBelongsToOneStation(cat: Catalog, step: int, other: string)
    requires step in cat && StationOf(cat, step) != ""
    ensures step in StepsOfStation(cat, StationOf(cat, step))
    ensures other != StationOf(cat, step) ==> step !in StepsOfStation(cat, other)
  {
  }

  /** _ensure_station_rows: the distinct raw station values whose SQL TRIM is
      non-empty (TRIM removes spaces only; Python's strip is not applied here). */
  function StationNames(cat: Catalog): set<string> {
    set s | s in cat && SqlTrim(cat[s].station) != "" :: cat[s].station
  }

  lemma StationNamesExact(cat: Catalog, name: string)
    ensures name in StationNames(cat) <==> exists s :: s in cat && cat[s].station == name && SqlTrim(name) != ""
  {
  }

  /** A step definition as _get_step_defs returns it: the row with its step_order. */
  datatype StepDef = StepDef(step: int, row: ProcessStep)

  /** _get_step_defs: the catalog rows of the chain, in chain order, steps
      missing from the catalog dropped (a repeated step repeats its row). */
  function StepDefs(cat: Catalog, chain: seq<int>): (defs: seq<StepDef>)
    ensures |defs| <= |chain|
    ensures forall i :: 0 <= i < |defs| ==> defs[i].step in cat && defs[i].row == cat[defs[i].step]
  {
    if chain == [] then []
    else (if chain[0] in cat then [StepDef(chain[0], cat[chain[0]])] else []) + StepDefs(cat, chain[1..])
  }

  function DefSteps(defs: seq<StepDef>): seq<int> {
    if defs == [] then [] else [defs[0].step] + DefSteps(defs[1..])
  }

  lemma {:induction false} DefStepsAt(defs: seq<StepDef>, i: int)
    requires 0 <= i < |defs|
    ensures |DefSteps(defs)| == |defs| && DefSteps(defs)[i] == defs[i].step
  {
    if i > 0 {
      DefStepsAt(defs[1..], i - 1);
    } else if |defs| > 1 {
      DefStepsAt(defs[1..], 0);
    }
  }

  lemma {:induction false} DefStepsAppend(a: seq<StepDef>, b: seq<StepDef>)
    ensures DefSteps(a + b) == DefSteps(a) + DefSteps(b)
  {
    if a != [] {
      assert (a + b)[1..] == a[1..] + b;
      DefStepsAppend(a[1..], b);
    } else {
      assert a + b == b;
    }
  }

  /** The definitions of a concatenated chain are those of each part, in turn:
      chain order is kept. */
  lemma {:induction false} StepDefsAppend(cat: Catalog, c1: seq<int>, c2: seq<int>)
    ensures StepDefs(cat, c1 + c2) == StepDefs(cat, c1) + StepDefs(cat, c2)
  {
    if c1 != [] {
      assert (c1 + c2)[0] == c1[0];
      assert (c1 + c2)[1..] == c1[1..] + c2;
      StepDefsAppend(cat, c1[1..], c2);
    } else {
      assert c1 + c2 == c2;
    }
  }

  /** A step is listed exactly when it is in the chain and in the catalog. */
  lemma {:induction false} StepDefsMembers(cat: Catalog, chain: seq<int>, step: int)
    ensures step in DefSteps(StepDefs(cat, chain)) <==> step in chain && step in cat
  {
    if chain != [] {
      var head := if chain[0] in cat then [StepDef(chain[0], cat[chain[0]])] else [];
      DefStepsAppend(head, StepDefs(cat, chain[1..]));
      StepDefsMembers(cat, chain[1..], step);
      assert chain == [chain[0]] + chain[1..];
    }
  }

  /** When every step of the chain is catalogued, nothing is dropped. */
  lemma {:induction false} StepDefsComplete(cat: Catalog, chain: seq<int>)
    requires forall i :: 0 <= i < |chain| ==> chain[i] in cat
    ensures DefSteps(StepDefs(cat, chain)) == chain
  {
    if chain != [] {
      var head := [StepDef(chain[0], cat[chain[0]])];
      DefStepsAppend(head, StepDefs(cat, chain[1..]));
      StepDefsComplete(cat, chain[1..]);
      assert chain == [chain[0]] + chain[1..];
    }
  }
}
