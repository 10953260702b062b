/**
 * The records of the foam/surfactant literature table: one row per experimental
 * observation, seven categorical facets (the study and six experimental conditions)
 * and named numeric measurements such as "Temperature (C)" or "Halflife (Min)".
 */
module Records {

  /** The sentinel written into a facet cell that the sheet left empty. */
  const NoneLabel: string := "None"

  /** The marker the Average Y-axis mode writes into a facet that varies within one x value. */
  const RefineFurther: string := "Refine Further"

  /** The placeholder the Color column holds before colours are assigned. */
  const UnassignedColor: string := "any"

  /** The seven categorical columns, in the order the dashboard filters them. */
  datatype Facet = Study | Gas | Surfactant | SurfactantConcentration | Additive | AdditiveConcentration | LiquidPhase

  /** The six experimental-condition facets (every facet but the study). */
  const Conditions: seq<Facet> := [Gas, Surfactant, SurfactantConcentration, Additive, AdditiveConcentration, LiquidPhase]

  /** All seven facets, the study first. */
  const Facets: seq<Facet> := [Study] + Conditions

  /**
   * One loaded and cleaned row. A measurement column missing from `measures` is a
   * missing cell (NaN in the dashboard's table, the string "None" in the legacy one).
   */
  datatype Row = Row(
    study: string,
    gas: string,
    surfactant: string,
    surfactantConcentration: string,
    additive: string,
    additiveConcentration: string,
    liquidPhase: string,
    measures: map<string, real>,
    color: string)
  {
    /** The value of facet `f` in this row. */
    function Get(f: Facet): string {
      match f
      case Study => study
      case Gas => gas
      case Surfactant => surfactant
      case SurfactantConcentration => surfactantConcentration
      case Additive => additive
      case AdditiveConcentration => additiveConcentration
      case LiquidPhase => liquidPhase
    }
  }

  /** A facet cell of the sheet as loaded: empty, or some text. */
  datatype Cell = Missing | Text(s: string)

  /** A row of the sheet as loaded, before any cleaning. */
  datatype RawRow = RawRow(
    study: Cell,
    gas: Cell,
    surfactant: Cell,
    surfactantConcentration: Cell,
    additive: Cell,
    additiveConcentration: Cell,
    liquidPhase: Cell,
    measures: map<string, real>)
  {
    /** The cell of facet `f` in this row. */
    function At(f: Facet): Cell {
      match f
      case Study => study
      case Gas => gas
      case Surfactant => surfactant
      case SurfactantConcentration => surfactantConcentration
      case Additive => additive
      case AdditiveConcentration => additiveConcentration
      case LiquidPhase => liquidPhase
    }

    /** True when every cell of the row is empty. */
    predicate AllMissing() {
      && study == Missing && gas == Missing && surfactant == Missing
      && surfactantConcentration == Missing && additive == Missing
      && additiveConcentration == Missing && liquidPhase == Missing
      && measures == map[]
    }
  }

  /** The text of a facet cell, with an empty cell read as "None". */
  function OrNone(c: Cell): (s: string)
    ensures c.Text? ==> s == c.s
    ensures c.Missing? ==> s == NoneLabel
  {
    match c
    case Missing => NoneLabel
    case Text(t) => t
  }

  /** The admissible values chosen for each facet (the checklists' values). */
  datatype Selection = Selection(
    studies: seq<string>,
    gases: seq<string>,
    surfactants: seq<string>,
    surfactantConcentrations: seq<string>,
    additives: seq<string>,
    additiveConcentrations: seq<string>,
    liquidPhases: seq<string>)
  {
    /** The admissible values of facet `f`. */
    function Allowed(f: Facet): seq<string> {
      match f
      case Study => studies
      case Gas => gases
      case Surfactant => surfactants
      case SurfactantConcentration => surfactantConcentrations
      case Additive => additives
      case AdditiveConcentration => additiveConcentrations
      case LiquidPhase => liquidPhases
    }
  }

  /** The values of facet `f`, one per row, in row order. */
  function Column(rows: seq<Row>, f: Facet): (c: seq<string>)
    ensures |c| == |rows|
    ensures forall i :: 0 <= i < |rows| ==> c[i] == rows[i].Get(f)
  {
    seq(|rows|, i requires 0 <= i < |rows| => rows[i].Get(f))
  }

  /** The values of a measurement column that every row has, in row order. */
  function Values(rows: seq<Row>, col: string): (v: seq<real>)
    requires forall i :: 0 <= i < |rows| ==> col in rows[i].measures
    ensures |v| == |rows|
    ensures forall i :: 0 <= i < |rows| ==> v[i] == rows[i].measures[col]
  {
    seq(|rows|, i requires 0 <= i < |rows| => rows[i].measures[col])
  }
}
