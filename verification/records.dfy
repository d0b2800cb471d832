/** One row of the case-count table, before and after its date is parsed. */
module Records {

  import opened Results
  import opened Constants
  import Dates

  /** A row as loaded: the date still text, the six counts already integers. */
  datatype RawRecord = RawRecord(
    date: string,
    casiTotali: nat,
    deceduti: nat,
    guariti: nat,
    isolamentoDomiciliare: nat,
    ricoveratiSintomi: nat,
    terapiaIntensiva: nat)

  /**
   * A row with a parsed date, under the canonical column names.
   * `positivi` is `None` until the derived Positivi column has been added.
   */
  datatype Record = Record(
    date: Dates.Date,
    casiTotali: nat,
    deceduti: nat,
    guariti: nat,
    isolamentoDomiciliare: nat,
    ricoveratiSintomi: nat,
    terapiaIntensiva: nat,
    positivi: Option<nat>)

  /** D+R+T: the three sub-populations of the currently positive. */
  function CurrentlyPositive(r: Record): nat {
    r.isolamentoDomiciliare + r.ricoveratiSintomi + r.terapiaIntensiva
  }

  /** The Positivi identity: the derived column is present and equals D+R+T. */
  predicate HasPositivi(r: Record) {
    r.positivi == Some(CurrentlyPositive(r))
  }

  /** The count columns the simulation reads. */
  datatype Metric =
    | CasiTotali
    | Deceduti
    | Guariti
    | IsolamentoDomiciliare
    | RicoveratiSintomi
    | TerapiaIntensiva
    | Positivi

  /** The column name each metric is stored and written under. */
  function MetricName(m: Metric): string {
    match m
    case CasiTotali => ColumnCasiTotali
    case Deceduti => ColumnDeceduti
    case Guariti => ColumnGuariti
    case IsolamentoDomiciliare => ColumnIsolamentoDomiciliare
    case RicoveratiSintomi => ColumnRicoveratiSintomi
    case TerapiaIntensiva => ColumnTerapiaIntensiva
    case Positivi => ColumnPositivi
  }

  /** The metrics in the order of `SidartheColumns`. */
  const SidartheMetrics: seq<Metric> :=
    [CasiTotali, Deceduti, Guariti, IsolamentoDomiciliare, RicoveratiSintomi, TerapiaIntensiva, Positivi]

  lemma SidartheMetricsNamed()
    ensures |SidartheMetrics| == |SidartheColumns|
    ensures forall k | 0 <= k < |SidartheMetrics| :: MetricName(SidartheMetrics[k]) == SidartheColumns[k]
  {
  }

  /** No column name holds the '=' or the newline that delimit the simulation text. */
  lemma MetricNamePlain(m: Metric)
    ensures '=' !in MetricName(m) && '\n' !in MetricName(m)
  {
  }

  /** `row[name]` for one of the simulation's columns; Positivi must already be derived. */
  function MetricValue(r: Record, m: Metric): nat
    requires r.positivi.Some?
  {
    match m
    case CasiTotali => r.casiTotali
    case Deceduti => r.deceduti
    case Guariti => r.guariti
    case IsolamentoDomiciliare => r.isolamentoDomiciliare
    case RicoveratiSintomi => r.ricoveratiSintomi
    case TerapiaIntensiva => r.terapiaIntensiva
    case Positivi => r.positivi.value
  }

  predicate AllHavePositiviColumn(rows: seq<Record>) {
    forall i | 0 <= i < |rows| :: rows[i].positivi.Some?
  }

  /** A whole column, `dataframe[name].to_list()`. */
  function ColumnValues(rows: seq<Record>, m: Metric): (vs: seq<nat>)
    requires AllHavePositiviColumn(rows)
    ensures |vs| == |rows|
    ensures forall i | 0 <= i < |rows| :: vs[i] == MetricValue(rows[i], m)
  {
    seq(|rows|, i requires 0 <= i < |rows| => MetricValue(rows[i], m))
  }
}
