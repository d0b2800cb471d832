/** The fixed names, dates and paths the pipeline is configured with. */
module Constants {

  import opened Results
  import opened Strings
  import Dates

  /** The first confirmed case; earlier rows of the feed are noise. */
  const CovidFirstCaseIsoDate: string := "2020-02-26"
  const CovidFirstCaseDate: Dates.Date := Dates.Date(2020, 2, 26)

  const DatasetDir: string := "data"
  const DatasetInDir: string := DatasetDir + "/in"
  const DatasetOutDir: string := DatasetDir + "/out"

  /** The path of the dataset file `name.ext` inside directory `dir`. */
  function DatasetPath(dir: string, name: string, ext: string): string {
    dir + "/" + name + "." + ext
  }

  const ColumnDate: string := "Date"

  const SidartheName: string := "sidarthe"
  const SidartheExt: string := "txt"
  const SidartheOutPath: string := DatasetPath(DatasetOutDir, SidartheName, SidartheExt)

  /** D+R+T+E+H: everyone ever diagnosed. */
  const ColumnCasiTotali: string := "CasiTotali"
  /** E: deaths. */
  const ColumnDeceduti: string := "Deceduti"
  /** H: recovered after diagnosis. */
  const ColumnGuariti: string := "Guariti"
  /** D: currently positive, isolated at home. */
  const ColumnIsolamentoDomiciliare: string := "Isolamento_domiciliare"
  /** R: currently positive, hospitalised. */
  const ColumnRicoveratiSintomi: string := "Ricoverati_sintomi"
  /** T: currently positive, in intensive care. */
  const ColumnTerapiaIntensiva: string := "Terapia_intensiva"
  /** D+R+T: currently positive. */
  const ColumnPositivi: string := "Positivi"

  /** The columns the SIDARTHE simulation reads, in the order its input text lists them. */
  const SidartheColumns: seq<string> := [
    ColumnCasiTotali,
    ColumnDeceduti,
    ColumnGuariti,
    ColumnIsolamentoDomiciliare,
    ColumnRicoveratiSintomi,
    ColumnTerapiaIntensiva,
    ColumnPositivi
  ]

  /** The threshold text denotes 26 February 2020, a valid date. */
  lemma FirstCaseDateParses()
    ensures Dates.Parse(CovidFirstCaseIsoDate) == Some(CovidFirstCaseDate)
    ensures Dates.Valid(CovidFirstCaseDate)
  {
    Dates.Pow10Widths();
    assert Dates.Valid(CovidFirstCaseDate);
    assert Dates.Format(CovidFirstCaseDate) == CovidFirstCaseIsoDate;
    Dates.ParseIffFormat(CovidFirstCaseIsoDate, CovidFirstCaseDate);
  }

  /** Seven distinct names, Positivi last, and no Date column among them. */
  lemma SidartheColumnsShape()
    ensures |SidartheColumns| == 7
    ensures forall i, j | 0 <= i < j < |SidartheColumns| :: SidartheColumns[i] != SidartheColumns[j]
    ensures SidartheColumns[6] == ColumnPositivi
    ensures ColumnDate !in SidartheColumns
  {
  }

  /** Splits a dataset path back into directory, file name and extension, at the last '/' and last '.'. */
  function SplitDatasetPath(path: string): Option<(string, string, string)> {
    var slash := LastIndexOf(path, '/');
    var dot := LastIndexOf(path, '.');
    if slash < 0 || dot <= slash then None
    else Some((path[..slash], path[slash + 1..dot], path[dot + 1..]))
  }

  lemma DotIsLast(dir: string, name: string, ext: string)
    requires '.' !in ext
    ensures LastIndexOf(DatasetPath(dir, name, ext), '.') == |dir| + 1 + |name|
  {
    assert DatasetPath(dir, name, ext) == (dir + "/" + name) + ['.'] + ext;
    LastIndexOfAfter(dir + "/" + name, '.', ext);
  }

  lemma SlashIsLast(dir: string, name: string, ext: string)
    requires '/' !in name && '/' !in ext
    ensures LastIndexOf(DatasetPath(dir, name, ext), '/') == |dir|
  {
    var tail := name + "." + ext;
    assert DatasetPath(dir, name, ext) == dir + ['/'] + tail;
    assert '/' !in tail;
    LastIndexOfAfter(dir, '/', tail);
  }

  /** A dataset path determines its directory, name and extension. */
  lemma DatasetPathSplits(dir: string, name: string, ext: string)
    requires '/' !in name && '/' !in ext && '.' !in ext
    ensures SplitDatasetPath(DatasetPath(dir, name, ext)) == Some((dir, name, ext))
  {
    var path := DatasetPath(dir, name, ext);
    DotIsLast(dir, name, ext);
    SlashIsLast(dir, name, ext);
    assert path[..|dir|] == dir;
    assert path[|dir| + 1..|dir| + 1 + |name|] == name;
    assert path[|dir| + 1 + |name| + 1..] == ext;
  }

  /** The simulation input is written to `data/out/sidarthe.txt`. */
  lemma SidartheOutPathValue()
    ensures SidartheOutPath == "data/out/sidarthe.txt"
    ensures SplitDatasetPath(SidartheOutPath) == Some((DatasetOutDir, SidartheName, SidartheExt))
  {
    DatasetPathSplits(DatasetOutDir, SidartheName, SidartheExt);
  }
}
