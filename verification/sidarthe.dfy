/**
 * The text the SIDARTHE Matlab simulation reads: one line per column,
 * `Name=[v1 v2 ... vn]/popolazione;`, where `popolazione` is left for the
 * simulation to substitute.
 */
module SidartheFormat {

  import opened Results
  import opened Decimal
  import opened Strings
  import opened Constants
  import opened Records

  const PopulationToken: string := "popolazione"
  const LineSuffix: string := "/" + PopulationToken + ";"

  /** `str(v)` of every value. */
  function Renderings(vs: seq<nat>): (parts: seq<string>)
    ensures |parts| == |vs|
    ensures forall k | 0 <= k < |vs| :: parts[k] == NatToString(vs[k])
  {
    seq(|vs|, k requires 0 <= k < |vs| => NatToString(vs[k]))
  }

  /** Non-empty digit strings joined by single spaces. */
  lemma {:induction false} JoinedDigits(parts: seq<string>)
    requires forall k | 0 <= k < |parts| :: |parts[k]| > 0 && AllDigits(parts[k])
    ensures var s := Join(parts, " ");
      && (|parts| == 0 <==> |s| == 0)
      && (|s| > 0 ==> IsDigit(s[0]) && IsDigit(s[|s| - 1]))
      && forall i | 0 <= i < |s| :: IsDigit(s[i]) || s[i] == ' '
    decreases |parts|
  {
    if |parts| > 1 {
      JoinedDigits(parts[1..]);
      var tail := Join(parts[1..], " ");
      var s := Join(parts, " ");
      assert s == parts[0] + " " + tail;
      forall i | 0 <= i < |s|
        ensures IsDigit(s[i]) || s[i] == ' '
      {
        if i < |parts[0]| {
          assert s[i] == parts[0][i];
        } else if i > |parts[0]| {
          assert s[i] == tail[i - |parts[0]| - 1];
        }
      }
    }
  }

  /**
   * A column as a Matlab row vector: `[`, the decimal values separated by single
   * spaces, `]`. Only digits and spaces stand between the brackets, and neither
   * bracket has a space beside it.
   */
  function MatlabArray(vs: seq<nat>): (s: string)
    ensures |s| >= 2 && s[0] == '[' && s[|s| - 1] == ']'
    ensures forall i | 1 <= i < |s| - 1 :: IsDigit(s[i]) || s[i] == ' '
    ensures |vs| == 0 <==> s == "[]"
    ensures |vs| > 0 ==> IsDigit(s[1]) && IsDigit(s[|s| - 2])
  {
    var inner := Join(Renderings(vs), " ");
    JoinedDigits(Renderings(vs));
    var s := "[" + inner + "]";
    assert forall i | 1 <= i < |s| - 1 :: s[i] == inner[i - 1];
    s
  }

  /** Python's `str(list)` of integers: `[v1, v2, ..., vn]`. */
  function PythonListRepr(vs: seq<nat>): string {
    "[" + Join(Renderings(vs), ", ") + "]"
  }

  /** The source's `series_to_matlab_array`: `"".join(str(series.to_list()).split(","))`. */
  function SeriesToMatlabArray(vs: seq<nat>): string {
    Join(Split(PythonListRepr(vs), ','), "")
  }

  /** The source's string trick produces exactly the direct Matlab formatting. */
  lemma SeriesToMatlabArrayIsMatlabArray(vs: seq<nat>)
    ensures SeriesToMatlabArray(vs) == MatlabArray(vs)
  {
    var parts := Renderings(vs);
    var joined := Join(parts, ", ");
    JoinSplitRemoves(PythonListRepr(vs), ',');
    RemoveCharConcat("[" + joined, "]", ',');
    RemoveCharConcat("[", joined, ',');
    RemoveCharAbsent("[", ',');
    RemoveCharAbsent("]", ',');
    forall k | 0 <= k < |parts|
      ensures ',' !in parts[k]
    {
      assert AllDigits(parts[k]);
    }
    assert ", " == [','] + " ";
    RemoveCharJoin(parts, ',', " ");
  }

  /** Reads every part as a decimal number; one that is not a number spoils the whole list. */
  function ParseAll(parts: seq<string>): (r: Option<seq<nat>>)
    ensures r.Some? ==> |r.value| == |parts|
    decreases |parts|
  {
    if |parts| == 0 then Some([])
    else match (ParseNat(parts[0]), ParseAll(parts[1..]))
      case (Some(v), Some(vs)) => Some([v] + vs)
      case _ => None
  }

  lemma {:induction false} ParseAllRenderings(vs: seq<nat>)
    ensures ParseAll(Renderings(vs)) == Some(vs)
    decreases |vs|
  {
    if |vs| > 0 {
      assert Renderings(vs)[1..] == Renderings(vs[1..]);
      ParseAllRenderings(vs[1..]);
      NatToStringRoundTrip(vs[0]);
      assert vs == [vs[0]] + vs[1..];
    }
  }

  /** Reads a Matlab row vector back into its values. */
  function ParseMatlabArray(s: string): Option<seq<nat>> {
    if |s| < 2 || s[0] != '[' || s[|s| - 1] != ']' then None
    else if |s| == 2 then Some([])
    else ParseAll(Split(s[1..|s| - 1], ' '))
  }

  /** Splitting the bracketed text on spaces gives back the values, in order. */
  lemma MatlabArrayRoundTrip(vs: seq<nat>)
    ensures ParseMatlabArray(MatlabArray(vs)) == Some(vs)
  {
    var s := MatlabArray(vs);
    var parts := Renderings(vs);
    if |vs| > 0 {
      assert s[1..|s| - 1] == Join(parts, " ");
      forall k | 0 <= k < |parts|
        ensures ' ' !in parts[k]
      {
        assert AllDigits(parts[k]);
      }
      SplitJoin(parts, ' ');
      ParseAllRenderings(vs);
    }
  }

  /** One line of the simulation text, without its newline. */
  function Line(name: string, vs: seq<nat>): string {
    name + "=" + MatlabArray(vs) + LineSuffix
  }

  /** Reads `Name=<array>/popolazione;` into the name and the values. */
  function ParseLine(line: string): Option<(string, seq<nat>)> {
    var eq := IndexOf(line, '=');
    if eq == |line| then None
    else
      var rest := line[eq + 1..];
      if |rest| < |LineSuffix| || rest[|rest| - |LineSuffix|..] != LineSuffix then None
      else match ParseMatlabArray(rest[..|rest| - |LineSuffix|])
        case Some(vs) => Some((line[..eq], vs))
        case None => None
  }

  lemma LineRoundTrip(name: string, vs: seq<nat>)
    requires '=' !in name
    ensures ParseLine(Line(name, vs)) == Some((name, vs))
  {
    var line := Line(name, vs);
    var bracketed := MatlabArray(vs);
    assert line == name + ['='] + (bracketed + LineSuffix);
    IndexOfAfter(name, '=', bracketed + LineSuffix);
    var rest := line[|name| + 1..];
    assert rest == bracketed + LineSuffix;
    assert rest[|rest| - |LineSuffix|..] == LineSuffix;
    assert rest[..|rest| - |LineSuffix|] == bracketed;
    assert line[..|name|] == name;
    MatlabArrayRoundTrip(vs);
  }

  /** One line of the source's output string, `f"{name}={array}/popolazione;\n"`. */
  function SourceLine(name: string, vs: seq<nat>): string {
    name + "=" + SeriesToMatlabArray(vs) + "/popolazione;\n"
  }

  /** The source's output string: the seven columns in a fixed order, each on its own line. */
  function SidartheText(rows: seq<Record>): string
    requires AllHavePositiviColumn(rows)
  {
    SourceLine("CasiTotali", ColumnValues(rows, CasiTotali))
    + (SourceLine("Deceduti", ColumnValues(rows, Deceduti))
    + (SourceLine("Guariti", ColumnValues(rows, Guariti))
    + (SourceLine("Isolamento_domiciliare", ColumnValues(rows, IsolamentoDomiciliare))
    + (SourceLine("Ricoverati_sintomi", ColumnValues(rows, RicoveratiSintomi))
    + (SourceLine("Terapia_intensiva", ColumnValues(rows, TerapiaIntensiva))
    + SourceLine("Positivi", ColumnValues(rows, Positivi)))))))
  }

  /** The lines for the named columns, in the order of `ms`. */
  function LinesFor(rows: seq<Record>, ms: seq<Metric>): (lines: seq<string>)
    requires AllHavePositiviColumn(rows)
    decreases |ms|
  {
    if |ms| == 0 then []
    else [Line(MetricName(ms[0]), ColumnValues(rows, ms[0]))] + LinesFor(rows, ms[1..])
  }

  /** Each named column with its values: what a reader of the text should recover. */
  function ColumnsFor(rows: seq<Record>, ms: seq<Metric>): (cols: seq<(string, seq<nat>)>)
    requires AllHavePositiviColumn(rows)
    ensures |cols| == |ms|
    ensures forall k | 0 <= k < |ms| :: cols[k] == (MetricName(ms[k]), ColumnValues(rows, ms[k]))
    decreases |ms|
  {
    if |ms| == 0 then []
    else [(MetricName(ms[0]), ColumnValues(rows, ms[0]))] + ColumnsFor(rows, ms[1..])
  }

  /** The named columns' lines, each followed by a newline. */
  function TextFor(rows: seq<Record>, ms: seq<Metric>): string
    requires AllHavePositiviColumn(rows)
    decreases |ms|
  {
    if |ms| == 0 then ""
    else Line(MetricName(ms[0]), ColumnValues(rows, ms[0])) + "\n" + TextFor(rows, ms[1..])
  }

  /** A source line is the column's `Line` followed by a newline. */
  lemma SourceLineIsLine(name: string, vs: seq<nat>)
    ensures SourceLine(name, vs) == Line(name, vs) + "\n"
  {
    SeriesToMatlabArrayIsMatlabArray(vs);
  }

  /** The named columns' text starts with the first column's line. */
  lemma TextForCons(rows: seq<Record>, ms: seq<Metric>)
    requires AllHavePositiviColumn(rows)
    requires |ms| > 0
    ensures TextFor(rows, ms) == SourceLine(MetricName(ms[0]), ColumnValues(rows, ms[0])) + TextFor(rows, ms[1..])
  {
    SourceLineIsLine(MetricName(ms[0]), ColumnValues(rows, ms[0]));
  }

  /** Seven columns' text, line by line. */
  lemma TextForSeven(rows: seq<Record>, n: seq<Metric>)
    requires AllHavePositiviColumn(rows)
    requires |n| == 7
    ensures TextFor(rows, n)
      == SourceLine(MetricName(n[0]), ColumnValues(rows, n[0]))
      + (SourceLine(MetricName(n[1]), ColumnValues(rows, n[1]))
      + (SourceLine(MetricName(n[2]), ColumnValues(rows, n[2]))
      + (SourceLine(MetricName(n[3]), ColumnValues(rows, n[3]))
      + (SourceLine(MetricName(n[4]), ColumnValues(rows, n[4]))
      + (SourceLine(MetricName(n[5]), ColumnValues(rows, n[5]))
      + SourceLine(MetricName(n[6]), ColumnValues(rows, n[6])))))))
  {
    var t := n;
    TextForCons(rows, t);
    t := t[1..];
    TextForCons(rows, t);
    t := t[1..];
    TextForCons(rows, t);
    t := t[1..];
    TextForCons(rows, t);
    t := t[1..];
    TextForCons(rows, t);
    t := t[1..];
    TextForCons(rows, t);
    t := t[1..];
    TextForCons(rows, t);
    assert t[1..] == [];
    var last := SourceLine(MetricName(n[6]), ColumnValues(rows, n[6]));
    assert last + "" == last;
  }

  /** The source's hand-written text is the `SidartheColumns` lines, in that order. */
  lemma SidartheTextFollowsColumns(rows: seq<Record>)
    requires AllHavePositiviColumn(rows)
    ensures SidartheText(rows) == TextFor(rows, SidartheMetrics)
  {
    TextForSeven(rows, SidartheMetrics);
  }

  lemma LineHasNoNewline(name: string, vs: seq<nat>)
    requires '\n' !in name
    ensures '\n' !in Line(name, vs)
  {
    var bracketed := MatlabArray(vs);
    assert forall i | 0 <= i < |bracketed| :: bracketed[i] != '\n';
  }

  /** Newline-terminated lines are the lines and one empty tail, joined by newlines. */
  lemma {:induction false} TextForIsJoin(rows: seq<Record>, ms: seq<Metric>)
    requires AllHavePositiviColumn(rows)
    ensures TextFor(rows, ms) == Join(LinesFor(rows, ms) + [""], "\n")
    decreases |ms|
  {
    if |ms| > 0 {
      TextForIsJoin(rows, ms[1..]);
      var line := Line(MetricName(ms[0]), ColumnValues(rows, ms[0]));
      var parts := LinesFor(rows, ms) + [""];
      assert |parts| > 1 && parts[0] == line;
      assert parts[1..] == LinesFor(rows, ms[1..]) + [""];
      assert Join(parts, "\n") == line + "\n" + Join(parts[1..], "\n");
    }
  }

  lemma {:induction false} LinesForHaveNoNewline(rows: seq<Record>, ms: seq<Metric>)
    requires AllHavePositiviColumn(rows)
    ensures var lines := LinesFor(rows, ms);
      |lines| == |ms| && forall k | 0 <= k < |lines| :: '\n' !in lines[k]
    decreases |ms|
  {
    if |ms| > 0 {
      LinesForHaveNoNewline(rows, ms[1..]);
      MetricNamePlain(ms[0]);
      LineHasNoNewline(MetricName(ms[0]), ColumnValues(rows, ms[0]));
    }
  }

  /** Splitting the text on newlines gives the lines and one empty tail. */
  lemma SplitTextFor(rows: seq<Record>, ms: seq<Metric>)
    requires AllHavePositiviColumn(rows)
    ensures Split(TextFor(rows, ms), '\n') == LinesFor(rows, ms) + [""]
  {
    var lines := LinesFor(rows, ms);
    TextForIsJoin(rows, ms);
    LinesForHaveNoNewline(rows, ms);
    assert forall k | 0 <= k < |lines + [""]| :: '\n' !in (lines + [""])[k];
    SplitJoin(lines + [""], '\n');
  }

  /** Reads a whole simulation text: newline-terminated lines, each `Name=<array>/popolazione;`. */
  function ParseSidartheText(text: string): Option<seq<(string, seq<nat>)>> {
    var parts := Split(text, '\n');
    if parts[|parts| - 1] != "" then None
    else ParseLines(parts[..|parts| - 1])
  }

  function ParseLines(lines: seq<string>): (r: Option<seq<(string, seq<nat>)>>)
    ensures r.Some? ==> |r.value| == |lines|
    decreases |lines|
  {
    if |lines| == 0 then Some([])
    else match (ParseLine(lines[0]), ParseLines(lines[1..]))
      case (Some(l), Some(ls)) => Some([l] + ls)
      case _ => None
  }

  lemma {:induction false} ParseLinesFor(rows: seq<Record>, ms: seq<Metric>)
    requires AllHavePositiviColumn(rows)
    ensures ParseLines(LinesFor(rows, ms)) == Some(ColumnsFor(rows, ms))
    decreases |ms|
  {
    if |ms| > 0 {
      var vs := ColumnValues(rows, ms[0]);
      var lines := LinesFor(rows, ms);
      var rest := LinesFor(rows, ms[1..]);
      assert lines == [Line(MetricName(ms[0]), vs)] + rest;
      assert lines[0] == Line(MetricName(ms[0]), vs) && lines[1..] == rest;
      ParseLinesFor(rows, ms[1..]);
      MetricNamePlain(ms[0]);
      LineRoundTrip(MetricName(ms[0]), vs);
      assert ParseLines(lines) == Some([(MetricName(ms[0]), vs)] + ColumnsFor(rows, ms[1..]));
    }
  }

  /**
   * Decoding the simulation text gives back exactly seven lines: the names of
   * `SidartheColumns` in order, each with its whole column of values.
   */
  lemma SidartheTextRoundTrip(rows: seq<Record>)
    requires AllHavePositiviColumn(rows)
    ensures ParseSidartheText(SidartheText(rows)) == Some(ColumnsFor(rows, SidartheMetrics))
  {
    SidartheTextFollowsColumns(rows);
    SplitTextFor(rows, SidartheMetrics);
    var lines := LinesFor(rows, SidartheMetrics);
    assert (lines + [""])[..|lines|] == lines;
    ParseLinesFor(rows, SidartheMetrics);
  }
}
