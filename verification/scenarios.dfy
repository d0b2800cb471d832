/** What the pipeline yields on small concrete tables. */
module Scenarios {

  import opened Results
  import opened Decimal
  import opened Records
  import opened SidartheFormat
  import opened Transform
  import Dates

  /** A table holding one row, as a multiset, is that row. */
  lemma SingletonByMultiset(s: seq<Record>, x: Record)
    requires multiset(s) == multiset{x}
    ensures s == [x]
  {
    assert |s| == |multiset(s)| == 1;
    assert s[0] in multiset(s);
  }

  lemma PadYear2020()
    ensures PadDigits(2020, 4) == "2020"
  {
    Dates.Pow10Widths();
    assert PadDigits(2, 1) == "2";
    assert PadDigits(20, 2) == "20";
    assert PadDigits(202, 3) == "202";
  }

  lemma PadTwo(n: nat)
    requires n < 100
    ensures PadDigits(n, 2) == [DigitChar(n / 10), DigitChar(n % 10)]
  {
    Dates.Pow10Widths();
    assert PadDigits(n / 10, 1) == [DigitChar(n / 10)];
  }

  /** A day of 2020 parses from its ISO text, written digit by digit. */
  lemma Parses2020(month: nat, day: nat, mm: string, dd: string)
    requires Dates.Valid(Dates.Date(2020, month, day))
    requires mm == [DigitChar(month / 10), DigitChar(month % 10)]
    requires dd == [DigitChar(day / 10), DigitChar(day % 10)]
    ensures Dates.Parse("2020-" + mm + "-" + dd) == Some(Dates.Date(2020, month, day))
  {
    PadYear2020();
    PadTwo(month);
    PadTwo(day);
    Dates.ParseIffFormat("2020-" + mm + "-" + dd, Dates.Date(2020, month, day));
  }

  const EarlyRows: seq<RawRecord> := [
    RawRecord("2020-02-20", 1, 0, 0, 1, 0, 0),
    RawRecord("2020-02-25", 2, 0, 0, 2, 0, 0),
    RawRecord("2020-03-01", 5, 0, 1, 2, 1, 1)]

  /** Three rows whose dates all parse become the three parsed records. */
  lemma ThreeRowsParse(x: RawRecord, y: RawRecord, z: RawRecord, dx: Dates.Date, dy: Dates.Date, dz: Dates.Date)
    requires Dates.Parse(x.date) == Some(dx) && Dates.Parse(y.date) == Some(dy) && Dates.Parse(z.date) == Some(dz)
    ensures DateColumnAsDate([x, y, z]) == Success([Parsed(x, dx), Parsed(y, dy), Parsed(z, dz)])
  {
    var r := DateColumnAsDate([x, y, z]);
    assert DateParses(x) && DateParses(y) && DateParses(z);
    assert r.Success?;
    assert |r.value| == 3;
    assert r.value == [r.value[0], r.value[1], r.value[2]];
  }

  lemma EarlyRowsParse()
    ensures DateColumnAsDate(EarlyRows) == Success([
      Record(Dates.Date(2020, 2, 20), 1, 0, 0, 1, 0, 0, None),
      Record(Dates.Date(2020, 2, 25), 2, 0, 0, 2, 0, 0, None),
      Record(Dates.Date(2020, 3, 1), 5, 0, 1, 2, 1, 1, None)])
  {
    Parses2020(2, 20, "02", "20");
    assert "2020-" + "02" + "-" + "20" == "2020-02-20";
    Parses2020(2, 25, "02", "25");
    assert "2020-" + "02" + "-" + "25" == "2020-02-25";
    Parses2020(3, 1, "03", "01");
    assert "2020-" + "03" + "-" + "01" == "2020-03-01";
    ThreeRowsParse(EarlyRows[0], EarlyRows[1], EarlyRows[2],
      Dates.Date(2020, 2, 20), Dates.Date(2020, 2, 25), Dates.Date(2020, 3, 1));
    assert EarlyRows == [EarlyRows[0], EarlyRows[1], EarlyRows[2]];
  }

  lemma EarlyRowsKept()
    ensures RemoveInvalidDates([
      Record(Dates.Date(2020, 2, 20), 1, 0, 0, 1, 0, 0, None),
      Record(Dates.Date(2020, 2, 25), 2, 0, 0, 2, 0, 0, None),
      Record(Dates.Date(2020, 3, 1), 5, 0, 1, 2, 1, 1, None)])
      == [Record(Dates.Date(2020, 3, 1), 5, 0, 1, 2, 1, 1, None)]
  {
    var p1 := Record(Dates.Date(2020, 2, 20), 1, 0, 0, 1, 0, 0, None);
    var p2 := Record(Dates.Date(2020, 2, 25), 2, 0, 0, 2, 0, 0, None);
    var p3 := Record(Dates.Date(2020, 3, 1), 5, 0, 1, 2, 1, 1, None);
    var valid := RemoveInvalidDates([p1, p2, p3]);
    assert multiset(valid) == multiset{p3} by {
      assert forall x :: multiset(valid)[x] == multiset{p3}[x];
    }
    SingletonByMultiset(valid, p3);
  }

  lemma ExecuteTable(raw: seq<RawRecord>, parsed: seq<Record>, initial: Option<Dates.Date>, final: Option<Dates.Date>)
    requires DateColumnAsDate(raw) == Success(parsed)
    ensures Execute(raw, initial, final).Success?
    ensures Execute(raw, initial, final).value.table == Table(parsed, initial, final)
  {
  }

  lemma EarlyTable()
    ensures Table([
      Record(Dates.Date(2020, 2, 20), 1, 0, 0, 1, 0, 0, None),
      Record(Dates.Date(2020, 2, 25), 2, 0, 0, 2, 0, 0, None),
      Record(Dates.Date(2020, 3, 1), 5, 0, 1, 2, 1, 1, None)], None, None)
      == [Record(Dates.Date(2020, 3, 1), 5, 0, 1, 2, 1, 1, Some(4))]
  {
    EarlyRowsKept();
    var p3 := Record(Dates.Date(2020, 3, 1), 5, 0, 1, 2, 1, 1, None);
    var sorted := OrderByDate([p3]);
    SingletonByMultiset(sorted, p3);
    var derived := AddSidarthePositivi(sorted);
    assert HasPositivi(derived[0]) && SameObservation(derived[0], p3);
  }

  lemma PositiviLine()
    ensures Line(MetricName(Positivi), ColumnValues([Record(Dates.Date(2020, 3, 1), 5, 0, 1, 2, 1, 1, Some(4))], Positivi))
      == "Positivi=[4]/popolazione;"
  {
    var row := Record(Dates.Date(2020, 3, 1), 5, 0, 1, 2, 1, 1, Some(4));
    assert ColumnValues([row], Positivi) == [4];
    assert NatToString(4) == "4";
    assert Renderings([4]) == ["4"];
    assert MatlabArray([4]) == "[4]";
  }

  /**
   * Two rows from before the first case and one from 1 March 2020: only the
   * last survives, with Positivi 2 + 1 + 1 = 4, and the simulation's Positivi
   * line reads `Positivi=[4]/popolazione;`.
   */
  lemma PreEpidemicRowsDropped()
    ensures var r := Execute(EarlyRows, None, None);
      && r.Success?
      && r.value.table == [Record(Dates.Date(2020, 3, 1), 5, 0, 1, 2, 1, 1, Some(4))]
      && Line(MetricName(Positivi), ColumnValues(r.value.table, Positivi)) == "Positivi=[4]/popolazione;"
  {
    EarlyRowsParse();
    ExecuteTable(EarlyRows, [
      Record(Dates.Date(2020, 2, 20), 1, 0, 0, 1, 0, 0, None),
      Record(Dates.Date(2020, 2, 25), 2, 0, 0, 2, 0, 0, None),
      Record(Dates.Date(2020, 3, 1), 5, 0, 1, 2, 1, 1, None)], None, None);
    EarlyTable();
    PositiviLine();
  }

  /** 30 February does not exist, so that text is not a date. */
  lemma ThirtiethOfFebruaryRejected()
    ensures Dates.Parse("2020-02-30") == None
  {
    var s := "2020-02-30";
    assert Dates.MatchesIsoFormat(s);
    assert s[5..7] == "02" && s[8..] == "30";
    assert DecimalValue("02") == 2;
    assert DecimalValue("30") == 30;
    assert Dates.DaysInMonth(DecimalValue(s[..4]), 2) < 30;
  }

  /** April has thirty days, so its thirty-first is refused. */
  lemma ThirtyFirstOfAprilRejected()
    ensures Dates.Parse("2021-04-31") == None
  {
    var s := "2021-04-31";
    assert Dates.MatchesIsoFormat(s);
    assert s[5..7] == "04" && s[8..] == "31";
    assert DecimalValue("04") == 4;
    assert DecimalValue("31") == 31;
    assert Dates.DaysInMonth(DecimalValue(s[..4]), 4) == 30;
  }

  /** The pipeline stops at the first row whose date does not parse and names it. */
  lemma BadDateReported()
    ensures Execute([RawRecord("2020-03-01", 5, 0, 1, 2, 1, 1), RawRecord("2020-02-30", 6, 0, 1, 3, 1, 1)], None, None)
      == Failure(ParseError("2020-02-30", 1))
  {
    var raw := [RawRecord("2020-03-01", 5, 0, 1, 2, 1, 1), RawRecord("2020-02-30", 6, 0, 1, 3, 1, 1)];
    Parses2020(3, 1, "03", "01");
    assert "2020-" + "03" + "-" + "01" == "2020-03-01";
    ThirtiethOfFebruaryRejected();
    assert raw[0].date == "2020-03-01" && raw[1].date == "2020-02-30";
    assert raw[..1] == [raw[0]];
  }

  /** Of three rows, the range filter keeps exactly the one inside the bounds. */
  lemma KeepsOnlyMiddle(a: Record, b: Record, c: Record, initial: Option<Dates.Date>, final: Option<Dates.Date>)
    requires !WithinBounds(initial, final, a) && WithinBounds(initial, final, b) && !WithinBounds(initial, final, c)
    ensures FilterByDate([a, b, c], initial, final) == [b]
  {
    var r := FilterByDate([a, b, c], initial, final);
    forall x ensures multiset(r)[x] == multiset{b}[x] {
      if x == b {
        assert multiset([a, b, c])[b] == 1;
      }
    }
    assert multiset(r) == multiset{b};
    SingletonByMultiset(r, b);
  }

  /** The window 3 April to 19 May 2020 used by the simulation run keeps only the rows inside it. */
  lemma SimulationWindowKeepsInside()
    ensures FilterByDate([
      Record(Dates.Date(2020, 4, 2), 1, 0, 0, 1, 0, 0, Some(1)),
      Record(Dates.Date(2020, 4, 10), 2, 0, 0, 2, 0, 0, Some(2)),
      Record(Dates.Date(2020, 5, 20), 3, 0, 0, 3, 0, 0, Some(3))],
      Some(Dates.Date(2020, 4, 3)), Some(Dates.Date(2020, 5, 19)))
      == [Record(Dates.Date(2020, 4, 10), 2, 0, 0, 2, 0, 0, Some(2))]
  {
    var a := Record(Dates.Date(2020, 4, 2), 1, 0, 0, 1, 0, 0, Some(1));
    var b := Record(Dates.Date(2020, 4, 10), 2, 0, 0, 2, 0, 0, Some(2));
    var c := Record(Dates.Date(2020, 5, 20), 3, 0, 0, 3, 0, 0, Some(3));
    KeepsOnlyMiddle(a, b, c, Some(Dates.Date(2020, 4, 3)), Some(Dates.Date(2020, 5, 19)));
  }
}
