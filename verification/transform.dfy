/**
 * The transformation pipeline: parse the dates, drop the pre-epidemic rows,
 * sort by date, derive Positivi, keep an optional date window, and produce the
 * simulation text, in that order.
 */
module Transform {

  import opened Results
  import opened Seqs
  import opened Constants
  import opened Records
  import opened SidartheFormat
  import Dates

  /** A date that does not match `%Y-%m-%d`, and the row it stands in. */
  datatype ParseError = ParseError(text: string, position: nat)

  /** A loaded row with its date parsed; Positivi is not derived yet. */
  function Parsed(raw: RawRecord, d: Dates.Date): Record {
    Record(d, raw.casiTotali, raw.deceduti, raw.guariti,
      raw.isolamentoDomiciliare, raw.ricoveratiSintomi, raw.terapiaIntensiva, None)
  }

  predicate DateParses(raw: RawRecord) {
    Dates.Parse(raw.date).Some?
  }

  // ---------------------------------------------------------------------------
  // Parse dates
  // ---------------------------------------------------------------------------

  /**
   * Parses every row's date with the fixed `%Y-%m-%d` format. A single date that
   * does not parse fails the whole table, reporting the first such row; nothing
   * is dropped or left empty.
   */
  function DateColumnAsDate(rows: seq<RawRecord>): (r: Result<seq<Record>, ParseError>)
    ensures r.Success? <==> forall i | 0 <= i < |rows| :: DateParses(rows[i])
    ensures r.Success? ==>
      && |r.value| == |rows|
      && forall i | 0 <= i < |rows| ::
        DateParses(rows[i]) && r.value[i] == Parsed(rows[i], Dates.Parse(rows[i].date).value)
    ensures r.Failure? ==>
      && r.error.position < |rows|
      && r.error.text == rows[r.error.position].date
      && !DateParses(rows[r.error.position])
      && forall i | 0 <= i < r.error.position :: DateParses(rows[i])
    decreases |rows|
  {
    if |rows| == 0 then Success([])
    else
      var last := rows[|rows| - 1];
      match DateColumnAsDate(rows[..|rows| - 1])
      case Failure(e) => Failure(e)
      case Success(init) =>
        match Dates.Parse(last.date)
        case None => Failure(ParseError(last.date, |rows| - 1))
        case Some(d) => Success(init + [Parsed(last, d)])
  }

  // ---------------------------------------------------------------------------
  // Remove invalid dates
  // ---------------------------------------------------------------------------

  /** The row is dated on or after the first confirmed case. */
  predicate OnOrAfterFirstCase(r: Record) {
    Dates.LessEq(CovidFirstCaseDate, r.date)
  }

  /**
   * Drops the rows dated before 2020-02-26. The kept rows are exactly those on or
   * after it, each as many times as in the input, unchanged and in their original order.
   */
  function RemoveInvalidDates(rows: seq<Record>): (r: seq<Record>)
    ensures IsSubseq(r, rows)
    ensures forall x {:trigger multiset(r)[x]} ::
      multiset(r)[x] == if OnOrAfterFirstCase(x) then multiset(rows)[x] else 0
    ensures forall i | 0 <= i < |r| :: OnOrAfterFirstCase(r[i])
  {
    Filter(OnOrAfterFirstCase, rows)
  }

  // ---------------------------------------------------------------------------
  // Order by date
  // ---------------------------------------------------------------------------

  predicate SortedByDate(rows: seq<Record>) {
    forall i, j | 0 <= i < j < |rows| :: Dates.LessEq(rows[i].date, rows[j].date)
  }

  /** A row no later than any row of a sorted table can head it. */
  lemma SortedCons(h: Record, rest: seq<Record>)
    requires SortedByDate(rest)
    requires forall k | 0 <= k < |rest| :: Dates.LessEq(h.date, rest[k].date)
    ensures SortedByDate([h] + rest)
  {
    var s := [h] + rest;
    forall i, j | 0 <= i < j < |s|
      ensures Dates.LessEq(s[i].date, s[j].date)
    {
      assert s[j] == rest[j - 1];
      if i > 0 {
        assert s[i] == rest[i - 1];
      }
    }
  }

  /** The head of a sorted table is no later than `x`, nor than any other row, so it stays first. */
  lemma HeadPrecedesInsert(h: Record, x: Record, tail: seq<Record>, rest: seq<Record>)
    requires SortedByDate([h] + tail)
    requires Dates.LessEq(h.date, x.date)
    requires multiset(rest) == multiset(tail) + multiset{x}
    ensures forall k | 0 <= k < |rest| :: Dates.LessEq(h.date, rest[k].date)
  {
    forall k | 0 <= k < |rest|
      ensures Dates.LessEq(h.date, rest[k].date)
    {
      assert rest[k] in multiset(rest);
      if rest[k] != x {
        assert rest[k] in multiset(tail);
        var m :| 0 <= m < |tail| && tail[m] == rest[k];
        assert ([h] + tail)[0] == h && ([h] + tail)[m + 1] == rest[k];
      }
    }
  }

  function InsertByDate(x: Record, rows: seq<Record>): (r: seq<Record>)
    requires SortedByDate(rows)
    ensures SortedByDate(r)
    ensures multiset(r) == multiset(rows) + multiset{x}
    decreases |rows|
  {
    if |rows| == 0 then [x]
    else if Dates.LessEq(x.date, rows[0].date) then
      SortedCons(x, rows);
      [x] + rows
    else
      assert rows == [rows[0]] + rows[1..];
      var rest := InsertByDate(x, rows[1..]);
      Dates.LessEqTotal(x.date, rows[0].date);
      HeadPrecedesInsert(rows[0], x, rows[1..], rest);
      SortedCons(rows[0], rest);
      [rows[0]] + rest
  }

  /**
   * `sort_values(by=date)`: a permutation of the rows, non-decreasing by date.
   * Rows sharing a date may come out in any order; nothing here fixes which.
   */
  function OrderByDate(rows: seq<Record>): (r: seq<Record>)
    ensures SortedByDate(r)
    ensures multiset(r) == multiset(rows)
    decreases |rows|
  {
    if |rows| == 0 then []
    else
      assert rows == [rows[0]] + rows[1..];
      InsertByDate(rows[0], OrderByDate(rows[1..]))
  }

  /** The date column of a table. */
  function DateColumn(rows: seq<Record>): (ds: seq<Dates.Date>)
    ensures |ds| == |rows|
    ensures forall i | 0 <= i < |rows| :: ds[i] == rows[i].date
    decreases |rows|
  {
    if |rows| == 0 then [] else [rows[0].date] + DateColumn(rows[1..])
  }

  /** Taking out a matching row from each of two equal multisets of rows leaves equal multisets. */
  lemma RemoveMatching(a: seq<Record>, b: seq<Record>, j: nat)
    requires multiset(a) == multiset(b) && |a| > 0 && j < |b| && b[j] == a[0]
    ensures multiset(a[1..]) == multiset(b[..j] + b[j + 1..])
  {
    var x := a[0];
    assert b == b[..j] + [x] + b[j + 1..];
    assert a == [x] + a[1..];
    assert multiset(b) == multiset(b[..j]) + multiset{x} + multiset(b[j + 1..]);
    assert multiset(b[..j] + b[j + 1..]) == multiset(b[..j]) + multiset(b[j + 1..]);
    assert multiset(a) == multiset{x} + multiset(a[1..]);
    forall y
      ensures multiset(b[..j] + b[j + 1..])[y] == multiset(a[1..])[y]
    {
      assert multiset(b)[y] == multiset(b[..j])[y] + multiset{x}[y] + multiset(b[j + 1..])[y];
      assert multiset(a)[y] == multiset{x}[y] + multiset(a[1..])[y];
    }
  }

  /** Dropping row `j` drops the `j`-th date. */
  lemma DateColumnWithout(b: seq<Record>, j: nat)
    requires j < |b|
    ensures DateColumn(b[..j] + b[j + 1..]) == DateColumn(b)[..j] + DateColumn(b)[j + 1..]
  {
    var ds, es := DateColumn(b), DateColumn(b[..j] + b[j + 1..]);
    assert |es| == |ds[..j] + ds[j + 1..]|;
    forall i | 0 <= i < |es|
      ensures es[i] == (ds[..j] + ds[j + 1..])[i]
    {
      if i < j {
        assert es[i] == b[i].date;
      } else {
        assert es[i] == b[i + 1].date;
      }
    }
  }

  /** The dates of a table are the dates without row `j`, plus row `j`'s date. */
  lemma DatesAround(b: seq<Record>, j: nat)
    requires j < |b|
    ensures multiset(DateColumn(b)) == multiset(DateColumn(b[..j] + b[j + 1..])) + multiset{b[j].date}
  {
    DateColumnWithout(b, j);
    MultisetWithout(DateColumn(b), j);
  }

  /** Tables holding the same rows hold the same dates, as often. */
  lemma {:induction false} PermutationKeepsDates(a: seq<Record>, b: seq<Record>)
    requires multiset(a) == multiset(b)
    ensures multiset(DateColumn(a)) == multiset(DateColumn(b))
    decreases |a|
  {
    if |a| == 0 {
      assert |b| == |multiset(b)| == 0;
    } else {
      assert a[0] in multiset(b);
      var j :| 0 <= j < |b| && b[j] == a[0];
      RemoveMatching(a, b, j);
      PermutationKeepsDates(a[1..], b[..j] + b[j + 1..]);
      DatesAround(b, j);
      assert DateColumn(a) == [a[0].date] + DateColumn(a[1..]);
    }
  }

  predicate SortedDates(ds: seq<Dates.Date>) {
    forall i, j | 0 <= i < j < |ds| :: Dates.LessEq(ds[i], ds[j])
  }

  /** Two non-decreasing date sequences with the same dates start with the same date. */
  lemma SortedDatesSameHead(s: seq<Dates.Date>, t: seq<Dates.Date>)
    requires SortedDates(s) && SortedDates(t)
    requires multiset(s) == multiset(t) && |s| > 0
    ensures |t| > 0 && s[0] == t[0]
  {
    assert |t| == |multiset(t)| == |s|;
    assert s[0] in multiset(t) && t[0] in multiset(s);
    var i :| 0 <= i < |t| && t[i] == s[0];
    var j :| 0 <= j < |s| && s[j] == t[0];
    assert Dates.LessEq(t[0], s[0]);
    assert Dates.LessEq(s[0], t[0]);
    Dates.LessEqAntisymmetric(s[0], t[0]);
  }

  /** Removing the same first element from two equal multisets of dates leaves equal multisets. */
  lemma SameTails(s: seq<Dates.Date>, t: seq<Dates.Date>)
    requires |s| > 0 && |t| > 0 && s[0] == t[0]
    requires multiset(s) == multiset(t)
    ensures multiset(s[1..]) == multiset(t[1..])
  {
    assert s == [s[0]] + s[1..] && t == [t[0]] + t[1..];
    assert multiset(s) == multiset{s[0]} + multiset(s[1..]);
    assert multiset(t) == multiset{t[0]} + multiset(t[1..]);
    forall y
      ensures multiset(s[1..])[y] == multiset(t[1..])[y]
    {
      assert multiset(s)[y] == multiset{s[0]}[y] + multiset(s[1..])[y];
      assert multiset(t)[y] == multiset{t[0]}[y] + multiset(t[1..])[y];
    }
  }

  /** Two non-decreasing date sequences with the same dates are the same sequence. */
  lemma {:induction false} SortedDatesUnique(s: seq<Dates.Date>, t: seq<Dates.Date>)
    requires SortedDates(s) && SortedDates(t)
    requires multiset(s) == multiset(t)
    ensures s == t
    decreases |s|
  {
    if |s| == 0 {
      assert |t| == |multiset(t)| == 0;
    } else {
      SortedDatesSameHead(s, t);
      SameTails(s, t);
      assert SortedDates(s[1..]) && SortedDates(t[1..]);
      SortedDatesUnique(s[1..], t[1..]);
      assert s == [s[0]] + s[1..] && t == [t[0]] + t[1..];
    }
  }

  /**
   * However ties are broken, every sorted arrangement of the same rows has the
   * same date column: sorting already sorted rows leaves the dates as they were.
   */
  lemma SortedPermutationsShareDates(a: seq<Record>, b: seq<Record>)
    requires SortedByDate(a) && SortedByDate(b)
    requires multiset(a) == multiset(b)
    ensures DateColumn(a) == DateColumn(b)
  {
    PermutationKeepsDates(a, b);
    SortedDatesUnique(DateColumn(a), DateColumn(b));
  }

  /** Re-sorting the sorted table changes nothing in its date column. */
  lemma OrderByDateSettled(rows: seq<Record>)
    ensures DateColumn(OrderByDate(OrderByDate(rows))) == DateColumn(OrderByDate(rows))
  {
    SortedPermutationsShareDates(OrderByDate(OrderByDate(rows)), OrderByDate(rows));
  }

  // ---------------------------------------------------------------------------
  // Add the Positivi column
  // ---------------------------------------------------------------------------

  /** The two rows agree on the date and the six loaded counts. */
  predicate SameObservation(a: Record, b: Record) {
    && a.date == b.date
    && a.casiTotali == b.casiTotali
    && a.deceduti == b.deceduti
    && a.guariti == b.guariti
    && a.isolamentoDomiciliare == b.isolamentoDomiciliare
    && a.ricoveratiSintomi == b.ricoveratiSintomi
    && a.terapiaIntensiva == b.terapiaIntensiva
  }

  function WithPositivi(r: Record): Record {
    r.(positivi := Some(CurrentlyPositive(r)))
  }

  /**
   * Sets every row's Positivi to Isolamento_domiciliare + Ricoverati_sintomi +
   * Terapia_intensiva, overwriting any value it had; rows keep their number,
   * their order and everything else.
   */
  function AddSidarthePositivi(rows: seq<Record>): (r: seq<Record>)
    ensures |r| == |rows|
    ensures forall i | 0 <= i < |rows| :: HasPositivi(r[i]) && SameObservation(r[i], rows[i])
  {
    seq(|rows|, i requires 0 <= i < |rows| => WithPositivi(rows[i]))
  }

  /** Recomputing Positivi on a table where it already holds gives back the table. */
  lemma AddSidarthePositiviFixesDerived(rows: seq<Record>)
    requires forall i | 0 <= i < |rows| :: HasPositivi(rows[i])
    ensures AddSidarthePositivi(rows) == rows
  {
    var r := AddSidarthePositivi(rows);
    forall i | 0 <= i < |rows|
      ensures r[i] == rows[i]
    {
      assert HasPositivi(r[i]) && SameObservation(r[i], rows[i]);
    }
  }

  /** Deriving Positivi twice is deriving it once. */
  lemma AddSidarthePositiviIdempotent(rows: seq<Record>)
    ensures AddSidarthePositivi(AddSidarthePositivi(rows)) == AddSidarthePositivi(rows)
  {
    AddSidarthePositiviFixesDerived(AddSidarthePositivi(rows));
  }

  // ---------------------------------------------------------------------------
  // Filter by date
  // ---------------------------------------------------------------------------

  /** The row's date lies in the inclusive window [initial, final]. */
  predicate InWindow(initial: Dates.Date, final: Dates.Date, r: Record) {
    Dates.LessEq(initial, r.date) && Dates.LessEq(r.date, final)
  }

  /** The range filter keeps the row: a bound is missing, or the row lies in the window. */
  predicate WithinBounds(initial: Option<Dates.Date>, final: Option<Dates.Date>, r: Record) {
    initial.None? || final.None? || InWindow(initial.value, final.value, r)
  }

  /**
   * Keeps the rows inside [initial, final], both ends included, when both bounds
   * are given; with either bound missing the table is returned as it is.
   */
  function FilterByDate(rows: seq<Record>, initial: Option<Dates.Date>, final: Option<Dates.Date>)
    : (r: seq<Record>)
    ensures initial.None? || final.None? ==> r == rows
    ensures IsSubseq(r, rows)
    ensures forall x {:trigger multiset(r)[x]} ::
      multiset(r)[x] == if WithinBounds(initial, final, x) then multiset(rows)[x] else 0
    ensures initial.Some? && final.Some? ==>
      forall i | 0 <= i < |r| :: InWindow(initial.value, final.value, r[i])
  {
    if initial.None? || final.None? then
      SubseqRefl(rows);
      rows
    else
      var inWindow := (x: Record) => InWindow(initial.value, final.value, x);
      var r := Filter(inWindow, rows);
      assert forall i | 0 <= i < |r| :: r[i] in r && inWindow(r[i]);
      r
  }

  lemma {:induction false} SubseqRefl(s: seq<Record>)
    ensures IsSubseq(s, s)
    decreases |s|
  {
    if |s| > 0 {
      SubseqRefl(s[1..]);
    }
  }

  /** Filtering by the same bounds a second time changes nothing. */
  lemma FilterByDateIdempotent(rows: seq<Record>, initial: Option<Dates.Date>, final: Option<Dates.Date>)
    ensures FilterByDate(FilterByDate(rows, initial, final), initial, final) == FilterByDate(rows, initial, final)
  {
    if initial.Some? && final.Some? {
      FilterIdempotent((x: Record) => InWindow(initial.value, final.value, x), rows);
    }
  }

  /** A window that ends before it starts keeps nothing. */
  lemma FilterByDateEmptyWindow(rows: seq<Record>, initial: Dates.Date, final: Dates.Date)
    requires !Dates.LessEq(initial, final)
    ensures FilterByDate(rows, Some(initial), Some(final)) == []
  {
    var r := FilterByDate(rows, Some(initial), Some(final));
    if |r| > 0 {
      assert InWindow(initial, final, r[0]);
      Dates.LessEqTransitive(initial, r[0].date, final);
    }
  }

  /** Deleting rows from a sorted table leaves it sorted. */
  lemma {:induction false} SubseqOfSortedIsSorted(a: seq<Record>, b: seq<Record>)
    requires IsSubseq(a, b) && SortedByDate(b)
    ensures SortedByDate(a)
    decreases |b|
  {
    if |b| > 0 {
      assert SortedByDate(b[1..]);
      if |a| > 0 && a[0] == b[0] && IsSubseq(a[1..], b[1..]) {
        SubseqOfSortedIsSorted(a[1..], b[1..]);
        SubseqMembers(a[1..], b[1..]);
        forall j | 0 < j < |a|
          ensures Dates.LessEq(a[0].date, a[j].date)
        {
          assert a[j] == a[1..][j - 1];
          assert a[j] in b[1..];
        }
        forall i, j | 0 <= i < j < |a|
          ensures Dates.LessEq(a[i].date, a[j].date)
        {
          if i > 0 {
            assert a[i] == a[1..][i - 1] && a[j] == a[1..][j - 1];
          }
        }
      } else {
        SubseqOfSortedIsSorted(a, b[1..]);
      }
    }
  }

  // ---------------------------------------------------------------------------
  // The whole run
  // ---------------------------------------------------------------------------

  /** What a run produces: the final table and the simulation text with the path it is written to. */
  datatype Output = Output(table: seq<Record>, sidarthePath: string, sidartheText: string)

  /** A loaded row with a parseable date survives the pipeline: it is on or after the first case and within the bounds. */
  predicate Kept(raw: RawRecord, initial: Option<Dates.Date>, final: Option<Dates.Date>)
    requires DateParses(raw)
  {
    var p := Parsed(raw, Dates.Parse(raw.date).value);
    OnOrAfterFirstCase(p) && WithinBounds(initial, final, p)
  }

  /** The row a surviving loaded row becomes. */
  function Derived(raw: RawRecord): Record
    requires DateParses(raw)
  {
    WithPositivi(Parsed(raw, Dates.Parse(raw.date).value))
  }

  /** The stages of `execute`, applied in order to the loaded rows. */
  function Execute(raw: seq<RawRecord>, initial: Option<Dates.Date>, final: Option<Dates.Date>)
    : (r: Result<Output, ParseError>)
    ensures r.Success? <==> forall i | 0 <= i < |raw| :: DateParses(raw[i])
    ensures r.Failure? ==>
      && r.error.position < |raw|
      && r.error.text == raw[r.error.position].date
      && !DateParses(raw[r.error.position])
      && forall i | 0 <= i < r.error.position :: DateParses(raw[i])
    ensures r.Success? ==>
      var t := r.value.table;
      && (forall i | 0 <= i < |t| :: OnOrAfterFirstCase(t[i]))
      && SortedByDate(t)
      && (forall i | 0 <= i < |t| :: HasPositivi(t[i]))
      && (initial.Some? && final.Some? ==>
            forall i | 0 <= i < |t| :: InWindow(initial.value, final.value, t[i]))
      && (forall x :: x in t <==>
            exists i | 0 <= i < |raw| :: DateParses(raw[i]) && Kept(raw[i], initial, final) && x == Derived(raw[i]))
      && r.value.sidarthePath == SidartheOutPath
      && (AllPositiviHaveColumn(t); r.value.sidartheText == SidartheText(t))
  {
    match DateColumnAsDate(raw)
    case Failure(e) => Failure(e)
    case Success(parsed) =>
      var table := Table(parsed, initial, final);
      assert ParsedFrom(raw, parsed);
      TableFacts(raw, parsed, initial, final);
      AllPositiviHaveColumn(table);
      Success(Output(table, SidartheOutPath, SidartheText(table)))
  }

  /** What the final table built from the parsed loaded rows promises. */
  lemma TableFacts(raw: seq<RawRecord>, parsed: seq<Record>, initial: Option<Dates.Date>, final: Option<Dates.Date>)
    requires ParsedFrom(raw, parsed)
    ensures var t := Table(parsed, initial, final);
      && (forall i | 0 <= i < |t| :: OnOrAfterFirstCase(t[i]))
      && SortedByDate(t)
      && (forall i | 0 <= i < |t| :: HasPositivi(t[i]))
      && (initial.Some? && final.Some? ==>
            forall i | 0 <= i < |t| :: InWindow(initial.value, final.value, t[i]))
      && (forall x :: x in t <==>
            exists i | 0 <= i < |raw| :: DateParses(raw[i]) && Kept(raw[i], initial, final) && x == Derived(raw[i]))
  {
    TableInvariants(parsed, initial, final);
    forall x
      ensures x in Table(parsed, initial, final) <==>
        exists i | 0 <= i < |raw| :: DateParses(raw[i]) && Kept(raw[i], initial, final) && x == Derived(raw[i])
    {
      TableFromRaw(raw, parsed, initial, final, x);
    }
  }

  /** The derived table is the first row with Positivi added, then the derived rest. */
  lemma AddSidarthePositiviCons(rows: seq<Record>)
    requires |rows| > 0
    ensures AddSidarthePositivi(rows)[0] == WithPositivi(rows[0])
    ensures AddSidarthePositivi(rows)[1..] == AddSidarthePositivi(rows[1..])
  {
    var r, r' := AddSidarthePositivi(rows), AddSidarthePositivi(rows[1..]);
    assert HasPositivi(r[0]) && SameObservation(r[0], rows[0]);
    forall i | 0 <= i < |r'|
      ensures r[1..][i] == r'[i]
    {
      assert HasPositivi(r[i + 1]) && SameObservation(r[i + 1], rows[i + 1]);
      assert HasPositivi(r'[i]) && SameObservation(r'[i], rows[1..][i]);
    }
  }

  /** Rows that carry no Positivi yet are told apart by their derived rows. */
  lemma WithPositiviInjective(a: Record, b: Record)
    requires a.positivi.None? && b.positivi.None?
    ensures WithPositivi(a) == WithPositivi(b) <==> a == b
  {
    if WithPositivi(a) == WithPositivi(b) {
      assert WithPositivi(a).(positivi := None) == a;
      assert WithPositivi(b).(positivi := None) == b;
    }
  }

  /** The first element contributes one occurrence of itself; the rest contribute the others. */
  lemma HeadCount(s: seq<Record>, y: Record)
    requires |s| > 0
    ensures multiset(s)[y] == (if s[0] == y then 1 else 0) + multiset(s[1..])[y]
  {
    assert s == [s[0]] + s[1..];
    assert multiset(s) == multiset{s[0]} + multiset(s[1..]);
  }

  /**
   * Adding Positivi to rows that do not carry it yet maps each row to one
   * derived row: a derived row occurs as often as the row it came from.
   */
  lemma {:induction false} DerivedCounts(rows: seq<Record>, p: Record)
    requires forall i | 0 <= i < |rows| :: rows[i].positivi.None?
    requires p.positivi.None?
    ensures multiset(AddSidarthePositivi(rows))[WithPositivi(p)] == multiset(rows)[p]
    decreases |rows|
  {
    if |rows| > 0 {
      var tail := rows[1..];
      assert forall i | 0 <= i < |tail| :: tail[i].positivi.None? by {
        forall i | 0 <= i < |tail| ensures tail[i].positivi.None? {
          assert tail[i] == rows[i + 1];
        }
      }
      DerivedCounts(tail, p);
      AddSidarthePositiviCons(rows);
      HeadCount(AddSidarthePositivi(rows), WithPositivi(p));
      HeadCount(rows, p);
      WithPositiviInjective(rows[0], p);
    }
  }

  /** The rows of a table taken from the parsed rows carry no Positivi yet. */
  lemma NoPositiviInParsed(parsed: seq<Record>, rows: seq<Record>)
    requires forall i | 0 <= i < |parsed| :: parsed[i].positivi.None?
    requires forall x :: x in rows ==> x in parsed
    ensures forall i | 0 <= i < |rows| :: rows[i].positivi.None?
  {
    forall i | 0 <= i < |rows|
      ensures rows[i].positivi.None?
    {
      assert rows[i] in rows;
      var j :| 0 <= j < |parsed| && parsed[j] == rows[i];
    }
  }

  /**
   * Each parsed row on or after the first case and inside the window gives its
   * derived row exactly as often as the row was loaded; any other gives none.
   */
  lemma TableCounts(parsed: seq<Record>, initial: Option<Dates.Date>, final: Option<Dates.Date>, p: Record)
    requires forall i | 0 <= i < |parsed| :: parsed[i].positivi.None?
    requires p in parsed
    ensures multiset(Table(parsed, initial, final))[WithPositivi(p)]
      == if OnOrAfterFirstCase(p) && WithinBounds(initial, final, p) then multiset(parsed)[p] else 0
  {
    var valid := RemoveInvalidDates(parsed);
    var sorted := OrderByDate(valid);
    var derived := AddSidarthePositivi(sorted);
    var t := FilterByDate(derived, initial, final);
    assert t == Table(parsed, initial, final);
    forall x | x in sorted
      ensures x in parsed
    {
      assert x in multiset(sorted);
      assert x in multiset(valid);
    }
    var i :| 0 <= i < |parsed| && parsed[i] == p;
    NoPositiviInParsed(parsed, sorted);
    DerivedCounts(sorted, p);
    assert multiset(sorted)[p] == multiset(valid)[p];
    assert WithinBounds(initial, final, WithPositivi(p)) == WithinBounds(initial, final, p);
  }

  /**
   * A successful run's table holds each loaded row that passes the threshold and
   * the window, with Positivi added, exactly as often as the row was loaded, and
   * no derived row of any other.
   */
  lemma ExecuteCounts(raw: seq<RawRecord>, parsed: seq<Record>, initial: Option<Dates.Date>, final: Option<Dates.Date>)
    requires DateColumnAsDate(raw) == Success(parsed)
    ensures Execute(raw, initial, final).Success?
    ensures forall p | p in parsed ::
      multiset(Execute(raw, initial, final).value.table)[WithPositivi(p)]
        == if OnOrAfterFirstCase(p) && WithinBounds(initial, final, p) then multiset(parsed)[p] else 0
  {
    assert Execute(raw, initial, final).value.table == Table(parsed, initial, final);
    forall p | p in parsed
      ensures multiset(Table(parsed, initial, final))[WithPositivi(p)]
        == if OnOrAfterFirstCase(p) && WithinBounds(initial, final, p) then multiset(parsed)[p] else 0
    {
      TableCounts(parsed, initial, final, p);
    }
  }

  lemma AllPositiviHaveColumn(t: seq<Record>)
    requires forall i | 0 <= i < |t| :: HasPositivi(t[i])
    ensures AllHavePositiviColumn(t)
  {
  }

  /** `parsed` holds the loaded rows, row by row, with their dates parsed. */
  predicate ParsedFrom(raw: seq<RawRecord>, parsed: seq<Record>) {
    && |parsed| == |raw|
    && forall i | 0 <= i < |raw| ::
      DateParses(raw[i]) && parsed[i] == Parsed(raw[i], Dates.Parse(raw[i].date).value)
  }

  /** The rows of a successful parse are exactly the parsed loaded rows. */
  lemma ParsedMembers(raw: seq<RawRecord>, parsed: seq<Record>, p: Record)
    requires ParsedFrom(raw, parsed)
    ensures p in parsed <==>
      exists i | 0 <= i < |raw| :: DateParses(raw[i]) && p == Parsed(raw[i], Dates.Parse(raw[i].date).value)
  {
    if p in parsed {
      var i :| 0 <= i < |parsed| && parsed[i] == p;
      assert DateParses(raw[i]) && p == Parsed(raw[i], Dates.Parse(raw[i].date).value);
    }
  }

  /** Every row of the derived table is a sorted row with Positivi added, and every sorted row gives one. */
  lemma DerivedMembers(rows: seq<Record>, x: Record)
    ensures x in AddSidarthePositivi(rows) <==> exists p | p in rows :: x == WithPositivi(p)
  {
    var r := AddSidarthePositivi(rows);
    forall i | 0 <= i < |rows|
      ensures r[i] == WithPositivi(rows[i])
    {
      assert HasPositivi(r[i]) && SameObservation(r[i], rows[i]);
    }
    if exists p | p in rows :: x == WithPositivi(p) {
      var p :| p in rows && x == WithPositivi(p);
      var i :| 0 <= i < |rows| && rows[i] == p;
      assert r[i] == x;
    }
  }

  /** The rows of the final table, stage by stage. */
  lemma TableMembers(parsed: seq<Record>, initial: Option<Dates.Date>, final: Option<Dates.Date>, x: Record)
    ensures x in FilterByDate(AddSidarthePositivi(OrderByDate(RemoveInvalidDates(parsed))), initial, final)
      <==> exists p | p in parsed :: OnOrAfterFirstCase(p) && WithinBounds(initial, final, p) && x == WithPositivi(p)
  {
    var valid := RemoveInvalidDates(parsed);
    var sorted := OrderByDate(valid);
    var derived := AddSidarthePositivi(sorted);
    var t := FilterByDate(derived, initial, final);
    assert x in t <==> x in multiset(t);
    assert x in t <==> x in derived && WithinBounds(initial, final, x);
    DerivedMembers(sorted, x);
    forall p
      ensures p in sorted <==> p in parsed && OnOrAfterFirstCase(p)
    {
      assert p in sorted <==> p in multiset(sorted);
      assert p in valid <==> p in multiset(valid);
      assert p in parsed <==> p in multiset(parsed);
    }
  }

  /** The final table is built from the parsed rows by the pipeline's stages. */
  function Table(parsed: seq<Record>, initial: Option<Dates.Date>, final: Option<Dates.Date>): seq<Record> {
    FilterByDate(AddSidarthePositivi(OrderByDate(RemoveInvalidDates(parsed))), initial, final)
  }

  /** Every row of the final table is after the first case and carries Positivi, and the table is sorted. */
  lemma TableInvariants(parsed: seq<Record>, initial: Option<Dates.Date>, final: Option<Dates.Date>)
    ensures var t := Table(parsed, initial, final);
      && (forall i | 0 <= i < |t| :: OnOrAfterFirstCase(t[i]) && HasPositivi(t[i]))
      && SortedByDate(t)
  {
    var derived := AddSidarthePositivi(OrderByDate(RemoveInvalidDates(parsed)));
    var t := Table(parsed, initial, final);
    SubseqOfSortedIsSorted(t, derived);
    forall i | 0 <= i < |t|
      ensures OnOrAfterFirstCase(t[i]) && HasPositivi(t[i])
    {
      TableMembers(parsed, initial, final, t[i]);
    }
  }

  /** A row is in the final table exactly when it is derived from a loaded row the pipeline keeps. */
  lemma TableFromRaw(raw: seq<RawRecord>, parsed: seq<Record>, initial: Option<Dates.Date>, final: Option<Dates.Date>, x: Record)
    requires ParsedFrom(raw, parsed)
    ensures x in Table(parsed, initial, final) <==>
      exists i | 0 <= i < |raw| :: DateParses(raw[i]) && Kept(raw[i], initial, final) && x == Derived(raw[i])
  {
    TableMembers(parsed, initial, final, x);
    if x in Table(parsed, initial, final) {
      var p :| p in parsed && OnOrAfterFirstCase(p) && WithinBounds(initial, final, p) && x == WithPositivi(p);
      ParsedMembers(raw, parsed, p);
      var i :| 0 <= i < |raw| && DateParses(raw[i]) && p == Parsed(raw[i], Dates.Parse(raw[i].date).value);
      assert Kept(raw[i], initial, final) && x == Derived(raw[i]);
    }
    if exists i | 0 <= i < |raw| :: DateParses(raw[i]) && Kept(raw[i], initial, final) && x == Derived(raw[i]) {
      var i :| 0 <= i < |raw| && DateParses(raw[i]) && Kept(raw[i], initial, final) && x == Derived(raw[i]);
      var p := Parsed(raw[i], Dates.Parse(raw[i].date).value);
      ParsedMembers(raw, parsed, p);
      assert p in parsed && OnOrAfterFirstCase(p) && WithinBounds(initial, final, p) && x == WithPositivi(p);
    }
  }
}
