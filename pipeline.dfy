/** The cleaning pipeline of the analysis script (lines 90-114), as the
    composition of its four steps and as the in-place updates the script makes
    to its one `data` frame. */
module Pipeline {
  import Seqs
  import opened Frames
  import opened Cleaning
  import Duplicates

  /** The script's order: encode REFUND_STATUS (line 90), fill the amounts
      (line 101), drop the rows without a TPIN (line 111), drop the identifier
      columns (line 114). The first step that raises ends the run. */
  function Clean(f: Frame): (r: Result<Frame>)
    requires WellFormed(f)
    ensures r.Ok? ==> WellFormed(r.value) && r.value.columns == f.columns - {ReturnId, RefundId}
    ensures r.Ok? ==> |r.value.rows| <= |f.rows|
  {
    var encoded :- EncodeStatus(f);
    var filled :- FillAmounts(encoded);
    var kept :- DropMissingTpin(filled);
    DropIdColumns(kept)
  }

  /** Every column some step names. */
  const RequiredColumns: set<string> :=
    {RefundStatus, RefundAmountClaimed, RefundAmountPaid, RejectedRefunds, Tpin, ReturnId, RefundId}

  /** The pipeline fails exactly when a column a step names is absent, and then
      with the `KeyError` of the first such step. */
  lemma CleanFails(f: Frame)
    requires WellFormed(f)
    ensures Clean(f).Err? <==> !(RequiredColumns <= f.columns)
    ensures Clean(f).Err? ==>
              Clean(f).error ==
                if RefundStatus !in f.columns then MissingColumns([RefundStatus])
                else if Absent(FillColumns, f.columns) != [] then MissingColumns(Absent(FillColumns, f.columns))
                else if Tpin !in f.columns then MissingColumns([Tpin])
                else MissingColumns(Absent(IdColumns, f.columns))
  {
  }

  /** What the pipeline does to one row that it keeps. */
  function CleanRow(row: Row): Row
  {
    DropIdsRow(FillRow(EncodeStatusRow(row)))
  }

  /** One kept row after cleaning: REFUND_STATUS holds its code, RETURN_ID and
      REFUND_ID are gone, and every cell outside the columns the steps name,
      together with TPIN, is unchanged. */
  lemma CleanRowCells(row: Row)
    ensures CleanRow(row).Keys ==
            (row.Keys + {RefundStatus, RefundAmountClaimed, RefundAmountPaid, RejectedRefunds}) - {ReturnId, RefundId}
    ensures Get(CleanRow(row), RefundStatus) == Some(Num(StatusCode(Get(row, RefundStatus))))
    ensures forall c :: c !in RequiredColumns - {Tpin} ==> Get(CleanRow(row), c) == Get(row, c)
  {
  }

  /** One kept row after cleaning: each of the three amounts keeps its value
      where it had one and is 0 where it was missing. */
  lemma CleanRowAmounts(row: Row)
    ensures forall c :: c in FillColumns && Get(row, c).Some? ==> Get(CleanRow(row), c) == Get(row, c)
    ensures forall c :: c in FillColumns && Get(row, c).None? ==> Get(CleanRow(row), c) == Some(Num(0))
  {
  }

  /** Encoding and filling only touch REFUND_STATUS and the amount columns, so
      running them before the TPIN filter (as the script does) or after it gives
      the same rows. */
  lemma RowStepsCommuteWithTpinFilter(rows: seq<Row>)
    ensures Seqs.Filter(HasTpin, Seqs.Map(FillRow, Seqs.Map(EncodeStatusRow, rows)))
         == Seqs.Map(FillRow, Seqs.Map(EncodeStatusRow, Seqs.Filter(HasTpin, rows)))
  {
    assert forall row :: HasTpin(EncodeStatusRow(row)) == HasTpin(row);
    assert forall row :: HasTpin(FillRow(row)) == HasTpin(row);
    Seqs.FilterMapCommute(HasTpin, FillRow, Seqs.Map(EncodeStatusRow, rows));
    Seqs.FilterMapCommute(HasTpin, EncodeStatusRow, rows);
  }

  /** A successful run ends with the schema minus the identifier columns. */
  lemma CleanColumns(f: Frame)
    requires WellFormed(f) && RequiredColumns <= f.columns
    ensures Clean(f).Ok? && Clean(f).value.columns == f.columns - {ReturnId, RefundId}
  {
    var e := EncodeStatus(f).value;
    var g := FillAmounts(e).value;
    var k := DropMissingTpin(g).value;
    assert Clean(f) == DropIdColumns(k);
  }

  /** The rows of a successful run: the kept rows, each cleaned. */
  lemma CleanRowsAreCleanedKeptRows(f: Frame)
    requires WellFormed(f) && RequiredColumns <= f.columns
    ensures Clean(f).Ok? && Clean(f).value.rows == Seqs.Map(CleanRow, Seqs.Filter(HasTpin, f.rows))
  {
    var e := EncodeStatus(f).value;
    assert e.rows == Seqs.Map(EncodeStatusRow, f.rows);
    var g := FillAmounts(e).value;
    assert g.rows == Seqs.Map(FillRow, e.rows);
    var k := DropMissingTpin(g).value;
    assert k.rows == Seqs.Filter(HasTpin, g.rows);
    var d := DropIdColumns(k).value;
    assert d.rows == Seqs.Map(DropIdsRow, k.rows);
    assert Clean(f) == Ok(d);
    RowStepsCommuteWithTpinFilter(f.rows);
    var kept := Seqs.Filter(HasTpin, f.rows);
    assert k.rows == Seqs.Map(FillRow, Seqs.Map(EncodeStatusRow, kept));
  }

  /** The reference row-wise description of the cleaned table: drop the rows
      without a TPIN, clean each remaining row, drop the identifier columns from
      the schema. */
  function Cleaned(f: Frame): Frame
  {
    Frame(f.columns - {ReturnId, RefundId}, Seqs.Map(CleanRow, Seqs.Filter(HasTpin, f.rows)))
  }

  /** When every column it names exists, the pipeline succeeds with the
      reference table. */
  lemma CleanRows(f: Frame)
    requires WellFormed(f) && RequiredColumns <= f.columns
    ensures Clean(f) == Ok(Cleaned(f))
  {
    CleanColumns(f);
    CleanRowsAreCleanedKeptRows(f);
  }

  /** Every cleaned row has exactly the cleaned schema. */
  lemma CleanedWellFormed(f: Frame)
    requires WellFormed(f) && RequiredColumns <= f.columns
    ensures WellFormed(Cleaned(f))
  {
    var kept := Seqs.Filter(HasTpin, f.rows);
    var out := Cleaned(f);
    forall i | 0 <= i < |out.rows| ensures out.rows[i].Keys == out.columns {
      assert kept[i] in f.rows;
      CleanRowCells(kept[i]);
    }
  }

  /** The cleaned table has the schema minus RETURN_ID and REFUND_ID and one row
      per input row with a TPIN, in order: the k-th output row is the cleaned
      input row at the k-th TPIN-present index. */
  lemma CleanedOrder(f: Frame)
    ensures Cleaned(f).columns == f.columns - {ReturnId, RefundId}
    ensures |Cleaned(f).rows| == |Seqs.Matching(HasTpin, f.rows)|
    ensures var out := Cleaned(f).rows;
            var idx := Seqs.Positions(HasTpin, f.rows);
            |out| == |idx| && forall k :: 0 <= k < |out| ==> out[k] == CleanRow(f.rows[idx[k]])
  {
    Seqs.FilterAtPositions(HasTpin, f.rows);
    Seqs.FilterCount(HasTpin, f.rows);
  }

  /** Every row of the cleaned table has a TPIN, a status code in 0..8, all
      three amounts, and neither identifier column. */
  lemma CleanedRows(f: Frame)
    ensures forall row :: row in Cleaned(f).rows ==>
              && HasTpin(row)
              && (exists code :: 0 <= code <= 8 && Get(row, RefundStatus) == Some(Num(code)))
              && (forall c :: c in FillColumns ==> Get(row, c).Some?)
              && ReturnId !in row && RefundId !in row
  {
    var out := Cleaned(f).rows;
    var kept := Seqs.Filter(HasTpin, f.rows);
    forall row | row in out
      ensures HasTpin(row)
      ensures exists code :: 0 <= code <= 8 && Get(row, RefundStatus) == Some(Num(code))
      ensures forall c :: c in FillColumns ==> Get(row, c).Some?
      ensures ReturnId !in row && RefundId !in row
    {
      var k :| 0 <= k < |out| && out[k] == row;
      var src := kept[k];
      assert src in kept;
      CleanRowCells(src);
      CleanRowAmounts(src);
      var code := StatusCode(Get(src, RefundStatus));
      assert Get(row, RefundStatus) == Some(Num(code));
    }
  }

  /** The cleaned table never depends on the rows the TPIN filter drops:
      cleaning the table gives the same result as cleaning only its rows that
      have a TPIN. */
  lemma CleanIgnoresDroppedRows(f: Frame)
    requires WellFormed(f)
    ensures var g := Frame(f.columns, Seqs.Filter(HasTpin, f.rows));
            WellFormed(g) && Clean(f) == Clean(g)
  {
    var kept := Seqs.Filter(HasTpin, f.rows);
    var g := Frame(f.columns, kept);
    assert forall i :: 0 <= i < |kept| ==> kept[i] in f.rows;
    CleanFails(f);
    CleanFails(g);
    if RequiredColumns <= f.columns {
      CleanRows(f);
      CleanRows(g);
      Seqs.FilterIdempotent(HasTpin, f.rows);
    }
  }

  /** A row without a TPIN is dropped whatever its other cells hold. */
  lemma RowWithoutTpinDropped(f: Frame, row: Row)
    requires WellFormed(f) && RequiredColumns <= f.columns
    requires row in f.rows && !HasTpin(row)
    ensures Clean(f).Ok?
    ensures forall out :: out in Clean(f).value.rows ==> HasTpin(out)
    ensures |Clean(f).value.rows| < |f.rows|
  {
    CleanRows(f);
    CleanedRows(f);
    var i :| 0 <= i < |f.rows| && f.rows[i] == row;
    Seqs.FilterDropsRejected(HasTpin, f.rows, i);
  }

  /** The row in the example of an approved claim with no amount: its status
      becomes 6 and its missing claimed amount becomes 0. */
  lemma ApprovedRowExample()
    ensures var row := map[Tpin := Some(Num(1001)), RefundStatus := Some(Text("APPROVED")),
                           RefundAmountClaimed := None];
            && Get(CleanRow(row), RefundStatus) == Some(Num(6))
            && Get(CleanRow(row), RefundAmountClaimed) == Some(Num(0))
            && Get(CleanRow(row), Tpin) == Some(Num(1001))
  {
    var row := map[Tpin := Some(Num(1001)), RefundStatus := Some(Text("APPROVED")),
                   RefundAmountClaimed := None];
    assert IsKnownStatus(Get(row, RefundStatus));
    CleanRowCells(row);
    CleanRowAmounts(row);
  }

  // ---------------------------------------------------------------------------
  // The whole script: inspection, then cleaning
  // ---------------------------------------------------------------------------

  /** The columns the plots read, in the order the script reads them: the two
      invoice counts (line 51), the claimed and paid amounts (line 58), the
      status (line 66). */
  const PlotColumns: seq<string> :=
    [SumOfOutputInvoices, SumOfInputInvoices, RefundAmountClaimed, RefundAmountPaid, RefundStatus]

  /** Lines 50-66: the plots change nothing in the table, but each `data[c]`
      raises a `KeyError` for an absent column, so the first absent one in
      reading order ends the run. The bar chart's own failure on a table with
      no present REFUND_STATUS is not modelled. */
  function ReadPlotColumns(f: Frame): (r: Result<Frame>)
    ensures r.Ok? <==> forall c :: c in PlotColumns ==> c in f.columns
    ensures r.Ok? ==> r.value == f
    ensures r.Err? ==>
              exists k :: 0 <= k < |PlotColumns| && PlotColumns[k] !in f.columns
                && (forall j :: 0 <= j < k ==> PlotColumns[j] in f.columns)
                && r.error == MissingColumns([PlotColumns[k]])
  {
    var k := FirstAbsent(PlotColumns, f.columns);
    if k < |PlotColumns| then Err(MissingColumns([PlotColumns[k]])) else Ok(f)
  }

  /** Every column some line of the script reads. */
  const ScriptColumns: set<string> := RequiredColumns + {SumOfOutputInvoices, SumOfInputInvoices}

  /** The script runs the duplicate inspection (lines 27-41), reads the plotted
      columns (lines 50-66) and cleans (lines 90-114); the first exception ends
      the run, and the inspection's and the plots' results are discarded. */
  function Script(f: Frame): (r: Result<Frame>)
    requires WellFormed(f)
    ensures Duplicates.InspectDuplicates(f).Err? ==> r == Err(Duplicates.InspectDuplicates(f).error)
    ensures Duplicates.InspectDuplicates(f).Ok? && ReadPlotColumns(f).Err? ==> r == Err(ReadPlotColumns(f).error)
    ensures Duplicates.InspectDuplicates(f).Ok? && ReadPlotColumns(f).Ok? ==> r == Clean(f)
  {
    var shown :- Duplicates.InspectDuplicates(f);
    var plotted :- ReadPlotColumns(f);
    Clean(f)
  }

  /** The whole run fails exactly when the inspection raises or a column some
      line reads is absent. */
  lemma ScriptFails(f: Frame)
    requires WellFormed(f)
    ensures Script(f).Err? <==> Duplicates.InspectDuplicates(f).Err? || !(ScriptColumns <= f.columns)
  {
    CleanFails(f);
  }

  /** A table the inspection gets through has at most one row without a TPIN:
      two missing TPINs are duplicates of each other, and the integer cast then
      raises. */
  lemma InspectionAdmitsOneMissingTpin(f: Frame)
    requires WellFormed(f) && Duplicates.InspectDuplicates(f).Ok?
    ensures Duplicates.Occurrences(f.rows, None) <= 1
    ensures forall i, j :: 0 <= i < j < |f.rows| ==> HasTpin(f.rows[i]) || HasTpin(f.rows[j])
  {
    Duplicates.InspectDuplicatesFails(f);
    Duplicates.OccursTwice(f.rows, None);
    forall k | 0 <= k < |f.rows| && Get(f.rows[k], Tpin) == None
      ensures Duplicates.Occurrences(f.rows, None) < 2
    {
      assert f.rows[k] in f.rows && !Duplicates.HasIntTpin(f.rows[k]);
    }
  }

  /** The rows with a TPIN and the rows without one make up the table. */
  lemma {:induction false} MissingTpinCount(rows: seq<Row>)
    ensures |Seqs.Matching(HasTpin, rows)| + Duplicates.Occurrences(rows, None) == |rows|
  {
    if rows != [] {
      var n := |rows| - 1;
      MissingTpinCount(rows[..n]);
      Seqs.MatchingSnoc(HasTpin, rows);
      assert n !in Seqs.Matching(HasTpin, rows[..n]);
    }
  }

  /** In a run of the whole script that succeeds, the TPIN filter at line 111
      drops at most one row. */
  lemma ScriptDropsAtMostOneRow(f: Frame)
    requires WellFormed(f)
    ensures Script(f).Ok? ==> |f.rows| - 1 <= |Script(f).value.rows| <= |f.rows|
  {
    if Script(f).Ok? {
      InspectionAdmitsOneMissingTpin(f);
      CleanFails(f);
      CleanRows(f);
      CleanedOrder(f);
      MissingTpinCount(f.rows);
    }
  }

  /** The frame as the four steps leave it when the run stops: the result of
      every step that succeeded, up to the first that raises. */
  function CleanedUpToFailure(f: Frame): (g: Frame)
    requires WellFormed(f)
    ensures WellFormed(g)
    ensures Clean(f).Ok? ==> g == Clean(f).value
    ensures RefundStatus !in f.columns ==> g == f
  {
    match EncodeStatus(f)
    case Err(_) => f
    case Ok(e) =>
      match FillAmounts(e)
      case Err(_) => e
      case Ok(filled) =>
        match DropMissingTpin(filled)
        case Err(_) => filled
        case Ok(kept) =>
          match DropIdColumns(kept)
          case Err(_) => kept
          case Ok(d) => d
  }

  /** A run that stops at the fill (an amount column is absent) leaves the
      statuses encoded: every row holds its status code. */
  lemma FailedFillKeepsEncoding(f: Frame)
    requires WellFormed(f) && RefundStatus in f.columns
    requires exists c :: c in FillColumns && c !in f.columns
    ensures var g := CleanedUpToFailure(f);
            |g.rows| == |f.rows| && g.columns == f.columns
            && forall i :: 0 <= i < |f.rows| ==>
                 Get(g.rows[i], RefundStatus) == Some(Num(StatusCode(Get(f.rows[i], RefundStatus))))
  {
    var e := EncodeStatus(f).value;
    assert FillAmounts(e).Err?;
    assert CleanedUpToFailure(f) == e;
  }

  // ---------------------------------------------------------------------------
  // The script's frame, updated in place
  // ---------------------------------------------------------------------------

  /** How a step that either raises or succeeds leaves the frame: replaced by
      the step's result, or untouched with the error reported. */
  ghost predicate Stepped(r: Result<Frame>, before: Frame, after: Frame, err: Option<Error>)
  {
    match r
    case Ok(g) => after == g && err == None
    case Err(e) => after == before && err == Some(e)
  }

  /** The script's `data`: one frame whose columns are reassigned and whose rows
      are dropped in place. */
  class DataFrame {
    var columns: set<string>
    var rows: seq<Row>

    ghost predicate Valid()
      reads this
    {
      WellFormed(Frame(columns, rows))
    }

    function View(): Frame
      reads this
    {
      Frame(columns, rows)
    }

    constructor (f: Frame)
      requires WellFormed(f)
      ensures Valid() && View() == f
    {
      columns, rows := f.columns, f.rows;
    }

    /** Line 90: `data['REFUND_STATUS'] = data['REFUND_STATUS'].map(...).fillna(0)`. */
    method MapRefundStatus() returns (err: Option<Error>)
      requires Valid()
      modifies this
      ensures Valid()
      ensures Stepped(EncodeStatus(old(View())), old(View()), View(), err)
    {
      var r := EncodeStatus(View());
      if r.Ok? {
        columns, rows := r.value.columns, r.value.rows;
        err := None;
      } else {
        err := Some(r.error);
      }
    }

    /** Line 101: `data[columns_to_fill] = data[columns_to_fill].fillna(0)`. */
    method FillMissingAmounts() returns (err: Option<Error>)
      requires Valid()
      modifies this
      ensures Valid()
      ensures Stepped(FillAmounts(old(View())), old(View()), View(), err)
    {
      var r := FillAmounts(View());
      if r.Ok? {
        columns, rows := r.value.columns, r.value.rows;
        err := None;
      } else {
        err := Some(r.error);
      }
    }

    /** Line 111: `data.dropna(subset=['TPIN'], inplace=True)`. */
    method DropRowsWithoutTpin() returns (err: Option<Error>)
      requires Valid()
      modifies this
      ensures Valid()
      ensures Stepped(DropMissingTpin(old(View())), old(View()), View(), err)
    {
      var r := DropMissingTpin(View());
      if r.Ok? {
        columns, rows := r.value.columns, r.value.rows;
        err := None;
      } else {
        err := Some(r.error);
      }
    }

    /** Line 114: `data.drop(columns=['RETURN_ID', 'REFUND_ID'], inplace=True)`. */
    method DropIdentifierColumns() returns (err: Option<Error>)
      requires Valid()
      modifies this
      ensures Valid()
      ensures Stepped(DropIdColumns(old(View())), old(View()), View(), err)
    {
      var r := DropIdColumns(View());
      if r.Ok? {
        columns, rows := r.value.columns, r.value.rows;
        err := None;
      } else {
        err := Some(r.error);
      }
    }

    /** Lines 90-114 in order, stopping at the first step that raises. On
        success the frame is the cleaned table; on failure the error is the
        pipeline's, and the frame keeps the steps that ran before it. */
    method CleanInPlace() returns (err: Option<Error>)
      requires Valid()
      modifies this
      ensures Valid()
      ensures View() == CleanedUpToFailure(old(View()))
      ensures Clean(old(View())).Ok? ==> err == None && View() == Clean(old(View())).value
      ensures Clean(old(View())).Err? ==> err == Some(Clean(old(View())).error)
    {
      err := MapRefundStatus();
      if err.Some? {
        return;
      }
      err := FillMissingAmounts();
      if err.Some? {
        return;
      }
      err := DropRowsWithoutTpin();
      if err.Some? {
        return;
      }
      err := DropIdentifierColumns();
    }
  }
}
