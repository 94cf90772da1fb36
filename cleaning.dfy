/** The four cleaning steps of the analysis script, each as the rule it applies to
    one row and as the step on the whole frame, with pandas' `KeyError` for a
    column the step names but the frame does not have. */
module Cleaning {
  import Seqs
  import opened Frames

  // ---------------------------------------------------------------------------
  // REFUND_STATUS encoding: `data[c].map(status_mapping).fillna(0)`
  // ---------------------------------------------------------------------------

  /** The fixed table from refund status to numeric code. */
  const StatusMapping: map<string, int> := map[
    "FULLY_PAID_MANUALLY" := 1,
    "INITIATED" := 2,
    "REJECTED" := 3,
    "FULLY_PAID" := 4,
    "RECOMMENDED_APPROVAL" := 5,
    "APPROVED" := 6,
    "COMPLETED" := 7,
    "RECOMMENDED_REJECTION" := 8
  ]

  /** The status the table gives a code, for the codes it uses. */
  function StatusName(code: int): string
    requires 1 <= code <= 8
  {
    if code == 1 then "FULLY_PAID_MANUALLY"
    else if code == 2 then "INITIATED"
    else if code == 3 then "REJECTED"
    else if code == 4 then "FULLY_PAID"
    else if code == 5 then "RECOMMENDED_APPROVAL"
    else if code == 6 then "APPROVED"
    else if code == 7 then "COMPLETED"
    else "RECOMMENDED_REJECTION"
  }

  /** The table sends its statuses one-to-one onto the codes 1..8, and so never
      uses code 0: `StatusName` undoes it in both directions. */
  lemma StatusTableShape()
    ensures forall s :: s in StatusMapping ==> 1 <= StatusMapping[s] <= 8 && StatusName(StatusMapping[s]) == s
    ensures forall k :: 1 <= k <= 8 ==> StatusName(k) in StatusMapping && StatusMapping[StatusName(k)] == k
  {
    forall s | s in StatusMapping
      ensures 1 <= StatusMapping[s] <= 8 && StatusName(StatusMapping[s]) == s
    {
      assert s in {"FULLY_PAID_MANUALLY", "INITIATED", "REJECTED", "FULLY_PAID",
        "RECOMMENDED_APPROVAL", "APPROVED", "COMPLETED", "RECOMMENDED_REJECTION"};
    }
  }

  /** No two statuses share a code, and the codes used are exactly 1..8. */
  lemma StatusTableInjective()
    ensures forall s, t :: s in StatusMapping && t in StatusMapping && StatusMapping[s] == StatusMapping[t] ==> s == t
    ensures StatusMapping.Values == {1, 2, 3, 4, 5, 6, 7, 8}
    ensures 0 !in StatusMapping.Values
  {
    StatusTableShape();
    forall k | k in StatusMapping.Values ensures 1 <= k <= 8 {
      var s :| s in StatusMapping && StatusMapping[s] == k;
    }
    forall k | 1 <= k <= 8 ensures k in StatusMapping.Values {
      assert StatusMapping[StatusName(k)] == k;
    }
  }

  /** A cell the table knows: present, textual and listed. */
  predicate IsKnownStatus(v: Cell)
  {
    v.Some? && v.value.Text? && v.value.s in StatusMapping
  }

  /** The code a REFUND_STATUS cell is encoded to: the table's code for a listed
      status, 0 for anything else (a missing cell, an unlisted string, a number). */
  function StatusCode(v: Cell): (code: int)
    ensures 0 <= code <= 8
    ensures IsKnownStatus(v) ==> code == StatusMapping[v.value.s]
    ensures code == 0 <==> !IsKnownStatus(v)
  {
    StatusTableShape();
    match v
    case Some(Text(s)) => if s in StatusMapping then StatusMapping[s] else 0
    case _ => 0
  }

  /** One row after the encoding: REFUND_STATUS holds its code, every other
      column is as before. */
  function EncodeStatusRow(row: Row): (r: Row)
    ensures r.Keys == row.Keys + {RefundStatus}
    ensures Get(r, RefundStatus) == Some(Num(StatusCode(Get(row, RefundStatus))))
    ensures forall c :: c != RefundStatus ==> Get(r, c) == Get(row, c)
  {
    row[RefundStatus := Some(Num(StatusCode(Get(row, RefundStatus))))]
  }

  /** Line 90 on the frame: fails when there is no REFUND_STATUS column,
      otherwise encodes every row and keeps the schema and the row count. */
  function EncodeStatus(f: Frame): (r: Result<Frame>)
    requires WellFormed(f)
    ensures r.Err? <==> RefundStatus !in f.columns
    ensures r.Err? ==> r.error == MissingColumns([RefundStatus])
    ensures r.Ok? ==> WellFormed(r.value) && r.value.columns == f.columns
    ensures r.Ok? ==> |r.value.rows| == |f.rows|
    ensures r.Ok? ==> forall i :: 0 <= i < |f.rows| ==> r.value.rows[i] == EncodeStatusRow(f.rows[i])
  {
    if RefundStatus !in f.columns then Err(MissingColumns([RefundStatus]))
    else Ok(Frame(f.columns, Seqs.Map(EncodeStatusRow, f.rows)))
  }

  /** Encoding a second time does not give back the codes: the codes are
      numbers, which the table does not list, so every row ends with code 0. */
  lemma EncodeStatusTwiceZeroes(row: Row)
    ensures Get(EncodeStatusRow(EncodeStatusRow(row)), RefundStatus) == Some(Num(0))
  {
  }

  // ---------------------------------------------------------------------------
  // Zero-fill: `data[columns_to_fill] = data[columns_to_fill].fillna(0)`
  // ---------------------------------------------------------------------------

  const FillColumns: seq<string> := [RefundAmountClaimed, RefundAmountPaid, RejectedRefunds]

  /** One row after the fill: the three amount columns are present, with their
      old value where they had one and 0 where they were missing; every other
      column is as before. */
  function FillRow(row: Row): (r: Row)
    ensures r.Keys == row.Keys + {RefundAmountClaimed, RefundAmountPaid, RejectedRefunds}
    ensures forall c :: c in FillColumns && Get(row, c).Some? ==> Get(r, c) == Get(row, c)
    ensures forall c :: c in FillColumns && Get(row, c).None? ==> Get(r, c) == Some(Num(0))
    ensures forall c :: c !in FillColumns ==> Get(r, c) == Get(row, c)
  {
    map c | c in row.Keys + {RefundAmountClaimed, RefundAmountPaid, RejectedRefunds} ::
      if c in FillColumns && Get(row, c).None? then Some(Num(0)) else Get(row, c)
  }

  /** Filling a filled row changes nothing. */
  lemma FillRowIdempotent(row: Row)
    ensures FillRow(FillRow(row)) == FillRow(row)
  {
  }

  /** Lines 98-101 on the frame: fails with the amount columns the frame lacks,
      otherwise fills every row and keeps the schema and the row count. */
  function FillAmounts(f: Frame): (r: Result<Frame>)
    requires WellFormed(f)
    ensures r.Err? <==> exists c :: c in FillColumns && c !in f.columns
    ensures r.Err? ==> r.error == MissingColumns(Absent(FillColumns, f.columns))
    ensures r.Ok? ==> WellFormed(r.value) && r.value.columns == f.columns
    ensures r.Ok? ==> |r.value.rows| == |f.rows|
    ensures r.Ok? ==> forall i :: 0 <= i < |f.rows| ==> r.value.rows[i] == FillRow(f.rows[i])
  {
    var missing := Absent(FillColumns, f.columns);
    if missing != [] then Err(MissingColumns(missing))
    else Ok(Frame(f.columns, Seqs.Map(FillRow, f.rows)))
  }

  /** The fill on a frame is idempotent. */
  lemma {:induction false} FillAmountsIdempotent(f: Frame)
    requires WellFormed(f)
    ensures FillAmounts(f).Ok? ==> FillAmounts(FillAmounts(f).value) == FillAmounts(f)
  {
    if FillAmounts(f).Ok? {
      forall row ensures FillRow(FillRow(row)) == FillRow(row) {
        FillRowIdempotent(row);
      }
      Seqs.MapIdempotent(FillRow, f.rows);
    }
  }

  // ---------------------------------------------------------------------------
  // Row filter: `data.dropna(subset=['TPIN'], inplace=True)`
  // ---------------------------------------------------------------------------

  predicate HasTpin(row: Row)
  {
    Get(row, Tpin).Some?
  }

  /** Line 111 on the frame: fails when there is no TPIN column, otherwise keeps
      the rows whose TPIN is present, in order, and the whole schema. */
  function DropMissingTpin(f: Frame): (r: Result<Frame>)
    requires WellFormed(f)
    ensures r.Err? <==> Tpin !in f.columns
    ensures r.Err? ==> r.error == MissingColumns([Tpin])
    ensures r.Ok? ==> WellFormed(r.value) && r.value.columns == f.columns
    ensures r.Ok? ==> forall row :: row in r.value.rows <==> row in f.rows && HasTpin(row)
    ensures r.Ok? ==> |r.value.rows| == |Seqs.Matching(HasTpin, f.rows)|
    ensures r.Ok? ==> |r.value.rows| <= |f.rows|
  {
    if Tpin !in f.columns then Err(MissingColumns([Tpin]))
    else
      Seqs.FilterCount(HasTpin, f.rows);
      var kept := Seqs.Filter(HasTpin, f.rows);
      assert forall i :: 0 <= i < |kept| ==> kept[i] in f.rows;
      Ok(Frame(f.columns, kept))
  }

  /** The rows that survive are the TPIN-present rows in their original order:
      the k-th surviving row is the input row at the k-th index whose TPIN is
      present. */
  lemma DropMissingTpinKeepsOrder(f: Frame)
    requires WellFormed(f) && Tpin in f.columns
    ensures var kept := DropMissingTpin(f).value.rows;
            var idx := Seqs.Positions(HasTpin, f.rows);
            |kept| == |idx| && forall k :: 0 <= k < |kept| ==> kept[k] == f.rows[idx[k]]
  {
    Seqs.FilterAtPositions(HasTpin, f.rows);
  }

  // ---------------------------------------------------------------------------
  // Column drop: `data.drop(columns=['RETURN_ID', 'REFUND_ID'], inplace=True)`
  // ---------------------------------------------------------------------------

  const IdColumns: seq<string> := [ReturnId, RefundId]

  /** One row without the two identifier columns; every other cell as before. */
  function DropIdsRow(row: Row): (r: Row)
    ensures r.Keys == row.Keys - {ReturnId, RefundId}
    ensures forall c :: c in r ==> r[c] == row[c]
  {
    row - {ReturnId, RefundId}
  }

  /** Line 114 on the frame: pandas' `drop` raises for a label that is not a
      column, so this fails unless both identifier columns exist; otherwise the
      schema loses exactly those two columns and every row keeps its other
      cells, in the same order. */
  function DropIdColumns(f: Frame): (r: Result<Frame>)
    requires WellFormed(f)
    ensures r.Err? <==> ReturnId !in f.columns || RefundId !in f.columns
    ensures r.Err? ==> r.error == MissingColumns(Absent(IdColumns, f.columns))
    ensures r.Ok? ==> WellFormed(r.value) && r.value.columns == f.columns - {ReturnId, RefundId}
    ensures r.Ok? ==> |r.value.rows| == |f.rows|
    ensures r.Ok? ==> forall i, c :: 0 <= i < |f.rows| && c in r.value.columns ==> r.value.rows[i][c] == f.rows[i][c]
  {
    var missing := Absent(IdColumns, f.columns);
    if missing != [] then Err(MissingColumns(missing))
    else Ok(Frame(f.columns - {ReturnId, RefundId}, Seqs.Map(DropIdsRow, f.rows)))
  }
}
