/** The VAT refund table as the analysis script holds it in a pandas DataFrame:
    an ordered sequence of rows, each row mapping a column name to a cell, and a
    cell either a present value or missing (pandas' NaN / None). */
module Frames {
  import Seqs

  datatype Option<+T> = None | Some(value: T)

  /** A present cell: the amounts, counts, TPINs and status codes are numbers;
      the raw REFUND_STATUS values are text. */
  datatype Value = Num(n: int) | Text(s: string)

  type Cell = Option<Value>
  type Row = map<string, Cell>

  /** `columns` is the frame's schema; in a well-formed frame every row has
      exactly these columns. */
  datatype Frame = Frame(columns: set<string>, rows: seq<Row>)

  /** The exceptions pandas raises in the steps modelled: a `KeyError` naming
      the labels that are not columns, and the two `astype(int)` failures. */
  datatype Error =
    | MissingColumns(labels: seq<string>)
    | NonFiniteTpin
    | NonIntegerTpin

  datatype Result<+T> = Ok(value: T) | Err(error: Error) {
    predicate IsFailure() {
      Err?
    }

    function PropagateFailure<U>(): Result<U>
      requires Err?
    {
      Err(error)
    }

    function Extract(): T
      requires Ok?
    {
      value
    }
  }

  const Tpin: string := "TPIN"
  const ReturnId: string := "RETURN_ID"
  const RefundId: string := "REFUND_ID"
  const RefundStatus: string := "REFUND_STATUS"
  const RefundAmountClaimed: string := "REFUND_AMOUNT_CLAIMED"
  const RefundAmountPaid: string := "REFUND_AMOUNT_PAID"
  const RejectedRefunds: string := "REJECTED_REFUNDS"
  const SumOfOutputInvoices: string := "SUM_OF_OUTPUT_INVOICES"
  const SumOfInputInvoices: string := "SUM_OF_INPUT_INVOICES"

  /** The cell of `row` in column `c`; a column the row lacks reads as missing. */
  function Get(row: Row, c: string): Cell
  {
    if c in row then row[c] else None
  }

  /** A rectangular table: every row carries exactly the frame's columns. */
  ghost predicate WellFormed(f: Frame)
  {
    forall i :: 0 <= i < |f.rows| ==> f.rows[i].Keys == f.columns
  }

  /** The index of the first label of `labels` that is not a column, or
      `|labels|` when there is none: the label that a run of single-column
      reads `data[c]` stops at. */
  function FirstAbsent(labels: seq<string>, columns: set<string>): (k: nat)
    ensures k <= |labels|
    ensures k < |labels| ==> labels[k] !in columns
    ensures forall j :: 0 <= j < k ==> labels[j] in columns
  {
    if labels == [] then 0
    else if labels[0] !in columns then 0
    else 1 + FirstAbsent(labels[1..], columns)
  }

  /** The labels of `labels`, in their order, that are not columns of the schema:
      what pandas' `KeyError` reports when a column selection, `dropna(subset=...)`
      or `drop(columns=...)` names them. */
  function Absent(labels: seq<string>, columns: set<string>): (missing: seq<string>)
    ensures missing == [] <==> forall c :: c in labels ==> c in columns
    ensures forall c :: c in missing <==> c in labels && c !in columns
  {
    var m := Seqs.Filter((c: string) => c !in columns, labels);
    assert m != [] ==> m[0] in m;
    m
  }
}
