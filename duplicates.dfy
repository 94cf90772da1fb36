/** The duplicate-TPIN inspection of the analysis script (lines 27-41): select
    every row whose TPIN occurs more than once, cast TPIN to integer, sort by
    TPIN and take the last four rows. Line 41 is a bare expression, so its value
    is computed and discarded; what the inspection does to the rest of the
    script is that an exception in it ends the run before the cleaning starts
    (see `Pipeline.Script`). */
module Duplicates {
  import Seqs
  import opened Frames

  /** How many rows carry the TPIN cell `v`. A missing TPIN counts like any
      other value: pandas' `duplicated` puts all missing keys in one group. */
  function Occurrences(rows: seq<Row>, v: Cell): nat
  {
    if rows == [] then 0
    else Occurrences(rows[..|rows| - 1], v) + (if Get(rows[|rows| - 1], Tpin) == v then 1 else 0)
  }

  /** Some row carries `v` exactly when the count is positive. */
  lemma {:induction false} OccursOnce(rows: seq<Row>, v: Cell)
    ensures Occurrences(rows, v) >= 1 <==> exists i :: 0 <= i < |rows| && Get(rows[i], Tpin) == v
  {
    if rows != [] {
      var front := rows[..|rows| - 1];
      OccursOnce(front, v);
      if exists i :: 0 <= i < |front| && Get(front[i], Tpin) == v {
        var i :| 0 <= i < |front| && Get(front[i], Tpin) == v;
        assert Get(rows[i], Tpin) == v;
      }
      if exists i :: 0 <= i < |rows| && Get(rows[i], Tpin) == v {
        var i :| 0 <= i < |rows| && Get(rows[i], Tpin) == v;
        if i < |front| {
          assert Get(front[i], Tpin) == v;
        }
      }
    }
  }

  /** The count reaches two exactly when two different rows carry `v`. */
  lemma {:induction false} OccursTwice(rows: seq<Row>, v: Cell)
    ensures Occurrences(rows, v) >= 2 <==>
            exists i, j :: 0 <= i < j < |rows| && Get(rows[i], Tpin) == v && Get(rows[j], Tpin) == v
  {
    if rows != [] {
      var n := |rows| - 1;
      var front := rows[..n];
      OccursOnce(front, v);
      OccursTwice(front, v);
      if Occurrences(rows, v) >= 2 {
        if Get(rows[n], Tpin) == v {
          var i :| 0 <= i < |front| && Get(front[i], Tpin) == v;
          assert Get(rows[i], Tpin) == v;
        } else {
          var i, j :| 0 <= i < j < |front| && Get(front[i], Tpin) == v && Get(front[j], Tpin) == v;
          assert Get(rows[i], Tpin) == v && Get(rows[j], Tpin) == v;
        }
      }
      if exists i, j :: 0 <= i < j < |rows| && Get(rows[i], Tpin) == v && Get(rows[j], Tpin) == v {
        var i, j :| 0 <= i < j < |rows| && Get(rows[i], Tpin) == v && Get(rows[j], Tpin) == v;
        assert Get(front[i], Tpin) == v;
        if j < n {
          assert Get(front[j], Tpin) == v;
        }
      }
    }
  }

  /** `duplicated(subset=['TPIN'], keep=False)`: the row's TPIN occurs in more
      than one row of the table, that is, two different rows carry it. */
  function IsDuplicate(rows: seq<Row>, row: Row): (b: bool)
    ensures b <==> exists i, j :: 0 <= i < j < |rows| && Get(rows[i], Tpin) == Get(row, Tpin) && Get(rows[j], Tpin) == Get(row, Tpin)
  {
    OccursTwice(rows, Get(row, Tpin));
    Occurrences(rows, Get(row, Tpin)) >= 2
  }

  /** Line 27: the rows whose TPIN is shared, all occurrences of each, in table
      order. `duplicated` answers an empty frame with an empty selection before
      it looks at `subset`, so this fails only when the frame has rows and no
      TPIN column. */
  function SelectDuplicates(f: Frame): (r: Result<Frame>)
    requires WellFormed(f)
    ensures r.Err? <==> Tpin !in f.columns && f.rows != []
    ensures r.Err? ==> r.error == MissingColumns([Tpin])
    ensures r.Ok? ==> WellFormed(r.value) && r.value.columns == f.columns
    ensures r.Ok? && f.rows == [] ==> r.value.rows == []
  {
    if Tpin !in f.columns && f.rows != [] then Err(MissingColumns([Tpin]))
    else
      var sel := Seqs.Filter((row: Row) => IsDuplicate(f.rows, row), f.rows);
      assert forall i :: 0 <= i < |sel| ==> sel[i] in f.rows;
      Ok(Frame(f.columns, sel))
  }

  /** A row is selected exactly when it is a row of the table and two different
      rows of the table carry its TPIN; the selection keeps the table's order and
      has one row for every index whose TPIN is shared. */
  lemma DuplicateSelectionExact(f: Frame)
    requires WellFormed(f) && SelectDuplicates(f).Ok?
    ensures var sel := SelectDuplicates(f).value.rows;
            forall row :: row in sel <==>
              row in f.rows &&
              exists i, j :: 0 <= i < j < |f.rows| && Get(f.rows[i], Tpin) == Get(row, Tpin) && Get(f.rows[j], Tpin) == Get(row, Tpin)
    ensures var sel := SelectDuplicates(f).value.rows;
            var idx := Seqs.Positions((row: Row) => IsDuplicate(f.rows, row), f.rows);
            |sel| == |idx| && forall k :: 0 <= k < |sel| ==> sel[k] == f.rows[idx[k]]
  {
    forall row: Row ensures IsDuplicate(f.rows, row) <==>
      exists i, j :: 0 <= i < j < |f.rows| && Get(f.rows[i], Tpin) == Get(row, Tpin) && Get(f.rows[j], Tpin) == Get(row, Tpin)
    {
      OccursTwice(f.rows, Get(row, Tpin));
    }
    Seqs.FilterAtPositions((row: Row) => IsDuplicate(f.rows, row), f.rows);
  }

  // ---------------------------------------------------------------------------
  // `duplicates['TPIN'].astype(int)`
  // ---------------------------------------------------------------------------

  predicate HasIntTpin(row: Row)
  {
    Get(row, Tpin).Some? && Get(row, Tpin).value.Num?
  }

  /** Line 35: the cast succeeds only when every TPIN is a present number, and
      then leaves the (already integral) values as they are; a missing TPIN is
      pandas' non-finite casting error. */
  function TpinsToInt(rows: seq<Row>): (r: Result<seq<Row>>)
    ensures r.Ok? <==> forall i :: 0 <= i < |rows| ==> HasIntTpin(rows[i])
    ensures r.Ok? ==> r.value == rows
    ensures r.Err? ==> (r.error == NonFiniteTpin <==> exists i :: 0 <= i < |rows| && Get(rows[i], Tpin).None?)
    ensures r.Err? ==> r.error in {NonFiniteTpin, NonIntegerTpin}
  {
    if exists i :: 0 <= i < |rows| && Get(rows[i], Tpin).None? then Err(NonFiniteTpin)
    else if exists i :: 0 <= i < |rows| && !HasIntTpin(rows[i]) then Err(NonIntegerTpin)
    else Ok(rows)
  }

  // ---------------------------------------------------------------------------
  // `sort_values(by='TPIN')` and `tail(4)`
  // ---------------------------------------------------------------------------

  /** The sort key: the integer TPIN (0 for a row without one, which the cast
      has already ruled out). */
  function Key(row: Row): int
  {
    match Get(row, Tpin)
    case Some(Num(n)) => n
    case _ => 0
  }

  predicate SortedByTpin(s: seq<Row>)
  {
    forall i, j :: 0 <= i < j < |s| ==> Key(s[i]) <= Key(s[j])
  }

  /** The first row of a sorted sequence has the smallest key. */
  lemma SortedHeadIsLeast(s: seq<Row>)
    requires SortedByTpin(s) && s != []
    ensures forall x :: x in s ==> Key(s[0]) <= Key(x)
  {
    forall x | x in s ensures Key(s[0]) <= Key(x) {
      var i :| 0 <= i < |s| && s[i] == x;
    }
  }

  /** Puts `row` into a sequence, before the first row with a larger or equal
      key. */
  function Insert(row: Row, s: seq<Row>): (r: seq<Row>)
    ensures multiset(r) == multiset(s) + multiset{row}
  {
    if s == [] then [row]
    else if Key(row) <= Key(s[0]) then [row] + s
    else
      assert s == [s[0]] + s[1..];
      [s[0]] + Insert(row, s[1..])
  }

  /** A row no larger than every row of a sorted sequence can go in front. */
  lemma PrependSorted(x: Row, s: seq<Row>)
    requires SortedByTpin(s)
    requires forall y :: y in s ==> Key(x) <= Key(y)
    ensures SortedByTpin([x] + s)
  {
    var r := [x] + s;
    forall i, j | 0 <= i < j < |r| ensures Key(r[i]) <= Key(r[j]) {
      assert r[j] == s[j - 1];
      if i > 0 {
        assert r[i] == s[i - 1];
      }
    }
  }

  /** When `row` goes past the head, every row of the inserted tail is at least
      the head. */
  lemma InsertPastHead(row: Row, s: seq<Row>)
    requires SortedByTpin(s) && s != [] && Key(row) > Key(s[0])
    ensures forall x :: x in Insert(row, s[1..]) ==> Key(s[0]) <= Key(x)
  {
    var rest := Insert(row, s[1..]);
    SortedHeadIsLeast(s);
    forall x | x in rest ensures Key(s[0]) <= Key(x) {
      assert x in multiset(rest);
      assert x == row || x in multiset(s[1..]);
      assert x == row || x in s;
    }
  }

  /** Inserting into a sorted sequence keeps it sorted. */
  lemma {:induction false} InsertSorted(row: Row, s: seq<Row>)
    requires SortedByTpin(s)
    ensures SortedByTpin(Insert(row, s))
  {
    if s != [] {
      SortedHeadIsLeast(s);
      if Key(row) > Key(s[0]) {
        InsertSorted(row, s[1..]);
        InsertPastHead(row, s);
        PrependSorted(s[0], Insert(row, s[1..]));
      } else {
        PrependSorted(row, s);
      }
    }
  }

  /** Line 38: a sort by TPIN. pandas' default sort is not stable, so all that
      is promised is that the result is a permutation of the input in
      non-decreasing TPIN order; the model happens to keep equal keys in input
      order. */
  function SortByTpin(s: seq<Row>): (r: seq<Row>)
    ensures multiset(r) == multiset(s)
  {
    if s == [] then []
    else
      assert s == [s[0]] + s[1..];
      Insert(s[0], SortByTpin(s[1..]))
  }

  /** The sort's result is in non-decreasing TPIN order. */
  lemma {:induction false} SortByTpinSorted(s: seq<Row>)
    ensures SortedByTpin(SortByTpin(s))
  {
    if s != [] {
      SortByTpinSorted(s[1..]);
      InsertSorted(s[0], SortByTpin(s[1..]));
    }
  }

  /** Line 41: the last `min(k, |s|)` rows, in order. */
  function Tail(s: seq<Row>, k: nat): (r: seq<Row>)
    ensures |r| == if k < |s| then k else |s|
    ensures forall i :: 0 <= i < |r| ==> r[i] == s[|s| - |r| + i]
  {
    if k < |s| then s[|s| - k..] else s
  }

  /** What the tail leaves out is the prefix before it. */
  lemma TailSplits(p: seq<Row>, k: nat)
    ensures multiset(Tail(p, k)) <= multiset(p)
    ensures multiset(p) - multiset(Tail(p, k)) == multiset(p[..|p| - |Tail(p, k)|])
  {
    var m := |p| - |Tail(p, k)|;
    assert p == p[..m] + Tail(p, k);
    assert multiset(p) == multiset(p[..m]) + multiset(Tail(p, k));
  }

  /** The tail of a sorted sequence is sorted. */
  lemma TailSorted(p: seq<Row>, k: nat)
    requires SortedByTpin(p)
    ensures SortedByTpin(Tail(p, k))
  {
    var t := Tail(p, k);
    var m := |p| - |t|;
    forall i, j | 0 <= i < j < |t| ensures Key(t[i]) <= Key(t[j]) {
      assert t[i] == p[m + i] && t[j] == p[m + j];
    }
  }

  /** The tail of a sorted sequence is sorted, is part of it, and holds its
      largest keys: every row left out has a key no larger than any row kept. */
  lemma TailHoldsLargest(p: seq<Row>, k: nat)
    requires SortedByTpin(p)
    ensures SortedByTpin(Tail(p, k))
    ensures multiset(Tail(p, k)) <= multiset(p)
    ensures forall x, y :: x in Tail(p, k) && y in multiset(p) - multiset(Tail(p, k)) ==> Key(y) <= Key(x)
  {
    var t := Tail(p, k);
    var m := |p| - |t|;
    var front := p[..m];
    TailSorted(p, k);
    TailSplits(p, k);
    forall x, y | x in t && y in multiset(front) ensures Key(y) <= Key(x) {
      var j :| 0 <= j < |t| && t[j] == x;
      assert y in front;
      var i :| 0 <= i < m && front[i] == y;
      assert Key(p[i]) <= Key(p[m + j]);
    }
  }

  /** The duplicate inspection as a whole: select, read the TPIN column of the
      selection (line 35's `duplicates['TPIN']`, a `KeyError` without it), cast,
      sort, take the tail. */
  function InspectDuplicates(f: Frame): (r: Result<seq<Row>>)
    requires WellFormed(f)
    ensures Tpin !in f.columns ==> r == Err(MissingColumns([Tpin]))
    ensures r.Ok? ==> |r.value| <= 4
  {
    var sel :- SelectDuplicates(f);
    if Tpin !in sel.columns then Err(MissingColumns([Tpin]))
    else
      var ints :- TpinsToInt(sel.rows);
      Ok(Tail(SortByTpin(ints), 4))
  }

  /** Every selected row has an integer TPIN exactly when every duplicate-TPIN
      row of the table has one. */
  lemma SelectionCasts(f: Frame)
    requires WellFormed(f) && Tpin in f.columns
    ensures var sel := SelectDuplicates(f).value.rows;
            (forall i :: 0 <= i < |sel| ==> HasIntTpin(sel[i])) <==>
            (forall row :: row in f.rows && IsDuplicate(f.rows, row) ==> HasIntTpin(row))
  {
    var sel := SelectDuplicates(f).value.rows;
    forall i | 0 <= i < |sel| ensures sel[i] in f.rows && IsDuplicate(f.rows, sel[i]) {
      assert sel[i] in sel;
    }
    forall row | row in f.rows && IsDuplicate(f.rows, row) ensures exists i :: 0 <= i < |sel| && sel[i] == row {
      assert row in sel;
    }
  }

  /** The inspection fails exactly when there is no TPIN column or some
      duplicate-TPIN row's TPIN is not a present integer (two or more missing
      TPINs count as duplicates of each other, so they make the cast fail). */
  lemma InspectDuplicatesFails(f: Frame)
    requires WellFormed(f)
    ensures InspectDuplicates(f).Err? <==>
            Tpin !in f.columns || exists row :: row in f.rows && IsDuplicate(f.rows, row) && !HasIntTpin(row)
  {
    if Tpin in f.columns {
      SelectionCasts(f);
      var sel := SelectDuplicates(f).value.rows;
      assert InspectDuplicates(f).Err? <==> TpinsToInt(sel).Err?;
    }
  }

  /** A successful inspection is the tail of the sorted selection, and every
      selected row then has an integer TPIN. */
  lemma InspectDuplicatesUnfolds(f: Frame)
    requires WellFormed(f) && InspectDuplicates(f).Ok?
    ensures Tpin in f.columns
    ensures var sel := SelectDuplicates(f).value.rows;
            && InspectDuplicates(f).value == Tail(SortByTpin(sel), 4)
            && forall x :: x in sel ==> x in f.rows && IsDuplicate(f.rows, x) && HasIntTpin(x)
  {
    var sel := SelectDuplicates(f).value.rows;
    assert TpinsToInt(sel).Ok?;
    forall x | x in sel ensures HasIntTpin(x) {
      var i :| 0 <= i < |sel| && sel[i] == x;
    }
  }

  /** When it succeeds, the inspection shows min(4, n) of the n selected rows,
      sorted by TPIN, each a duplicate-TPIN row of the table with an integer
      TPIN, and every selected row it leaves out has a TPIN no larger than any it
      shows. */
  lemma InspectDuplicatesShows(f: Frame)
    requires WellFormed(f)
    ensures var r := InspectDuplicates(f);
            r.Ok? ==>
              var sel := SelectDuplicates(f).value.rows;
              && |r.value| == (if 4 < |sel| then 4 else |sel|)
              && SortedByTpin(r.value)
              && multiset(r.value) <= multiset(sel)
              && (forall x :: x in r.value ==> x in f.rows && IsDuplicate(f.rows, x) && HasIntTpin(x))
              && (forall x, y :: x in r.value && y in multiset(sel) - multiset(r.value) ==> Key(y) <= Key(x))
  {
    if InspectDuplicates(f).Ok? {
      InspectDuplicatesUnfolds(f);
      var sel := SelectDuplicates(f).value.rows;
      var p := SortByTpin(sel);
      SortByTpinSorted(sel);
      TailHoldsLargest(p, 4);
      var t := Tail(p, 4);
      forall x | x in t ensures x in sel {
        assert x in multiset(t);
        assert x in multiset(p);
      }
    }
  }
}
