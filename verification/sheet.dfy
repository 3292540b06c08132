/** One data worksheet of an import workbook and the row-by-row pass that every
    sheet of TemplateService.HandleImportData follows: validate the row against
    the records accepted so far, then either annotate the row as an error or
    append one record. */
module Sheet {
  import opened Common

  /** A typed row read from the sheet, with the sheet row it came from. */
  datatype Row<T> = Row(rowIndex: int, data: T)

  /** ValidateResultImport: the verdict of a row's business-rule validation,
      tagged with the sheet once it is recorded as an error. */
  datatype ValidateResult = ValidateResult(isValid: bool, errorMessage: string, sheetIndex: int, sheetName: string)

  /** What the pass does with one row: append a record, or record an error. */
  datatype Decision<Rec> = Accept(record: Rec) | Reject(result: ValidateResult)

  /** The state a sheet's pass builds: the accepted list, the error entries, the
      error column (row index to text) and the rows painted red. */
  datatype SheetState<Rec> = SheetState(accepted: seq<Rec>, errors: seq<ValidateResult>,
                                        errorCells: map<int, string>, redRows: set<int>)

  /** The row indices of a sheet are pairwise different. */
  predicate DistinctRows<T>(rows: seq<Row<T>>)
  {
    forall i, j :: 0 <= i < j < |rows| ==> rows[i].rowIndex != rows[j].rowIndex
  }

  /** The error entry recorded for a rejected row: the verdict tagged with the sheet. */
  function Tag(result: ValidateResult, sheetIndex: int, sheetName: string): (e: ValidateResult)
    ensures e.sheetIndex == sheetIndex && e.sheetName == sheetName
    ensures e.isValid == result.isValid && e.errorMessage == result.errorMessage
  {
    result.(sheetIndex := sheetIndex, sheetName := sheetName)
  }

  /** The state after one row with sheet row index `rowIndex` is decided: an
      accepted record is appended; a rejected row gets an error entry, its
      error cell and a red font. */
  function Next<Rec>(s: SheetState<Rec>, d: Decision<Rec>, rowIndex: int, sheetIndex: int, sheetName: string)
    : SheetState<Rec>
  {
    match d
    case Accept(rec) => s.(accepted := s.accepted + [rec])
    case Reject(res) =>
      s.(errors := s.errors + [Tag(res, sheetIndex, sheetName)],
         errorCells := s.errorCells[rowIndex := res.errorMessage],
         redRows := s.redRows + {rowIndex})
  }

  /** One row decided: exactly one of the two lists grows by one entry. An
      accepted row changes nothing else; a rejected row gets its message in its
      error cell, every other cell keeping its text, and its font turns red. */
  lemma NextEffect<Rec>(s: SheetState<Rec>, d: Decision<Rec>, rowIndex: int, sheetIndex: int, sheetName: string)
    ensures var r := Next(s, d, rowIndex, sheetIndex, sheetName);
      |r.accepted| + |r.errors| == |s.accepted| + |s.errors| + 1 &&
      (d.Accept? ==> r.accepted == s.accepted + [d.record] && r.errors == s.errors &&
                     r.errorCells == s.errorCells && r.redRows == s.redRows) &&
      (d.Reject? ==> r.accepted == s.accepted && r.errors == s.errors + [Tag(d.result, sheetIndex, sheetName)] &&
                     r.errorCells.Keys == s.errorCells.Keys + {rowIndex} &&
                     r.errorCells[rowIndex] == d.result.errorMessage &&
                     (forall j :: j in s.errorCells && j != rowIndex ==> r.errorCells[j] == s.errorCells[j]) &&
                     r.redRows == s.redRows + {rowIndex})
  {
  }

  /** The state after the rows of a freshly cleared sheet are processed in
      order; `decide` sees each row and the records accepted before it. */
  function Run<T, Rec>(decide: (Row<T>, seq<Rec>) -> Decision<Rec>, sheetIndex: int, sheetName: string,
                       rows: seq<Row<T>>): SheetState<Rec>
    decreases |rows|
  {
    if rows == [] then SheetState([], [], map[], {})
    else
      var s := Run(decide, sheetIndex, sheetName, rows[..|rows| - 1]);
      var row := rows[|rows| - 1];
      Next(s, decide(row, s.accepted), row.rowIndex, sheetIndex, sheetName)
  }

  /** The decision taken for row `i`: on the row and the records accepted before it. */
  function Verdict<T, Rec>(decide: (Row<T>, seq<Rec>) -> Decision<Rec>, sheetIndex: int, sheetName: string,
                           rows: seq<Row<T>>, i: int): Decision<Rec>
    requires 0 <= i < |rows|
  {
    decide(rows[i], Run(decide, sheetIndex, sheetName, rows[..i]).accepted)
  }

  /** Running one more row extends the previous state by that row's decision. */
  lemma RunStep<T, Rec>(decide: (Row<T>, seq<Rec>) -> Decision<Rec>, sheetIndex: int, sheetName: string,
                        rows: seq<Row<T>>, i: int)
    requires 0 <= i < |rows|
    ensures Run(decide, sheetIndex, sheetName, rows[..i + 1]) ==
      Next(Run(decide, sheetIndex, sheetName, rows[..i]), Verdict(decide, sheetIndex, sheetName, rows, i),
           rows[i].rowIndex, sheetIndex, sheetName)
  {
    assert rows[..i + 1][..i] == rows[..i];
  }

  /** Every row is accepted or rejected, never both: the accepted records and
      the error entries together number the rows, and every error entry is
      tagged with this sheet. */
  lemma {:induction false} RunPartition<T, Rec>(decide: (Row<T>, seq<Rec>) -> Decision<Rec>, sheetIndex: int,
                                                sheetName: string, rows: seq<Row<T>>)
    ensures var s := Run(decide, sheetIndex, sheetName, rows);
      |s.accepted| + |s.errors| == |rows| &&
      forall k :: 0 <= k < |s.errors| ==> s.errors[k].sheetIndex == sheetIndex && s.errors[k].sheetName == sheetName
  {
    if rows != [] {
      RunPartition(decide, sheetIndex, sheetName, rows[..|rows| - 1]);
    }
  }

  /** Nothing is rolled back: the accepted list and the error list of a prefix
      of the rows are prefixes of those of the longer run. */
  lemma {:induction false} RunGrows<T, Rec>(decide: (Row<T>, seq<Rec>) -> Decision<Rec>, sheetIndex: int,
                                            sheetName: string, rows: seq<Row<T>>, i: int)
    requires 0 <= i <= |rows|
    ensures Run(decide, sheetIndex, sheetName, rows[..i]).accepted <= Run(decide, sheetIndex, sheetName, rows).accepted
    ensures Run(decide, sheetIndex, sheetName, rows[..i]).errors <= Run(decide, sheetIndex, sheetName, rows).errors
    decreases |rows|
  {
    if i < |rows| {
      var shorter := rows[..|rows| - 1];
      assert shorter[..i] == rows[..i];
      RunGrows(decide, sheetIndex, sheetName, shorter, i);
    } else {
      assert rows[..i] == rows;
    }
  }

  /** A row's verdict does not depend on the rows after it. */
  lemma VerdictPrefix<T, Rec>(decide: (Row<T>, seq<Rec>) -> Decision<Rec>, sheetIndex: int, sheetName: string,
                              rows: seq<Row<T>>, m: int, i: int)
    requires 0 <= i < m <= |rows|
    ensures Verdict(decide, sheetIndex, sheetName, rows[..m], i) == Verdict(decide, sheetIndex, sheetName, rows, i)
  {
    assert rows[..m][..i] == rows[..i];
  }

  /** The row the k-th accepted record came from: the rule accepted it there,
      seeing exactly the k records accepted before it. */
  lemma {:induction false} RunOriginAt<T, Rec>(decide: (Row<T>, seq<Rec>) -> Decision<Rec>, sheetIndex: int,
                                               sheetName: string, rows: seq<Row<T>>, k: int) returns (i: int)
    requires 0 <= k < |Run(decide, sheetIndex, sheetName, rows).accepted|
    ensures var acc := Run(decide, sheetIndex, sheetName, rows).accepted;
      0 <= i < |rows| && Run(decide, sheetIndex, sheetName, rows[..i]).accepted == acc[..k] &&
      Verdict(decide, sheetIndex, sheetName, rows, i) == Accept(acc[k]) &&
      decide(rows[i], acc[..k]) == Accept(acc[k])
    decreases |rows|
  {
    var n := |rows| - 1;
    var shorter := rows[..n];
    RunStep(decide, sheetIndex, sheetName, rows, n);
    assert rows[..n + 1] == rows;
    var prev := Run(decide, sheetIndex, sheetName, shorter).accepted;
    var acc := Run(decide, sheetIndex, sheetName, rows).accepted;
    if k < |prev| {
      i := RunOriginAt(decide, sheetIndex, sheetName, shorter, k);
      VerdictPrefix(decide, sheetIndex, sheetName, rows, n, i);
      assert shorter[..i] == rows[..i];
      assert acc[..|prev|] == prev;
      assert prev[..k] == acc[..k] && prev[k] == acc[k];
    } else {
      i := n;
      assert acc[..k] == prev;
    }
  }

  /** Every accepted record is the one some accepted row produced, from exactly
      the records accepted before it. */
  lemma RunOrigin<T, Rec>(decide: (Row<T>, seq<Rec>) -> Decision<Rec>, sheetIndex: int,
                          sheetName: string, rows: seq<Row<T>>)
    ensures var acc := Run(decide, sheetIndex, sheetName, rows).accepted;
      forall k :: 0 <= k < |acc| ==>
        (exists i :: 0 <= i < |rows| &&
           Run(decide, sheetIndex, sheetName, rows[..i]).accepted == acc[..k] &&
           Verdict(decide, sheetIndex, sheetName, rows, i) == Accept(acc[k]))
  {
    var acc := Run(decide, sheetIndex, sheetName, rows).accepted;
    forall k | 0 <= k < |acc|
      ensures exists i :: (0 <= i < |rows| &&
                Run(decide, sheetIndex, sheetName, rows[..i]).accepted == acc[..k] &&
                Verdict(decide, sheetIndex, sheetName, rows, i) == Accept(acc[k]))
    {
      var i := RunOriginAt(decide, sheetIndex, sheetName, rows, k);
    }
  }

  /** Every row that is accepted contributes its record to the final list. */
  lemma {:induction false} RunKeeps<T, Rec>(decide: (Row<T>, seq<Rec>) -> Decision<Rec>, sheetIndex: int,
                                            sheetName: string, rows: seq<Row<T>>, i: int)
    requires 0 <= i < |rows| && Verdict(decide, sheetIndex, sheetName, rows, i).Accept?
    ensures Verdict(decide, sheetIndex, sheetName, rows, i).record in Run(decide, sheetIndex, sheetName, rows).accepted
  {
    RunStep(decide, sheetIndex, sheetName, rows, i);
    RunGrows(decide, sheetIndex, sheetName, rows, i + 1);
    var upTo := Run(decide, sheetIndex, sheetName, rows[..i + 1]).accepted;
    var all := Run(decide, sheetIndex, sheetName, rows).accepted;
    assert upTo[|upTo| - 1] == Verdict(decide, sheetIndex, sheetName, rows, i).record;
    assert all[|upTo| - 1] == upTo[|upTo| - 1];
  }

  /** The rows painted red are exactly the rows with an error message. */
  lemma {:induction false} RunRedRows<T, Rec>(decide: (Row<T>, seq<Rec>) -> Decision<Rec>, sheetIndex: int,
                                              sheetName: string, rows: seq<Row<T>>)
    ensures var s := Run(decide, sheetIndex, sheetName, rows);
      s.redRows == s.errorCells.Keys
    decreases |rows|
  {
    if rows != [] {
      RunRedRows(decide, sheetIndex, sheetName, rows[..|rows| - 1]);
    }
  }

  /** A cell of the error column is set exactly when some row with that index
      was rejected. */
  lemma {:induction false} RunErrorCells<T, Rec>(decide: (Row<T>, seq<Rec>) -> Decision<Rec>, sheetIndex: int,
                                                 sheetName: string, rows: seq<Row<T>>)
    ensures var s := Run(decide, sheetIndex, sheetName, rows);
      forall r :: r in s.errorCells <==>
        exists i :: 0 <= i < |rows| && rows[i].rowIndex == r && Verdict(decide, sheetIndex, sheetName, rows, i).Reject?
    decreases |rows|
  {
    if rows != [] {
      var n := |rows| - 1;
      var shorter := rows[..n];
      RunErrorCells(decide, sheetIndex, sheetName, shorter);
      RunStep(decide, sheetIndex, sheetName, rows, n);
      assert rows[..n + 1] == rows;
      var s := Run(decide, sheetIndex, sheetName, rows);
      var prev := Run(decide, sheetIndex, sheetName, shorter);
      forall r
        ensures r in s.errorCells <==>
          exists i :: 0 <= i < |rows| && rows[i].rowIndex == r && Verdict(decide, sheetIndex, sheetName, rows, i).Reject?
      {
        if r in s.errorCells && r in prev.errorCells {
          var i :| 0 <= i < |shorter| && shorter[i].rowIndex == r && Verdict(decide, sheetIndex, sheetName, shorter, i).Reject?;
          VerdictPrefix(decide, sheetIndex, sheetName, rows, n, i);
          assert rows[i].rowIndex == r;
        }
        if exists i :: 0 <= i < |rows| && rows[i].rowIndex == r && Verdict(decide, sheetIndex, sheetName, rows, i).Reject? {
          var i :| 0 <= i < |rows| && rows[i].rowIndex == r && Verdict(decide, sheetIndex, sheetName, rows, i).Reject?;
          if i < n {
            VerdictPrefix(decide, sheetIndex, sheetName, rows, n, i);
            assert shorter[i].rowIndex == r;
          }
        }
      }
    }
  }

  /** With distinct row indices, each rejected row's error cell holds its own
      verdict's message: no later row overwrites it. */
  lemma {:induction false} RunErrorMessages<T, Rec>(decide: (Row<T>, seq<Rec>) -> Decision<Rec>, sheetIndex: int,
                                                    sheetName: string, rows: seq<Row<T>>)
    requires DistinctRows(rows)
    ensures var s := Run(decide, sheetIndex, sheetName, rows);
      forall i :: 0 <= i < |rows| && Verdict(decide, sheetIndex, sheetName, rows, i).Reject? ==>
        rows[i].rowIndex in s.errorCells &&
        s.errorCells[rows[i].rowIndex] == Verdict(decide, sheetIndex, sheetName, rows, i).result.errorMessage
    decreases |rows|
  {
    if rows != [] {
      var n := |rows| - 1;
      var shorter := rows[..n];
      RunErrorMessages(decide, sheetIndex, sheetName, shorter);
      RunStep(decide, sheetIndex, sheetName, rows, n);
      assert rows[..n + 1] == rows;
      var s := Run(decide, sheetIndex, sheetName, rows);
      forall i | 0 <= i < |rows| && Verdict(decide, sheetIndex, sheetName, rows, i).Reject?
        ensures rows[i].rowIndex in s.errorCells &&
          s.errorCells[rows[i].rowIndex] == Verdict(decide, sheetIndex, sheetName, rows, i).result.errorMessage
      {
        if i < n {
          VerdictPrefix(decide, sheetIndex, sheetName, rows, n, i);
          assert shorter[i] == rows[i];
          assert rows[i].rowIndex != rows[n].rowIndex;
        }
      }
    }
  }

  /** After the pass the error column holds a message exactly in the rows that
      were rejected, each with its own verdict's message, and exactly those rows
      are painted red; accepted rows are left blank. */
  lemma RunAnnotations<T, Rec>(decide: (Row<T>, seq<Rec>) -> Decision<Rec>, sheetIndex: int,
                               sheetName: string, rows: seq<Row<T>>)
    requires DistinctRows(rows)
    ensures var s := Run(decide, sheetIndex, sheetName, rows);
      s.redRows == s.errorCells.Keys &&
      (forall r :: r in s.errorCells <==>
         exists i :: 0 <= i < |rows| && rows[i].rowIndex == r && Verdict(decide, sheetIndex, sheetName, rows, i).Reject?) &&
      (forall i :: 0 <= i < |rows| && Verdict(decide, sheetIndex, sheetName, rows, i).Reject? ==>
         s.errorCells[rows[i].rowIndex] == Verdict(decide, sheetIndex, sheetName, rows, i).result.errorMessage)
  {
    RunRedRows(decide, sheetIndex, sheetName, rows);
    RunErrorCells(decide, sheetIndex, sheetName, rows);
    RunErrorMessages(decide, sheetIndex, sheetName, rows);
  }

  /** A data worksheet of the import workbook. The typed rows are read once;
      what the pass changes is the error column and the rows' font colour. */
  class Worksheet<T> {
    /** ws.Index and ws.Name. */
    const index: int
    const name: string
    /** The column reserved for error text (TemplateConfig.*Sheet.Error). */
    const errorColumn: int
    /** ConvertSheetToObjects: the data rows, each with its sheet row index. */
    const rows: seq<Row<T>>
    /** The error column: sheet row index to the text in that row's error cell. */
    var errorCells: map<int, string>
    /** The rows whose font is red. */
    var redRows: set<int>

    constructor (index: int, name: string, errorColumn: int, rows: seq<Row<T>>,
                 errorCells: map<int, string>, redRows: set<int>)
      ensures this.index == index && this.name == name && this.errorColumn == errorColumn
      ensures this.rows == rows && this.errorCells == errorCells && this.redRows == redRows
    {
      this.index := index;
      this.name := name;
      this.errorColumn := errorColumn;
      this.rows := rows;
      this.errorCells := errorCells;
      this.redRows := redRows;
    }

    /** ClearError: every cell's font back to black, the error column emptied. */
    method ClearError()
      modifies this
      ensures errorCells == map[] && redRows == {}
    {
      redRows := {};
      errorCells := map[];
    }

    /** SetErrorMessage: the row painted red and its error cell set to `message`;
        every other row is left as it was. */
    method SetErrorMessage(rowIndex: int, message: string)
      modifies this
      ensures redRows == old(redRows) + {rowIndex}
      ensures errorCells == old(errorCells)[rowIndex := message]
      ensures forall r :: r != rowIndex && r in old(errorCells) ==> r in errorCells && errorCells[r] == old(errorCells)[r]
    {
      redRows := redRows + {rowIndex};
      errorCells := errorCells[rowIndex := message];
    }
  }
}
