/**
 * The table model behind the trace metrics view: one row per trace point,
 * with the file name, the metric name, the hit count and the (hidden) line
 * number. The rows are the cells of a DefaultTableModel, which the
 * constructor and addTraceCounts fill in place with setValueAt.
 */
module TraceTableModel {
  import opened Traces
  import opened DecimalFormatting
  import opened TraceDataTable
  import NewRelicClient

  const ColumnNames: seq<string> := ["File Name", "Trace Name", "Num Hits", "Code Line Number"]
  const FileNameColumn := 0
  const TraceNameColumn := 1
  const NumHitsColumn := 2
  const LineNumberColumn := 3

  /** A table cell: null until set, a String, or an Integer. */
  datatype Cell = Null | Text(text: string) | Number(value: int)

  /** The row the constructor writes for a trace; the count is not known yet. */
  function RowFor(trace: Trace): seq<Cell> {
    [Text(trace.file.name), Text(trace.metricName), Null, Number(trace.lineNumber)]
  }

  /** getFormattedTraceCountString: the trace's count in "#,###" form, and
      "0" for a trace the map does not know. */
  function FormattedTraceCount(traceCounts: map<string, int>, traceName: string): (text: string)
    ensures StringToLong(text) == NewRelicClient.Get(traceCounts, traceName)
    ensures traceName !in traceCounts ==> text == "0"
    ensures text != Placeholder
  {
    var traceCount := if traceName in traceCounts then traceCounts[traceName] else 0;
    StringToLongFormatted(traceCount);
    FormatGroupedNotPlaceholder(traceCount);
    FormatGrouped(traceCount)
  }

  /** What addTraceCounts writes in the count column of a row: "--" for every
      row when the query result is empty, otherwise the formatted count. */
  function CountCell(traceCounts: map<string, int>, traceName: string): string {
    if |traceCounts| == 0 then Placeholder else FormattedTraceCount(traceCounts, traceName)
  }

  /** The placeholder appears exactly when the query result is empty, and a
      count cell otherwise reads back as the trace's count. */
  lemma CountCellMeaning(traceCounts: map<string, int>, traceName: string)
    ensures CountCell(traceCounts, traceName) == Placeholder <==> |traceCounts| == 0
    ensures |traceCounts| > 0 ==> StringToLong(CountCell(traceCounts, traceName)) == NewRelicClient.Get(traceCounts, traceName)
  {
  }

  class TraceTableModel {
    const traces: seq<Trace>
    var rows: seq<seq<Cell>>

    /** Every row has four cells, and the file name, metric name and line
      number of its trace. */
    predicate Valid()
      reads this
    {
      && |rows| == |traces|
      && forall i :: 0 <= i < |rows| ==>
           && |rows[i]| == 4
           && rows[i][FileNameColumn] == RowFor(traces[i])[FileNameColumn]
           && rows[i][TraceNameColumn] == RowFor(traces[i])[TraceNameColumn]
           && rows[i][LineNumberColumn] == RowFor(traces[i])[LineNumberColumn]
    }

    function GetRowCount(): nat
      reads this
    {
      |rows|
    }

    function GetValueAt(row: nat, column: nat): Cell
      reads this
      requires row < |rows| && column < |rows[row]|
    {
      rows[row][column]
    }

    /** DefaultTableModel.setValueAt: one cell changes. */
    method SetValueAt(value: Cell, row: nat, column: nat)
      modifies this
      requires row < |rows| && column < |rows[row]|
      ensures rows == old(rows)[row := old(rows)[row][column := value]]
    {
      rows := rows[row := rows[row][column := value]];
    }

    /** The table starts with a row of nulls per trace, and the loop fills in
      the file name, metric name and line number of each. */
    constructor(traces: seq<Trace>)
      ensures this.traces == traces
      ensures Valid()
      ensures |rows| == |traces| && forall i :: 0 <= i < |rows| ==> rows[i] == RowFor(traces[i])
    {
      this.traces := traces;
      rows := seq(|traces|, _ => [Null, Null, Null, Null]);
      new;
      var i := 0;
      while i < |traces|
        invariant 0 <= i <= |traces| && |rows| == |traces|
        invariant forall j :: 0 <= j < i ==> rows[j] == RowFor(traces[j])
        invariant forall j :: i <= j < |rows| ==> rows[j] == [Null, Null, Null, Null]
      {
        var trace := traces[i];
        SetValueAt(Text(trace.file.name), i, FileNameColumn);
        SetValueAt(Text(trace.metricName), i, TraceNameColumn);
        SetValueAt(Number(trace.lineNumber), i, LineNumberColumn);
        i := i + 1;
      }
    }

    /** No cell can be edited. */
    function IsCellEditable(row: int, column: int): (editable: bool)
      ensures !editable
    {
      false
    }

    /** getTrace: the trace behind a row; its metric name is the row's trace
      name cell. */
    function GetTrace(forRow: nat): (trace: Trace)
      reads this
      requires Valid() && forRow < |traces|
      ensures trace == traces[forRow]
      ensures GetValueAt(forRow, TraceNameColumn) == Text(trace.metricName)
    {
      traces[forRow]
    }

    /** addTraceCounts: writes the count column of every row and nothing
      else. */
    method AddTraceCounts(traceCounts: map<string, int>)
      modifies this
      requires Valid()
      ensures Valid()
      ensures |rows| == |old(rows)|
      ensures forall i :: 0 <= i < |rows| ==>
                rows[i] == old(rows)[i][NumHitsColumn := Text(CountCell(traceCounts, traces[i].metricName))]
    {
      var queryResultIsEmpty := |traceCounts| == 0;
      var nRow := GetRowCount();
      var i := 0;
      while i < nRow
        invariant 0 <= i <= nRow && |rows| == nRow && Valid()
        invariant forall j :: 0 <= j < i ==>
                    rows[j] == old(rows)[j][NumHitsColumn := Text(CountCell(traceCounts, traces[j].metricName))]
        invariant forall j :: i <= j < nRow ==> rows[j] == old(rows)[j]
      {
        var traceCountString;
        if queryResultIsEmpty {
          traceCountString := Placeholder;
        } else {
          var traceName := GetValueAt(i, TraceNameColumn).text;
          traceCountString := FormattedTraceCount(traceCounts, traceName);
        }
        SetValueAt(Text(traceCountString), i, NumHitsColumn);
        i := i + 1;
      }
    }
  }
}
