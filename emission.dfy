/** The two output channels of the collector: the data stream of CSV lines
    on standard output and the diagnostic lines on standard error. */
module Emission {

  /** One line on the diagnostic stream (standard error), by the message
      the program prints. Diagnostics never appear on the data stream. */
  datatype Diagnostic =
    | MeminfoError        // "Error loading meminfo"
    | LoadAverageError    // "Error loading load avg"
    | TimeError           // "Error getting time"
    | StatsWriteError     // "Error writing stats"
    | ProcSerializeError  // "Error serializing proc_info"
    | MountWriteError     // "Error writing mount info"
    | MountReadError      // "Error reading mount info"
    | InvalidInterval     // "Invalid interval (...), using default of 5 seconds"
    | NothingToDo         // "nothing to do"

  /** What one tick hands to one CSV writer: whether the writer was built
      with headers, and the records serialised through it, in order. */
  datatype Batch<R> = Batch(hasHeaders: bool, rows: seq<R>)

  /** A line of the data stream: the header line or one record. */
  datatype Line<R> = Header | Record(row: R)

  /** One record line per row, in order. */
  function RecordLines<R>(rows: seq<R>): seq<Line<R>>
  {
    seq(|rows|, k requires 0 <= k < |rows| => Record(rows[k]))
  }

  /** The lines a CSV writer produces for one batch: a writer built with
      headers writes the header line just before its first record, so a
      batch without records produces no line at all. */
  function Lines<R>(b: Batch<R>): (r: seq<Line<R>>)
    ensures forall k :: 0 < k < |r| ==> r[k].Record?
    ensures |r| > 0 ==> (r[0].Header? <==> b.hasHeaders)
    ensures |r| == 0 <==> |b.rows| == 0
  {
    if b.hasHeaders && |b.rows| > 0 then [Header] + RecordLines(b.rows) else RecordLines(b.rows)
  }

  /** The data stream produced by a sequence of batches. */
  function Stream<R>(bs: seq<Batch<R>>): seq<Line<R>>
  {
    if |bs| == 0 then [] else Stream(bs[..|bs| - 1]) + Lines(bs[|bs| - 1])
  }

  /** Number of header lines in a stretch of the data stream. */
  function HeaderCount<R>(ls: seq<Line<R>>): nat
  {
    if |ls| == 0 then 0
    else HeaderCount(ls[..|ls| - 1]) + (if ls[|ls| - 1].Header? then 1 else 0)
  }

  /** The data rows carried by a stretch of the data stream, in order. */
  function RecordsOf<R>(ls: seq<Line<R>>): seq<R>
  {
    if |ls| == 0 then []
    else RecordsOf(ls[..|ls| - 1]) + (if ls[|ls| - 1].Record? then [ls[|ls| - 1].row] else [])
  }

  /** All rows handed to the writers, batch after batch. */
  function AllRows<R>(bs: seq<Batch<R>>): seq<R>
  {
    if |bs| == 0 then [] else AllRows(bs[..|bs| - 1]) + bs[|bs| - 1].rows
  }

  /** Number of batches whose writer puts out a header line. */
  function HeadedBatches<R>(bs: seq<Batch<R>>): nat
  {
    if |bs| == 0 then 0
    else HeadedBatches(bs[..|bs| - 1]) + (if bs[|bs| - 1].hasHeaders && |bs[|bs| - 1].rows| > 0 then 1 else 0)
  }

  lemma {:induction false} HeaderCountAppend<R>(a: seq<Line<R>>, b: seq<Line<R>>)
    ensures HeaderCount(a + b) == HeaderCount(a) + HeaderCount(b)
  {
    if |b| > 0 {
      assert (a + b)[..|a + b| - 1] == a + b[..|b| - 1];
      HeaderCountAppend(a, b[..|b| - 1]);
    } else {
      assert a + b == a;
    }
  }

  lemma {:induction false} RecordsOfAppend<R>(a: seq<Line<R>>, b: seq<Line<R>>)
    ensures RecordsOf(a + b) == RecordsOf(a) + RecordsOf(b)
  {
    if |b| > 0 {
      assert (a + b)[..|a + b| - 1] == a + b[..|b| - 1];
      RecordsOfAppend(a, b[..|b| - 1]);
    } else {
      assert a + b == a;
    }
  }

  /** Record lines hold no header and give back exactly their rows. */
  lemma {:induction false} RecordsRoundTrip<R>(rows: seq<R>)
    ensures HeaderCount(RecordLines(rows)) == 0
    ensures RecordsOf(RecordLines(rows)) == rows
  {
    if |rows| > 0 {
      var init := rows[..|rows| - 1];
      assert RecordLines(rows)[..|rows| - 1] == RecordLines(init);
      RecordsRoundTrip(init);
      assert init + [rows[|rows| - 1]] == rows;
    }
  }

  /** A batch yields one header line exactly when its writer has headers
      and at least one record, and its records in order. */
  lemma LinesOfBatch<R>(b: Batch<R>)
    ensures HeaderCount(Lines(b)) == (if b.hasHeaders && |b.rows| > 0 then 1 else 0)
    ensures RecordsOf(Lines(b)) == b.rows
  {
    RecordsRoundTrip(b.rows);
    if b.hasHeaders && |b.rows| > 0 {
      var h: seq<Line<R>> := [Header];
      HeaderCountAppend(h, RecordLines(b.rows));
      RecordsOfAppend(h, RecordLines(b.rows));
      assert h[..0] == [];
    }
  }

  /** The data stream carries every row handed to the writers, in order,
      and one header line per batch whose writer writes one. */
  lemma {:induction false} StreamContents<R>(bs: seq<Batch<R>>)
    ensures RecordsOf(Stream(bs)) == AllRows(bs)
    ensures HeaderCount(Stream(bs)) == HeadedBatches(bs)
  {
    if |bs| > 0 {
      var init, last := bs[..|bs| - 1], bs[|bs| - 1];
      StreamContents(init);
      LinesOfBatch(last);
      HeaderCountAppend(Stream(init), Lines(last));
      RecordsOfAppend(Stream(init), Lines(last));
    }
  }

  /** Headers requested on the first batch only, and the first batch not
      empty: the stream has exactly one header line. */
  lemma {:induction false} HeaderOnce<R>(bs: seq<Batch<R>>)
    requires |bs| >= 1 && |bs[0].rows| > 0
    requires forall k :: 0 <= k < |bs| ==> bs[k].hasHeaders == (k == 0)
    ensures HeaderCount(Stream(bs)) == 1
  {
    StreamContents(bs);
    HeadedOnlyFirst(bs);
  }

  lemma {:induction false} HeadedOnlyFirst<R>(bs: seq<Batch<R>>)
    requires |bs| >= 1 && |bs[0].rows| > 0
    requires forall k :: 0 <= k < |bs| ==> bs[k].hasHeaders == (k == 0)
    ensures HeadedBatches(bs) == 1
  {
    if |bs| > 1 {
      HeadedOnlyFirst(bs[..|bs| - 1]);
    } else {
      assert bs[..0] == [];
    }
  }

  /** Headers requested on every batch, and no batch empty: one header line
      per batch. */
  lemma {:induction false} HeaderEveryBatch<R>(bs: seq<Batch<R>>)
    requires forall k :: 0 <= k < |bs| ==> bs[k].hasHeaders && |bs[k].rows| > 0
    ensures HeaderCount(Stream(bs)) == |bs|
  {
    StreamContents(bs);
    HeadedAll(bs);
  }

  lemma {:induction false} HeadedAll<R>(bs: seq<Batch<R>>)
    requires forall k :: 0 <= k < |bs| ==> bs[k].hasHeaders && |bs[k].rows| > 0
    ensures HeadedBatches(bs) == |bs|
  {
    if |bs| > 0 {
      HeadedAll(bs[..|bs| - 1]);
    }
  }
}
