/**
 The observable effects of a run, recorded as a trace instead of being performed:
 requests to the two remote endpoints, sleeps, and writes to the output CSV file.
 */
module Events {

  /** One output row: column name to cell text. */
  type Record = map<string, string>

  datatype Event =
    | ListRequest(day: int)        // one call of the document-list endpoint for a day
    | DocRequest(docId: string)    // one call of the document-retrieval endpoint
    | Pause(seconds: nat)          // one sleep of the calling thread
    | Header(columns: seq<string>) // the header row written when the output file is created
    | Row(record: Record)          // one data row appended to the output file

  /** The data rows of a trace, in the order they were written. */
  function Rows(trace: seq<Event>): (rows: seq<Record>)
    ensures |rows| <= |trace|
    ensures (forall e :: e in trace ==> !e.Row?) ==> rows == []
  {
    if |trace| == 0 then []
    else (if trace[0].Row? then [trace[0].record] else []) + Rows(trace[1..])
  }

  lemma {:induction false} RowsAppend(a: seq<Event>, b: seq<Event>)
    ensures Rows(a + b) == Rows(a) + Rows(b)
    decreases |a|
  {
    if |a| == 0 {
      assert a + b == b;
    } else {
      assert (a + b)[0] == a[0];
      assert (a + b)[1..] == a[1..] + b;
      RowsAppend(a[1..], b);
    }
  }

}
