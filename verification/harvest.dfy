/**
 The harvest: documents are taken from the end of the discovered list,
 downloaded (with retries) and turned into records; records are written to
 the output file fifty at a time with a five-second sleep after each full
 batch, and whatever is left is written once at the end without a sleep.
 A run whose output file already exists stops before writing or downloading.
 */
module Harvest {
  import opened Options
  import opened Events
  import opened Retries
  import opened Discovery
  import opened Extraction

  const BatchSize: nat := 50
  const BatchPause: nat := 5

  /**
   A response of the document-retrieval endpoint. `xbrl` is None when its
   body is not a zip archive holding an XBRL file under XBRL/PublicDoc;
   unpacking or parsing it then raises.
   */
  datatype Download = Download(status: int, xbrl: Option<Lookup>)

  /** The endpoint's response to the given attempt for the given document id. */
  type DocumentServer = (string, nat) -> Download

  // ---------------------------------------------------------------- writer

  /** The rows written by one flush of `batch`, in batch order. */
  function Flush(batch: seq<Record>): (events: seq<Event>)
    ensures |events| == |batch|
    ensures forall i :: 0 <= i < |batch| ==> events[i] == Row(batch[i])
  {
    seq(|batch|, i requires 0 <= i < |batch| => Row(batch[i]))
  }

  /**
   What the writer does with `records`, chunk by chunk: each full chunk of
   fifty is written and followed by a sleep; a final short chunk is written
   without one.
   */
  function Chunked(records: seq<Record>): seq<Event>
    decreases |records|
  {
    if |records| < BatchSize then Flush(records)
    else Flush(records[..BatchSize]) + [Pause(BatchPause)] + Chunked(records[BatchSize..])
  }

  lemma {:induction false} RowsOfFlush(batch: seq<Record>)
    ensures Rows(Flush(batch)) == batch
    decreases |batch|
  {
    if |batch| > 0 {
      assert Flush(batch)[1..] == Flush(batch[1..]);
      RowsOfFlush(batch[1..]);
      assert batch == [batch[0]] + batch[1..];
    }
  }

  /** Every record is written exactly once, in order. */
  lemma {:induction false} ChunkedRows(records: seq<Record>)
    ensures Rows(Chunked(records)) == records
    decreases |records|
  {
    if |records| < BatchSize {
      RowsOfFlush(records);
    } else {
      var head := records[..BatchSize];
      var rest := records[BatchSize..];
      var front := Flush(head) + [Pause(BatchPause)];
      assert Chunked(records) == front + Chunked(rest);
      RowsOfFlush(head);
      RowsAppend(Flush(head), [Pause(BatchPause)]);
      assert Rows([Pause(BatchPause)]) == [];
      RowsAppend(front, Chunked(rest));
      ChunkedRows(rest);
      assert records == head + rest;
    }
  }

  /** n records cause floor(n / 50) batch sleeps. */
  lemma {:induction false} ChunkedPauses(records: seq<Record>)
    ensures multiset(Chunked(records))[Pause(BatchPause)] == |records| / BatchSize
    decreases |records|
  {
    if |records| < BatchSize {
      assert Pause(BatchPause) !in Flush(records);
    } else {
      var head := records[..BatchSize];
      assert Pause(BatchPause) !in Flush(head);
      ChunkedPauses(records[BatchSize..]);
    }
  }

  /** The writer emits one event per record and one per full batch. */
  lemma {:induction false} ChunkedLength(records: seq<Record>)
    ensures |Chunked(records)| == |records| + |records| / BatchSize
    decreases |records|
  {
    if |records| >= BatchSize {
      ChunkedLength(records[BatchSize..]);
    }
  }

  lemma ShiftBatch(p: int)
    requires p > BatchSize
    ensures (p - (BatchSize + 1)) % (BatchSize + 1) == p % (BatchSize + 1)
  {
  }

  /**
   A sleep follows a write exactly when it is the fiftieth row since the last
   sleep: in the writer's events, position p is a sleep iff p mod 51 is 50.
   */
  lemma {:induction false} ChunkedShape(records: seq<Record>, p: nat)
    requires p < |Chunked(records)|
    ensures Chunked(records)[p] == Pause(BatchPause) <==> p % (BatchSize + 1) == BatchSize
    decreases |records|
  {
    if |records| < BatchSize {
      assert Chunked(records)[p] == Row(records[p]);
    } else {
      var rest := records[BatchSize..];
      var front := Flush(records[..BatchSize]) + [Pause(BatchPause)];
      assert Chunked(records) == front + Chunked(rest);
      if p < BatchSize {
        assert Chunked(records)[p] == Row(records[p]);
      } else if p > BatchSize {
        assert Chunked(records)[p] == Chunked(rest)[p - (BatchSize + 1)];
        ChunkedShape(rest, p - (BatchSize + 1));
        ShiftBatch(p);
      }
    }
  }

  /** A run whose record count is not a multiple of fifty ends with its last row, not a sleep. */
  lemma {:induction false} ChunkedEndsWithRow(records: seq<Record>)
    requires |records| % BatchSize != 0
    ensures |Chunked(records)| > 0
    ensures Chunked(records)[|Chunked(records)| - 1] == Row(records[|records| - 1])
    decreases |records|
  {
    if |records| >= BatchSize {
      var rest := records[BatchSize..];
      ChunkedEndsWithRow(rest);
    }
  }

  /** Chunking after a whole number of batches starts afresh. */
  lemma {:induction false} ChunkedAppend(full: seq<Record>, rest: seq<Record>)
    requires |full| % BatchSize == 0
    ensures Chunked(full + rest) == Chunked(full) + Chunked(rest)
    decreases |full|
  {
    if |full| == 0 {
      assert full + rest == rest;
    } else {
      assert (full + rest)[..BatchSize] == full[..BatchSize];
      assert (full + rest)[BatchSize..] == full[BatchSize..] + rest;
      ChunkedAppend(full[BatchSize..], rest);
    }
  }

  /** The header, rows and batch sleeps of a trace: what the output file and the writer saw. */
  predicate IsWriterEvent(e: Event) {
    e.Header? || e.Row? || e == Pause(BatchPause)
  }

  function WriterEvents(trace: seq<Event>): (w: seq<Event>)
    decreases |trace|
  {
    if |trace| == 0 then []
    else
      assert trace == [trace[0]] + trace[1..];
      (if IsWriterEvent(trace[0]) then [trace[0]] else []) + WriterEvents(trace[1..])
  }

  lemma {:induction false} WriterEventsAppend(a: seq<Event>, b: seq<Event>)
    ensures WriterEvents(a + b) == WriterEvents(a) + WriterEvents(b)
    decreases |a|
  {
    if |a| == 0 {
      assert a + b == b;
    } else {
      assert (a + b)[0] == a[0];
      assert (a + b)[1..] == a[1..] + b;
      WriterEventsAppend(a[1..], b);
    }
  }

  lemma {:induction false} WriterEventsOfWriter(events: seq<Event>)
    requires forall e :: e in events ==> IsWriterEvent(e)
    ensures WriterEvents(events) == events
    decreases |events|
  {
    if |events| > 0 {
      WriterEventsOfWriter(events[1..]);
      assert events == [events[0]] + events[1..];
    }
  }

  lemma {:induction false} WriterEventsOfNone(events: seq<Event>)
    requires forall e :: e in events ==> !IsWriterEvent(e)
    ensures WriterEvents(events) == []
    decreases |events|
  {
    if |events| > 0 {
      WriterEventsOfNone(events[1..]);
    }
  }

  /** Keeping the writer's events keeps every row, in order. */
  lemma {:induction false} RowsOfWriterEvents(trace: seq<Event>)
    ensures Rows(WriterEvents(trace)) == Rows(trace)
    decreases |trace|
  {
    if |trace| > 0 {
      var head: seq<Event> := if IsWriterEvent(trace[0]) then [trace[0]] else [];
      assert trace == [trace[0]] + trace[1..];
      RowsAppend([trace[0]], trace[1..]);
      RowsAppend(head, WriterEvents(trace[1..]));
      RowsOfWriterEvents(trace[1..]);
    }
  }

  /** Keeping the writer's events keeps every occurrence of each of them. */
  lemma {:induction false} WriterEventsCount(trace: seq<Event>, e: Event)
    requires IsWriterEvent(e)
    ensures multiset(WriterEvents(trace))[e] == multiset(trace)[e]
    decreases |trace|
  {
    if |trace| > 0 {
      assert trace == [trace[0]] + trace[1..];
      WriterEventsCount(trace[1..], e);
    }
  }

  // ------------------------------------------------------- one document

  /** The download requests and retry sleeps made for one document. */
  function DocFetch(server: DocumentServer, docId: string): Retried {
    Retry(DocRequest(docId), (k: nat) => server(docId, k).status)
  }

  /** The download used for a document: the response of the retry loop's last attempt. */
  function DownloadOf(server: DocumentServer, docId: string): Download {
    server(docId, DocFetch(server, docId).attempts - 1)
  }

  /** The record of a document, or None when its download cannot be unpacked and parsed. */
  function RecordOf(doc: Entry, layout: Layout, server: DocumentServer): Option<Record> {
    match DownloadOf(server, doc.docId).xbrl
    case None => None
    case Some(xbrl) => Some(Extract(doc.secCode, layout, xbrl))
  }

  /** Download-and-parse as a function of the document, for a fixed layout and endpoint. */
  function Parser(layout: Layout, server: DocumentServer): Entry -> Option<Record> {
    (doc: Entry) => RecordOf(doc, layout, server)
  }

  /**
   The download used for a document is the response to the first attempt
   that returns 200, or to the fifth attempt when none of the five does; the
   download made exactly `k + 1` requests.
   */
  lemma DownloadOfAttempt(server: DocumentServer, docId: string) returns (k: nat)
    ensures k < MaxAttempts && DownloadOf(server, docId) == server(docId, k)
    ensures DocFetch(server, docId).attempts == k + 1
    ensures forall j :: 0 <= j < k ==> server(docId, j).status != StatusOk
    ensures DownloadOf(server, docId).status == StatusOk <==>
              exists j :: 0 <= j < MaxAttempts && server(docId, j).status == StatusOk
    ensures DownloadOf(server, docId).status != StatusOk ==> k == MaxAttempts - 1
  {
    k := DocFetch(server, docId).attempts - 1;
  }

  /** A document's download makes only its download requests and ten-second sleeps: it writes nothing. */
  lemma DocFetchEvents(server: DocumentServer, docId: string)
    ensures forall e :: e in DocFetch(server, docId).trace ==> e == DocRequest(docId) || e == Pause(RetryPause)
    ensures forall e :: e in DocFetch(server, docId).trace ==> !IsWriterEvent(e)
  {
    var o := DocFetch(server, docId);
    forall e | e in o.trace
      ensures e == DocRequest(docId) || e == Pause(RetryPause)
    {
      var i :| 0 <= i < |o.trace| && o.trace[i] == e;
    }
  }

  // ------------------------------------------------------------ downloads

  /** The requests and retry sleeps of a trace: every event that is not the writer's. */
  function Fetches(trace: seq<Event>): seq<Event>
    decreases |trace|
  {
    if |trace| == 0 then []
    else
      assert trace == [trace[0]] + trace[1..];
      (if IsWriterEvent(trace[0]) then [] else [trace[0]]) + Fetches(trace[1..])
  }

  lemma {:induction false} FetchesAppend(a: seq<Event>, b: seq<Event>)
    ensures Fetches(a + b) == Fetches(a) + Fetches(b)
    decreases |a|
  {
    if |a| == 0 {
      assert a + b == b;
    } else {
      assert (a + b)[0] == a[0];
      assert (a + b)[1..] == a[1..] + b;
      FetchesAppend(a[1..], b);
    }
  }

  lemma {:induction false} FetchesOfWriter(events: seq<Event>)
    requires forall e :: e in events ==> IsWriterEvent(e)
    ensures Fetches(events) == []
    decreases |events|
  {
    if |events| > 0 {
      FetchesOfWriter(events[1..]);
    }
  }

  lemma {:induction false} FetchesOfNone(events: seq<Event>)
    requires forall e :: e in events ==> !IsWriterEvent(e)
    ensures Fetches(events) == events
    decreases |events|
  {
    if |events| > 0 {
      FetchesOfNone(events[1..]);
      assert events == [events[0]] + events[1..];
    }
  }

  /** The requests and retry sleeps of downloading each document of `order`, in that order. */
  function Downloads(order: seq<Entry>, fetch: Entry -> seq<Event>): seq<Event>
    decreases |order|
  {
    if |order| == 0 then []
    else Downloads(order[..|order| - 1], fetch) + fetch(order[|order| - 1])
  }

  /** A document's download requests and retry sleeps, for a fixed endpoint. */
  function FetchOf(server: DocumentServer): Entry -> seq<Event> {
    (doc: Entry) => DocFetch(server, doc.docId).trace
  }

  /** Every document of `order` is requested at least once. */
  lemma {:induction false} DownloadsRequestEach(order: seq<Entry>, server: DocumentServer, i: nat)
    requires i < |order|
    ensures DocRequest(order[i].docId) in Downloads(order, FetchOf(server))
    decreases |order|
  {
    var n := |order| - 1;
    var o := DocFetch(server, order[n].docId);
    if i == n {
      assert o.trace[0] == DocRequest(order[n].docId);
      assert FetchOf(server)(order[n]) == o.trace;
    } else {
      DownloadsRequestEach(order[..n], server, i);
      assert order[..n][i] == order[i];
    }
  }

  /** Downloading n documents makes between n and 5n requests, each but a successful one followed by a sleep. */
  lemma DownloadsLength(order: seq<Entry>, server: DocumentServer)
    ensures |order| <= |Downloads(order, FetchOf(server))| <= 2 * MaxAttempts * |order|
  {
    forall d: Entry
      ensures 1 <= |FetchOf(server)(d)| <= 2 * MaxAttempts
    {
      DocFetchLength(server, d.docId);
    }
    DownloadsBound(order, FetchOf(server));
  }

  /** Downloads of documents that each take one to ten events take one to ten events per document. */
  lemma {:induction false} DownloadsBound(order: seq<Entry>, fetch: Entry -> seq<Event>)
    requires forall d :: 1 <= |fetch(d)| <= 2 * MaxAttempts
    ensures |order| <= |Downloads(order, fetch)| <= 2 * MaxAttempts * |order|
    decreases |order|
  {
    if |order| > 0 {
      DownloadsBound(order[..|order| - 1], fetch);
    }
  }

  /** One document's download makes one to five requests, with at most one sleep after each. */
  lemma DocFetchLength(server: DocumentServer, docId: string)
    ensures 1 <= |DocFetch(server, docId).trace| <= 2 * MaxAttempts
  {
  }

  /** The downloads of one more document of `order`. */
  lemma DownloadsStep(order: seq<Entry>, fetch: Entry -> seq<Event>, k: nat)
    requires k < |order|
    ensures Downloads(order[..k + 1], fetch) == Downloads(order[..k], fetch) + fetch(order[k])
  {
    assert order[..k + 1][..k] == order[..k];
  }

  /**
   The records `parse` gives the documents of `order`, up to the first one it
   cannot parse: the records a run in that order produces before it stops.
   */
  function Harvested(order: seq<Entry>, parse: Entry -> Option<Record>): (recs: seq<Record>)
    ensures |recs| <= |order|
    ensures forall i :: 0 <= i < |recs| ==> parse(order[i]) == Some(recs[i])
    ensures |recs| < |order| ==> parse(order[|recs|]).None?
    decreases |order|
  {
    if |order| == 0 then []
    else
      match parse(order[0])
      case None => []
      case Some(rec) => [rec] + Harvested(order[1..], parse)
  }

  /** The documents in the order the harvest takes them: last discovered first. */
  function Reverse<T>(s: seq<T>): (r: seq<T>)
    ensures |r| == |s|
    ensures forall i :: 0 <= i < |s| ==> r[i] == s[|s| - 1 - i]
    decreases |s|
  {
    if |s| == 0 then [] else [s[|s| - 1]] + Reverse(s[..|s| - 1])
  }

  /** The document the run takes `k`-th (from 0): the run pops from the end of the list. */
  function Taken(docs: seq<Entry>, k: nat): (doc: Entry)
    requires k < |docs|
    ensures doc == Reverse(docs)[k]
  {
    docs[|docs| - 1 - k]
  }

  // ------------------------------------------------------------- the run

  datatype Status =
    | Completed
    | AlreadyExists
    | Aborted(docId: string)
    | ListingUnreadable(day: int)

  /** What a run did, in order, and how it ended. */
  datatype Run = Run(trace: seq<Event>, status: Status)

  /** A document that parses extends the harvested prefix by its record. */
  lemma HarvestedNext(order: seq<Entry>, parse: Entry -> Option<Record>, k: nat, rec: Record)
    requires k <= |Harvested(order, parse)| && k < |order|
    requires parse(order[k]) == Some(rec)
    ensures k < |Harvested(order, parse)|
    ensures Harvested(order, parse)[..k + 1] == Harvested(order, parse)[..k] + [rec]
  {
    var recs := Harvested(order, parse);
    assert k < |recs|;
    assert recs[k] == rec;
    assert recs[..k + 1] == recs[..k] + [recs[k]];
  }

  /** A document that does not parse is where the harvested prefix ends. */
  lemma HarvestedStops(order: seq<Entry>, parse: Entry -> Option<Record>, k: nat)
    requires k <= |Harvested(order, parse)| && k < |order|
    requires parse(order[k]).None?
    ensures k == |Harvested(order, parse)|
  {
  }

  /** Appending a full batch to whole batches: one flush and one sleep more. */
  lemma FlushFullBatch(flushed: seq<Record>, batch: seq<Record>)
    requires |flushed| % BatchSize == 0 && |batch| == BatchSize
    ensures |flushed + batch| % BatchSize == 0
    ensures Chunked(flushed + batch) == Chunked(flushed) + (Flush(batch) + [Pause(BatchPause)])
  {
    ChunkedAppend(flushed, batch);
    assert batch[..BatchSize] == batch && batch[BatchSize..] == [];
  }

  /**
   The records of `records` that fill whole batches: the longest prefix whose
   length is a multiple of fifty, leaving fewer than fifty behind.
   */
  function Flushed(records: seq<Record>): (done: seq<Record>)
    ensures |done| <= |records| && done == records[..|done|]
    ensures |done| % BatchSize == 0
    ensures |records| - |done| < BatchSize
  {
    records[..|records| - |records| % BatchSize]
  }

  /** The records flushed before a short batch are the whole batches among them. */
  lemma WholeBatches(flushed: seq<Record>, batch: seq<Record>)
    requires |flushed| % BatchSize == 0 && |batch| < BatchSize
    ensures flushed == Flushed(flushed + batch)
  {
    assert |flushed + batch| % BatchSize == |batch|;
  }

  /** The batch writer: the records not yet written, and the trace of the run so far. */
  datatype Writer = Writer(batch: seq<Record>, trace: seq<Event>)

  /**
   The writer's state after the records `flushed` were written in whole
   batches and the rest wait in the batch: the trace starts with the header
   and its writer events are the header and `Chunked(flushed)`.
   */
  ghost predicate Wrote(w: Writer, header: Event, flushed: seq<Record>) {
    && |w.batch| < BatchSize && |flushed| % BatchSize == 0
    && |w.trace| > 0 && w.trace[0] == header
    && WriterEvents(w.trace) == [header] + Chunked(flushed)
  }

  /** Records the requests and sleeps of one document's download. */
  function Fetched(w: Writer, fetch: seq<Event>): Writer {
    Writer(w.batch, w.trace + fetch)
  }

  /** Adds one record to the batch; a batch that reaches fifty is written, then the run sleeps. */
  function Push(w: Writer, rec: Record): Writer {
    var batch := w.batch + [rec];
    if |batch| == BatchSize then Writer([], w.trace + (Flush(batch) + [Pause(BatchPause)]))
    else Writer(batch, w.trace)
  }

  /** Writes what is left in the batch, without a sleep. */
  function Close(w: Writer): Writer {
    if |w.batch| > 0 then Writer([], w.trace + Flush(w.batch)) else w
  }

  /**
   Adding a record loses and reorders nothing: the rows written followed by
   the waiting batch grow by exactly that record. A batch reaching fifty is
   written and followed by one five-second sleep; otherwise nothing is written.
   */
  lemma PushConserves(w: Writer, rec: Record)
    ensures Rows(Push(w, rec).trace) + Push(w, rec).batch == Rows(w.trace) + w.batch + [rec]
    ensures |w.batch| < BatchSize ==> |Push(w, rec).batch| < BatchSize
    ensures |w.batch| + 1 == BatchSize ==>
              && Push(w, rec).batch == []
              && multiset(Push(w, rec).trace)[Pause(BatchPause)] == multiset(w.trace)[Pause(BatchPause)] + 1
    ensures |w.batch| + 1 != BatchSize ==> Push(w, rec).trace == w.trace
  {
    var batch := w.batch + [rec];
    if |batch| == BatchSize {
      var out := Flush(batch) + [Pause(BatchPause)];
      assert Push(w, rec) == Writer([], w.trace + out);
      RowsAppend(w.trace, out);
      FlushPauseRows(batch);
      FlushPausePauses(w.trace, batch);
      assert Rows(w.trace + out) + [] == Rows(w.trace) + batch;
    }
  }

  /** A full batch's flush and sleep write the batch's rows. */
  lemma FlushPauseRows(batch: seq<Record>)
    ensures Rows(Flush(batch) + [Pause(BatchPause)]) == batch
  {
    RowsAppend(Flush(batch), [Pause(BatchPause)]);
    RowsOfFlush(batch);
    assert Rows([Pause(BatchPause)]) == [];
  }

  /** A full batch's flush and sleep add exactly one five-second sleep to a trace. */
  lemma FlushPausePauses(trace: seq<Event>, batch: seq<Record>)
    ensures multiset(trace + (Flush(batch) + [Pause(BatchPause)]))[Pause(BatchPause)] ==
              multiset(trace)[Pause(BatchPause)] + 1
  {
    FlushIsRows(batch);
    assert Pause(BatchPause) !in Flush(batch);
    assert multiset(trace + (Flush(batch) + [Pause(BatchPause)])) ==
             multiset(trace) + multiset(Flush(batch)) + multiset([Pause(BatchPause)]);
  }

  /** Closing writes the waiting batch, in order, and adds no sleep. */
  lemma CloseConserves(w: Writer)
    ensures Close(w).batch == []
    ensures Rows(Close(w).trace) == Rows(w.trace) + w.batch
    ensures multiset(Close(w).trace)[Pause(BatchPause)] == multiset(w.trace)[Pause(BatchPause)]
  {
    if |w.batch| > 0 {
      RowsAppend(w.trace, Flush(w.batch));
      RowsOfFlush(w.batch);
      FlushIsRows(w.batch);
      assert Pause(BatchPause) !in Flush(w.batch);
      assert multiset(w.trace + Flush(w.batch)) == multiset(w.trace) + multiset(Flush(w.batch));
    } else {
      assert Rows(w.trace) + w.batch == Rows(w.trace);
    }
  }

  lemma FetchedKeeps(w: Writer, header: Event, flushed: seq<Record>, fetch: seq<Event>)
    requires Wrote(w, header, flushed)
    requires forall e :: e in fetch ==> !IsWriterEvent(e)
    ensures Wrote(Fetched(w, fetch), header, flushed)
  {
    WriterEventsOfNone(fetch);
    WriterEventsAppend(w.trace, fetch);
    assert WriterEvents(w.trace) + [] == WriterEvents(w.trace);
    assert (w.trace + fetch)[0] == w.trace[0];
  }

  /** Pushing a record keeps the writer's account: the record is flushed or waits in the batch. */
  lemma PushKeeps(w: Writer, header: Event, flushed: seq<Record>, rec: Record) returns (flushed': seq<Record>)
    requires Wrote(w, header, flushed)
    ensures Wrote(Push(w, rec), header, flushed')
    ensures flushed' + Push(w, rec).batch == flushed + w.batch + [rec]
  {
    if |w.batch| + 1 == BatchSize {
      PushFlushes(w, header, flushed, rec);
      flushed' := flushed + (w.batch + [rec]);
      assert flushed' + [] == flushed + w.batch + [rec];
    } else {
      flushed' := flushed;
      assert flushed + (w.batch + [rec]) == flushed + w.batch + [rec];
    }
  }

  /** A record that fills the batch: the fifty rows are written, then the run sleeps. */
  lemma PushFlushes(w: Writer, header: Event, flushed: seq<Record>, rec: Record)
    requires Wrote(w, header, flushed)
    requires |w.batch| + 1 == BatchSize
    ensures Push(w, rec).batch == []
    ensures Push(w, rec).trace == w.trace + (Flush(w.batch + [rec]) + [Pause(BatchPause)])
    ensures Wrote(Push(w, rec), header, flushed + (w.batch + [rec]))
  {
    var batch := w.batch + [rec];
    var out := Flush(batch) + [Pause(BatchPause)];
    FlushThenPauseWrites(batch);
    WriterAppend(w.trace, header, Chunked(flushed), out);
    FlushFullBatch(flushed, batch);
    assert (w.trace + out)[0] == w.trace[0];
  }

  /** A flush followed by its sleep holds writer events only. */
  lemma FlushThenPauseWrites(batch: seq<Record>)
    ensures forall e :: e in Flush(batch) + [Pause(BatchPause)] ==> IsWriterEvent(e)
  {
    FlushIsRows(batch);
  }

  /** Appending writer events to a trace appends them to its writer events. */
  lemma WriterAppend(trace: seq<Event>, header: Event, written: seq<Event>, out: seq<Event>)
    requires WriterEvents(trace) == [header] + written
    requires forall e :: e in out ==> IsWriterEvent(e)
    ensures WriterEvents(trace + out) == [header] + (written + out)
  {
    WriterEventsOfWriter(out);
    WriterEventsAppend(trace, out);
    assert ([header] + written) + out == [header] + (written + out);
  }

  /** Closing writes the remaining batch: the writer events become the header and all of `Chunked`. */
  lemma CloseCompletes(w: Writer, header: Event, flushed: seq<Record>)
    requires Wrote(w, header, flushed)
    ensures |Close(w).trace| > 0 && Close(w).trace[0] == header
    ensures WriterEvents(Close(w).trace) == [header] + Chunked(flushed + w.batch)
  {
    if |w.batch| > 0 {
      CloseFlushes(w, header, flushed);
    } else {
      assert flushed + w.batch == flushed;
    }
  }

  lemma CloseFlushes(w: Writer, header: Event, flushed: seq<Record>)
    requires Wrote(w, header, flushed)
    requires |w.batch| > 0
    ensures Close(w).trace == w.trace + Flush(w.batch)
    ensures WriterEvents(Close(w).trace) == [header] + Chunked(flushed + w.batch)
  {
    var batch := w.batch;
    ChunkedAppend(flushed, batch);
    assert Chunked(batch) == Flush(batch);
    FlushIsRows(batch);
    WriterAppend(w.trace, header, Chunked(flushed), Flush(batch));
  }

  /** A flush writes rows only. */
  lemma FlushIsRows(batch: seq<Record>)
    ensures forall e :: e in Flush(batch) ==> e.Row?
  {
    forall e | e in Flush(batch)
      ensures e.Row?
    {
      var i :| 0 <= i < |batch| && Flush(batch)[i] == e;
    }
  }

  /** The account of a run stopped by a document at position k of `order` that does not parse. */
  lemma AbortedAccount(order: seq<Entry>, parse: Entry -> Option<Record>,
                       w: Writer, header: Event, flushed: seq<Record>)
    requires |flushed| + |w.batch| < |order|
    requires |flushed| + |w.batch| <= |Harvested(order, parse)|
    requires flushed + w.batch == Harvested(order, parse)[..|flushed| + |w.batch|]
    requires Wrote(w, header, flushed)
    requires parse(order[|flushed| + |w.batch|]).None?
    ensures var recs := Harvested(order, parse);
            && |recs| == |flushed| + |w.batch|
            && WriterEvents(w.trace) == [header] + WholeBatchesOf(recs)
  {
    var recs := Harvested(order, parse);
    HarvestedStops(order, parse, |flushed| + |w.batch|);
    assert recs[..|recs|] == recs;
    assert flushed + w.batch == recs;
    WholeBatches(flushed, w.batch);
  }

  /** The records a run produces, in the order it takes the documents: last discovered first. */
  function Records(docs: seq<Entry>, layout: Layout, server: DocumentServer): seq<Record> {
    Harvested(Reverse(docs), Parser(layout, server))
  }

  /** What the writer has written of `records` when the run dies: the whole batches, each with its sleep. */
  function WholeBatchesOf(records: seq<Record>): seq<Event> {
    Chunked(Flushed(records))
  }

  /**
   The loop's account after some documents were taken from the end of `docs`:
   `pending` is what is left, and the records `parse` gave the taken documents
   are the written whole batches `flushed` followed by the waiting batch.
   */
  ghost predicate Progress(docs: seq<Entry>, parse: Entry -> Option<Record>, header: Event,
                           pending: seq<Entry>, w: Writer, flushed: seq<Record>)
  {
    var harvested := Harvested(Reverse(docs), parse);
    && |pending| + |flushed| + |w.batch| == |docs|
    && pending == docs[..|pending|]
    && |flushed| + |w.batch| <= |harvested|
    && flushed + w.batch == harvested[..|flushed| + |w.batch|]
    && Wrote(w, header, flushed)
  }

  lemma FetchedProgress(docs: seq<Entry>, parse: Entry -> Option<Record>, header: Event,
                        pending: seq<Entry>, w: Writer, flushed: seq<Record>, fetch: seq<Event>)
    requires Progress(docs, parse, header, pending, w, flushed)
    requires forall e :: e in fetch ==> !IsWriterEvent(e)
    ensures Progress(docs, parse, header, pending, Fetched(w, fetch), flushed)
  {
    FetchedKeeps(w, header, flushed, fetch);
  }

  /** The last pending document parses: its record goes to the writer and the account still holds. */
  lemma PushProgress(docs: seq<Entry>, parse: Entry -> Option<Record>, header: Event,
                     pending: seq<Entry>, w: Writer, flushed: seq<Record>, rec: Record)
    returns (flushed': seq<Record>)
    requires |pending| > 0
    requires Progress(docs, parse, header, pending, w, flushed)
    requires parse(pending[|pending| - 1]) == Some(rec)
    ensures Progress(docs, parse, header, pending[..|pending| - 1], Push(w, rec), flushed')
  {
    AccountStep(docs, parse, pending, flushed + w.batch, rec);
    flushed' := PushKeeps(w, header, flushed, rec);
  }

  /** The harvested prefix grows by the record of the document taken next. */
  lemma AccountStep(docs: seq<Entry>, parse: Entry -> Option<Record>,
                    pending: seq<Entry>, done: seq<Record>, rec: Record)
    requires |pending| > 0 && |pending| + |done| == |docs| && pending == docs[..|pending|]
    requires |done| <= |Harvested(Reverse(docs), parse)|
    requires done == Harvested(Reverse(docs), parse)[..|done|]
    requires parse(pending[|pending| - 1]) == Some(rec)
    ensures |done| + 1 <= |Harvested(Reverse(docs), parse)|
    ensures done + [rec] == Harvested(Reverse(docs), parse)[..|done| + 1]
    ensures pending[..|pending| - 1] == docs[..|pending| - 1]
  {
    var order := Reverse(docs);
    assert pending[|pending| - 1] == Taken(docs, |done|) == order[|done|];
    HarvestedNext(order, parse, |done|, rec);
  }

  /**
   The loop's account of downloads: the trace's requests and retry sleeps are
   the downloads of the first `taken` documents, in the order they were taken.
   */
  ghost predicate Downloaded(docs: seq<Entry>, fetch: Entry -> seq<Event>, taken: nat, trace: seq<Event>) {
    taken <= |docs| && Fetches(trace) == Downloads(Reverse(docs)[..taken], fetch)
  }

  lemma DownloadedStart(docs: seq<Entry>, fetch: Entry -> seq<Event>, header: Event)
    requires header.Header?
    ensures Downloaded(docs, fetch, 0, [header])
  {
    assert Fetches([header]) == [] + Fetches([]);
  }

  /** Writing leaves the downloads account as it is. */
  lemma DownloadedWrite(docs: seq<Entry>, fetch: Entry -> seq<Event>, taken: nat, trace: seq<Event>, out: seq<Event>)
    requires Downloaded(docs, fetch, taken, trace)
    requires forall e :: e in out ==> IsWriterEvent(e)
    ensures Downloaded(docs, fetch, taken, trace + out)
  {
    FetchesAppend(trace, out);
    FetchesOfWriter(out);
    assert Fetches(trace) + [] == Fetches(trace);
  }

  /** Downloading the next document extends the account by its requests and sleeps. */
  lemma DownloadedNext(docs: seq<Entry>, fetch: Entry -> seq<Event>, taken: nat, trace: seq<Event>)
    requires Downloaded(docs, fetch, taken, trace) && taken < |docs|
    requires forall e :: e in fetch(Reverse(docs)[taken]) ==> !IsWriterEvent(e)
    ensures Downloaded(docs, fetch, taken + 1, trace + fetch(Reverse(docs)[taken]))
  {
    var order := Reverse(docs);
    var next := fetch(order[taken]);
    FetchesAppend(trace, next);
    FetchesOfNone(next);
    DownloadsStep(order, fetch, taken);
  }

  /** Downloading the last pending document extends the account by its requests and sleeps. */
  lemma TakeDownloaded(docs: seq<Entry>, fetch: Entry -> seq<Event>, pending: seq<Entry>, w: Writer,
                        w': Writer, taken': nat)
    requires 0 < |pending| <= |docs| && pending == docs[..|pending|]
    requires Downloaded(docs, fetch, |docs| - |pending|, w.trace)
    requires forall e :: e in fetch(pending[|pending| - 1]) ==> !IsWriterEvent(e)
    requires w' == Fetched(w, fetch(pending[|pending| - 1])) && taken' == |docs| - |pending| + 1
    ensures Downloaded(docs, fetch, taken', w'.trace)
  {
    var taken := |docs| - |pending|;
    LastPendingIsTaken(docs, pending, taken);
    DownloadedNext(docs, fetch, taken, w.trace);
  }

  /** ... and handing its record to the writer keeps that account. */
  lemma TakeDownloadedPush(docs: seq<Entry>, fetch: Entry -> seq<Event>, pending: seq<Entry>, w: Writer,
                            rest: seq<Entry>, rec: Record, w': Writer)
    requires 0 < |pending| <= |docs| && pending == docs[..|pending|]
    requires Downloaded(docs, fetch, |docs| - |pending|, w.trace)
    requires forall e :: e in fetch(pending[|pending| - 1]) ==> !IsWriterEvent(e)
    requires rest == pending[..|pending| - 1]
    requires w' == Push(Fetched(w, fetch(pending[|pending| - 1])), rec)
    ensures Downloaded(docs, fetch, |docs| - |rest|, w'.trace)
  {
    TakeDownloaded(docs, fetch, pending, w, Fetched(w, fetch(pending[|pending| - 1])), |docs| - |pending| + 1);
    DownloadedPushClose(docs, fetch, |docs| - |pending| + 1, Fetched(w, fetch(pending[|pending| - 1])), rec);
  }

  /** Pushing a record and closing the writer only write. */
  lemma DownloadedPushClose(docs: seq<Entry>, fetch: Entry -> seq<Event>, taken: nat, w: Writer, rec: Record)
    requires Downloaded(docs, fetch, taken, w.trace)
    ensures Downloaded(docs, fetch, taken, Push(w, rec).trace)
    ensures Downloaded(docs, fetch, taken, Close(w).trace)
  {
    var batch := w.batch + [rec];
    if |batch| == BatchSize {
      FlushThenPauseWrites(batch);
      DownloadedWrite(docs, fetch, taken, w.trace, Flush(batch) + [Pause(BatchPause)]);
    }
    if |w.batch| > 0 {
      FlushIsRows(w.batch);
      DownloadedWrite(docs, fetch, taken, w.trace, Flush(w.batch));
    }
  }

  /**
   The account of a run abandoned at document `docId`: it is the first, in
   processing order, that does not parse, and the writer has written the
   header and the whole batches of the records before it.
   */
  ghost predicate Abandoned(docs: seq<Entry>, parse: Entry -> Option<Record>, header: Event,
                            trace: seq<Event>, docId: string)
  {
    var recs := Harvested(Reverse(docs), parse);
    && |recs| < |docs|
    && docId == Taken(docs, |recs|).docId
    && |trace| > 0 && trace[0] == header
    && WriterEvents(trace) == [header] + WholeBatchesOf(recs)
  }

  /** The last pending document does not parse: the run's account at that point. */
  lemma AbortProgress(docs: seq<Entry>, parse: Entry -> Option<Record>, header: Event,
                      pending: seq<Entry>, w: Writer, flushed: seq<Record>)
    requires |pending| > 0
    requires Progress(docs, parse, header, pending, w, flushed)
    requires parse(pending[|pending| - 1]).None?
    ensures Abandoned(docs, parse, header, w.trace, pending[|pending| - 1].docId)
    ensures |Harvested(Reverse(docs), parse)| == |docs| - |pending|
  {
    var k := |flushed| + |w.batch|;
    LastPendingIsTaken(docs, pending, k);
    AbortedAccount(Reverse(docs), parse, w, header, flushed);
  }

  /** With `k` documents taken, the last pending document is the next one taken. */
  lemma LastPendingIsTaken(docs: seq<Entry>, pending: seq<Entry>, k: nat)
    requires 0 < |pending| && |pending| + k == |docs|
    requires pending == docs[..|pending|]
    ensures k < |docs| && pending[|pending| - 1] == Taken(docs, k) == Reverse(docs)[k]
  {
    assert pending[|pending| - 1] == docs[|docs| - 1 - k];
  }

  /** Every document was taken: closing the writer completes the account of all the records. */
  lemma FinishProgress(docs: seq<Entry>, parse: Entry -> Option<Record>, header: Event,
                       w: Writer, flushed: seq<Record>)
    requires Progress(docs, parse, header, [], w, flushed)
    ensures |Harvested(Reverse(docs), parse)| == |docs|
    ensures |Close(w).trace| > 0 && Close(w).trace[0] == header
    ensures WriterEvents(Close(w).trace) == [header] + Chunked(Harvested(Reverse(docs), parse))
  {
    var harvested := Harvested(Reverse(docs), parse);
    assert |harvested| <= |docs|;
    assert harvested[..|harvested|] == harvested;
    CloseCompletes(w, header, flushed);
  }

  /**
   Downloads one document (with retries) and parses it: the requests and
   sleeps this took, and the record, or None when the download cannot be
   unpacked and parsed.
   */
  method DownloadAndParse(doc: Entry, layout: Layout, server: DocumentServer)
    returns (trace: seq<Event>, record: Option<Record>)
    ensures trace == DocFetch(server, doc.docId).trace
    ensures forall e :: e in trace ==> !IsWriterEvent(e)
    ensures record == Parser(layout, server)(doc)
    ensures record.None? <==> DownloadOf(server, doc.docId).xbrl.None?
    ensures record.Some? ==> record.value.Keys == {layout.secCodeColumn} + Names(layout.targets)
    ensures record.Some? ==> forall c :: c in record.value ==>
              record.value[c] == match LastHit(c, layout.targets, DownloadOf(server, doc.docId).xbrl.value)
                                 case Some(v) => v
                                 case None => if c == layout.secCodeColumn then doc.secCode else ""
  {
    var fetch := DocFetch(server, doc.docId);
    DocFetchEvents(server, doc.docId);
    trace := fetch.trace;
    var download := server(doc.docId, fetch.attempts - 1);
    match download.xbrl {
      case None => record := None;
      case Some(xbrl) =>
        record := Some(Extract(doc.secCode, layout, xbrl));
        forall c | c in record.value
          ensures record.value[c] == match LastHit(c, layout.targets, xbrl)
                                     case Some(v) => v
                                     case None => if c == layout.secCodeColumn then doc.secCode else ""
        {
          ExtractValues(doc.secCode, layout, xbrl, c);
        }
    }
  }

  /**
   One iteration of the harvest loop: pops the last pending document,
   downloads it with retries and parses it. Returns the id of a document that
   cannot be parsed; otherwise hands its record to the writer.
   */
  method TakeLast(docs: seq<Entry>, layout: Layout, server: DocumentServer,
                  pending: seq<Entry>, w: Writer, ghost flushed: seq<Record>)
    returns (rest: seq<Entry>, w': Writer, ghost flushed': seq<Record>, failed: Option<string>,
             ghost fetched: seq<Event>, ghost pushed: Record)
    requires |pending| > 0
    requires Progress(docs, Parser(layout, server), Header(layout.header), pending, w, flushed)
    ensures fetched == DocFetch(server, pending[|pending| - 1].docId).trace
    ensures forall e :: e in fetched ==> !IsWriterEvent(e)
    ensures failed.None? ==> rest == pending[..|pending| - 1] && w' == Push(Fetched(w, fetched), pushed)
    ensures failed.None? ==>
              |rest| < |pending| && Progress(docs, Parser(layout, server), Header(layout.header), rest, w', flushed')
    ensures failed.Some? ==> w' == Fetched(w, fetched)
    ensures failed.Some? ==> |Harvested(Reverse(docs), Parser(layout, server))| == |docs| - |pending|
    ensures failed.Some? ==> Abandoned(docs, Parser(layout, server), Header(layout.header), w'.trace, failed.value)
  {
    var doc := pending[|pending| - 1];
    rest := pending[..|pending| - 1];
    var fetchTrace, record := DownloadAndParse(doc, layout, server);
    fetched := fetchTrace;
    FetchedProgress(docs, Parser(layout, server), Header(layout.header), pending, w, flushed, fetchTrace);
    w' := Fetched(w, fetchTrace);
    if record.None? {
      AbortProgress(docs, Parser(layout, server), Header(layout.header), pending, w', flushed);
      flushed' := flushed;
      failed := Some(doc.docId);
      pushed := map[];
      return;
    }
    pushed := record.value;
    flushed' := PushProgress(docs, Parser(layout, server), Header(layout.header), pending, w', flushed, pushed);
    w' := Push(w', record.value);
    failed := None;
  }

  /**
   How a run that got past the existence check ended: either every document
   parsed and the writer was closed over all the records, or the run was
   abandoned at the first document that does not parse.
   */
  ghost predicate Settled(docs: seq<Entry>, parse: Entry -> Option<Record>, fetch: Entry -> seq<Event>,
                          header: Event, r: Run) {
    match r.status
    case Completed =>
      && |Harvested(Reverse(docs), parse)| == |docs|
      && |r.trace| > 0 && r.trace[0] == header
      && WriterEvents(r.trace) == [header] + Chunked(Harvested(Reverse(docs), parse))
      && Downloaded(docs, fetch, |docs|, r.trace)
    case Aborted(docId) =>
      && Abandoned(docs, parse, header, r.trace, docId)
      && Downloaded(docs, fetch, |Harvested(Reverse(docs), parse)| + 1, r.trace)
    case _ => false
  }

  /** Before any document is taken, both accounts hold for a writer that has written only the header. */
  lemma StartAccount(docs: seq<Entry>, parse: Entry -> Option<Record>, header: Event, fetch: Entry -> seq<Event>,
                     w: Writer)
    requires header.Header? && w == Writer([], [header])
    ensures Progress(docs, parse, header, docs, w, [])
    ensures Downloaded(docs, fetch, |docs| - |docs|, w.trace)
  {
    WriterEventsOfWriter([header]);
    DownloadedStart(docs, fetch, header);
  }

  /** An aborted run is settled when its writer's account and its downloads account both hold. */
  lemma AbortedSettled(docs: seq<Entry>, parse: Entry -> Option<Record>, fetch: Entry -> seq<Event>,
                       header: Event, r: Run)
    requires r.status.Aborted?
    requires Abandoned(docs, parse, header, r.trace, r.status.docId)
    requires Downloaded(docs, fetch, |Harvested(Reverse(docs), parse)| + 1, r.trace)
    ensures Settled(docs, parse, fetch, header, r)
  {
  }

  /** A run that took every document is settled once the writer is closed. */
  lemma CloseSettles(docs: seq<Entry>, parse: Entry -> Option<Record>, header: Event, fetch: Entry -> seq<Event>,
                     pending: seq<Entry>, w: Writer, flushed: seq<Record>)
    requires |pending| == 0
    requires Progress(docs, parse, header, pending, w, flushed)
    requires Downloaded(docs, fetch, |docs| - |pending|, w.trace)
    ensures Settled(docs, parse, fetch, header, Run(Close(w).trace, Completed))
  {
    assert pending == [];
    FinishProgress(docs, parse, header, w, flushed);
    DownloadedPushClose(docs, fetch, |docs|, w, map[]);
  }

  /** The facts a settled run states, one by one. */
  lemma SettledRun(docs: seq<Entry>, parse: Entry -> Option<Record>, fetch: Entry -> seq<Event>,
                   header: Event, r: Run)
    requires Settled(docs, parse, fetch, header, r)
    ensures r.status.Completed? || r.status.Aborted?
    ensures |r.trace| > 0 && r.trace[0] == header
    ensures r.status == Completed <==> |Harvested(Reverse(docs), parse)| == |docs|
    ensures r.status == Completed ==> WriterEvents(r.trace) == [header] + Chunked(Harvested(Reverse(docs), parse))
    ensures r.status.Aborted? ==> |Harvested(Reverse(docs), parse)| < |docs|
    ensures r.status.Aborted? ==>
              r.status.docId == Taken(docs, |Harvested(Reverse(docs), parse)|).docId
    ensures r.status.Aborted? ==>
              WriterEvents(r.trace) == [header] + WholeBatchesOf(Harvested(Reverse(docs), parse))
    ensures r.status == Completed ==> Fetches(r.trace) == Downloads(Reverse(docs), fetch)
    ensures r.status.Aborted? ==>
              Fetches(r.trace) == Downloads(Reverse(docs)[..|Harvested(Reverse(docs), parse)| + 1], fetch)
  {
    match r.status {
      case Completed =>
        assert Reverse(docs)[..|docs|] == Reverse(docs);
      case Aborted(docId) =>
        assert Abandoned(docs, parse, header, r.trace, docId);
    }
  }

  /**
   Writes the header, then takes the documents from the end of `docs`,
   downloading and parsing each and handing its record to the writer, until a
   document does not parse or none is left. The ghost `fetch` names each
   document's download requests and retry sleeps for the proof.
   */
  method WriteAll(docs: seq<Entry>, layout: Layout, server: DocumentServer, ghost fetch: Entry -> seq<Event>)
    returns (r: Run)
    requires forall doc {:trigger DocFetch(server, doc.docId)} :: fetch(doc) == DocFetch(server, doc.docId).trace
    ensures Settled(docs, Parser(layout, server), fetch, Header(layout.header), r)
  {
    var header := Header(layout.header);
    var pending := docs;
    var w := Writer([], [header]);
    ghost var flushed: seq<Record> := [];
    StartAccount(docs, Parser(layout, server), header, fetch, w);
    while |pending| > 0
      invariant Progress(docs, Parser(layout, server), header, pending, w, flushed)
      invariant Downloaded(docs, fetch, |docs| - |pending|, w.trace)
      decreases |pending|
    {
      var rest, w', failed;
      ghost var flushed', fetched, pushed;
      rest, w', flushed', failed, fetched, pushed := TakeLast(docs, layout, server, pending, w, flushed);
      if failed.Some? {
        TakeDownloaded(docs, fetch, pending, w, w', |Harvested(Reverse(docs), Parser(layout, server))| + 1);
        AbortedSettled(docs, Parser(layout, server), fetch, header, Run(w'.trace, Aborted(failed.value)));
        return Run(w'.trace, Aborted(failed.value));
      }
      TakeDownloadedPush(docs, fetch, pending, w, rest, pushed, w');
      pending, w, flushed := rest, w', flushed';
    }
    CloseSettles(docs, Parser(layout, server), header, fetch, pending, w, flushed);
    w := Close(w);
    return Run(w.trace, Completed);
  }

  /**
   The harvest of the discovered documents `docs`. When the output file
   exists nothing happens. Otherwise the header is written, and the documents
   are taken from the end of the list; the writer's events are those of
   `Chunked` over the records in that order. A document that cannot be
   parsed aborts the run; the records of its unfinished batch are lost.
   */
  method Harvest(docs: seq<Entry>, destinationExists: bool, layout: Layout, server: DocumentServer)
    returns (r: Run)
    ensures r.status == AlreadyExists <==> destinationExists
    ensures destinationExists ==> r.trace == []
    ensures !destinationExists ==> |r.trace| > 0 && r.trace[0] == Header(layout.header)
    ensures !r.status.ListingUnreadable?
    ensures r.status == Completed <==> !destinationExists && |Records(docs, layout, server)| == |docs|
    ensures r.status == Completed ==>
              WriterEvents(r.trace) == [Header(layout.header)] + Chunked(Records(docs, layout, server))
    ensures r.status.Aborted? ==> |Records(docs, layout, server)| < |docs|
    ensures r.status.Aborted? ==> r.status.docId == Taken(docs, |Records(docs, layout, server)|).docId
    ensures r.status.Aborted? ==>
              WriterEvents(r.trace) == [Header(layout.header)] + WholeBatchesOf(Records(docs, layout, server))
    ensures r.status == Completed ==> Fetches(r.trace) == Downloads(Reverse(docs), FetchOf(server))
    ensures r.status.Aborted? ==>
              Fetches(r.trace) == Downloads(Reverse(docs)[..|Records(docs, layout, server)| + 1], FetchOf(server))
  {
    if destinationExists {
      return Run([], AlreadyExists);
    }
    r := WriteAll(docs, layout, server, FetchOf(server));
    SettledRun(docs, Parser(layout, server), FetchOf(server), Header(layout.header), r);
  }

}
