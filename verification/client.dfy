/**
 The client's two entry points composed from the parts: the document list of
 the target term, and the full run that searches, then downloads, extracts
 and writes the records unless the output file already exists.
 */
module Client {
  import opened Events
  import opened Term
  import opened Discovery
  import opened Extraction
  import opened Harvest

  /**
   The calendar's numbering of days. Date arithmetic (differences and adding
   a number of days) is taken from it rather than modelled.
   */
  type DayNumber = Date -> int

  /** The days searched for a term, as day numbers. */
  function DaysOf(term: Term, ordinal: DayNumber): seq<int> {
    DayList(ordinal(term.start), ordinal(term.end))
  }

  /**
   After the term is overridden, the days searched are those from the new
   start day up to the new end day, the end day included; the bounds are not
   checked, so an end before the start searches only the end day.
   */
  lemma SetTargetTermSearches(start: Date, end: Date, ordinal: DayNumber, d: int)
    ensures d in DaysOf(SetTargetTerm(start, end), ordinal) <==>
              d == ordinal(end) || ordinal(start) <= d < ordinal(end)
    ensures ordinal(end) <= ordinal(start) ==> DaysOf(SetTargetTerm(start, end), ordinal) == [ordinal(end)]
  {
    DayListMembers(ordinal(start), ordinal(end), d);
  }

  /**
   The term built from two clock readings across midnight on 31 March 2022
   (`ConstructedTerm`) starts on 1 April 2022, after its end: only the end day
   is searched.
   */
  lemma MidnightTermSearchesEnd(ordinal: DayNumber)
    requires ordinal(Date(2022, 3, 31)) < ordinal(Date(2022, 4, 1))
    ensures DaysOf(ConstructedTerm(Date(2022, 3, 31), 4), ordinal) == [ordinal(Date(2022, 3, 31))]
  {
    ConstructedTermAcrossMidnight();
  }

  /**
   The annual reports of the target term: all annual reports in the listings
   of the searched days, in day order and, within a day, in listing order. A
   search that fails names the first day of the term whose listing cannot be
   read.
   */
  function DocumentList(term: Term, ordinal: DayNumber, listings: ListingServer): (r: Discovery)
    ensures r.Found? <==> forall i :: 0 <= i < |DaysOf(term, ordinal)| ==>
                            ListingOf(listings, DaysOf(term, ordinal)[i]).results.Some?
    ensures r.Found? ==> && AllResults(DaysOf(term, ordinal), Listings(listings)).Some?
                         && r.docs == KeepAnnualReports(AllResults(DaysOf(term, ordinal), Listings(listings)).value)
    ensures r.Found? ==> forall e :: e in r.docs ==> IsAnnualReport(e)
    ensures r.Unreadable? ==> FirstUnreadable(DaysOf(term, ordinal), listings, r.day)
    ensures forall e :: e in r.trace ==> IsDiscoveryEvent(e)
  {
    var days := DaysOf(term, ordinal);
    DiscoverFindsAnnualReports(days, listings);
    AllResultsReadable(days, Listings(listings));
    FoundReadable(days, listings);
    if Discover(days, listings).Unreadable? then
      SearchFailsAtFirst(days, listings);
      Discover(days, listings)
    else
      Discover(days, listings)
  }

  /** A failed search names the first day whose listing cannot be read. */
  lemma SearchFailsAtFirst(days: seq<int>, listings: ListingServer)
    requires Discover(days, listings).Unreadable?
    ensures FirstUnreadable(days, listings, Discover(days, listings).day)
  {
    var i := DiscoverStopsAtFirst(days, listings);
  }

  /** `day` is the first day of `days` whose listing cannot be read. */
  ghost predicate FirstUnreadable(days: seq<int>, listings: ListingServer, day: int) {
    && ListingOf(listings, day).results.None?
    && exists i :: && 0 <= i < |days| && days[i] == day
                   && forall j :: 0 <= j < i ==> ListingOf(listings, days[j]).results.Some?
  }

  /** Every listing of `days` is readable iff, as the search reads them, all of them are. */
  lemma FoundReadable(days: seq<int>, listings: ListingServer)
    ensures (forall i :: 0 <= i < |days| ==> Listings(listings)(days[i]).Some?) <==>
            (forall i :: 0 <= i < |days| ==> ListingOf(listings, days[i]).results.Some?)
  {
  }

  /**
   The rows of a trace made of discovery events followed by a harvest whose
   writer wrote the header and then `records` in chunks are `records`.
   */
  lemma WrittenRows(search: seq<Event>, harvest: seq<Event>, header: Event, records: seq<Record>)
    requires forall e :: e in search ==> IsDiscoveryEvent(e)
    requires header.Header?
    requires WriterEvents(harvest) == [header] + Chunked(records)
    ensures Rows(search + harvest) == records
  {
    assert Rows(search) == [];
    RowsAppend(search, harvest);
    RowsOfWriterEvents(harvest);
    assert Rows([header]) == [];
    RowsAppend([header], Chunked(records));
    ChunkedRows(records);
  }

  /** The requests and sleeps of a search are all kept by `Fetches`, ahead of the harvest's. */
  lemma SearchFetches(search: seq<Event>, harvest: seq<Event>)
    requires forall e :: e in search ==> IsDiscoveryEvent(e)
    ensures Fetches(search + harvest) == search + Fetches(harvest)
  {
    FetchesAppend(search, harvest);
    FetchesOfNone(search);
  }

  /** A search writes nothing: the writer's events of the run are the harvest's, in place. */
  lemma SearchWriterEvents(search: seq<Event>, harvest: seq<Event>)
    requires forall e :: e in search ==> IsDiscoveryEvent(e)
    ensures WriterEvents(search + harvest) == WriterEvents(harvest)
  {
    WriterEventsAppend(search, harvest);
    WriterEventsOfNone(search);
  }

  /** Such a trace sleeps five seconds once per full batch of `records`. */
  lemma WrittenPauses(search: seq<Event>, harvest: seq<Event>, header: Event, records: seq<Record>)
    requires forall e :: e in search ==> IsDiscoveryEvent(e)
    requires header.Header?
    requires WriterEvents(harvest) == [header] + Chunked(records)
    ensures multiset(search + harvest)[Pause(BatchPause)] == |records| / BatchSize
  {
    assert Pause(BatchPause) !in search;
    assert multiset(search + harvest) == multiset(search) + multiset(harvest);
    WriterEventsCount(harvest, Pause(BatchPause));
    assert multiset([header] + Chunked(records)) == multiset([header]) + multiset(Chunked(records));
    ChunkedPauses(records);
  }

  /**
   The full run: the search over the term always happens first. A failed
   search ends the run; an existing output file ends it before anything is
   downloaded or written. Otherwise the rows written are the records in
   processing order, up to the first document that does not parse, minus the
   unfinished batch in that case.
   */
  method GetDocumentData(term: Term, ordinal: DayNumber, destinationExists: bool, layout: Layout,
                         listings: ListingServer, documents: DocumentServer)
    returns (r: Run)
    ensures DocumentList(term, ordinal, listings).trace <= r.trace
    ensures r.status.ListingUnreadable? <==> DocumentList(term, ordinal, listings).Unreadable?
    ensures r.status.ListingUnreadable? ==> FirstUnreadable(DaysOf(term, ordinal), listings, r.status.day)
    ensures r.status == AlreadyExists <==> destinationExists && DocumentList(term, ordinal, listings).Found?
    ensures r.status.ListingUnreadable? || r.status == AlreadyExists ==>
              forall e :: e in r.trace ==> IsDiscoveryEvent(e)
    ensures r.status.ListingUnreadable? || r.status == AlreadyExists ==>
              r.trace == DocumentList(term, ordinal, listings).trace
    ensures r.status == Completed || r.status.Aborted? ==>
              var search := DocumentList(term, ordinal, listings).trace;
              |r.trace| > |search| && r.trace[|search|] == Header(layout.header)
    ensures r.status == Completed ==>
              var found := DocumentList(term, ordinal, listings);
              Fetches(r.trace) == found.trace + Downloads(Reverse(found.docs), FetchOf(documents))
    ensures r.status == Completed ==>
              var docs := DocumentList(term, ordinal, listings).docs;
              && |Records(docs, layout, documents)| == |docs|
              && Rows(r.trace) == Records(docs, layout, documents)
              && multiset(r.trace)[Pause(BatchPause)] == |docs| / BatchSize
              && WriterEvents(r.trace) == [Header(layout.header)] + Chunked(Records(docs, layout, documents))
    ensures r.status.Aborted? ==>
              var docs := DocumentList(term, ordinal, listings).docs;
              var recs := Records(docs, layout, documents);
              && |recs| < |docs|
              && r.status.docId == Taken(docs, |recs|).docId
              && Rows(r.trace) == Flushed(recs)
              && WriterEvents(r.trace) == [Header(layout.header)] + WholeBatchesOf(recs)
              && Fetches(r.trace) == DocumentList(term, ordinal, listings).trace
                                      + Downloads(Reverse(docs)[..|recs| + 1], FetchOf(documents))
  {
    var found := DocumentList(term, ordinal, listings);
    if found.Unreadable? {
      return Run(found.trace, ListingUnreadable(found.day));
    }
    r := HarvestFound(found.trace, found.docs, destinationExists, layout, documents);
  }

  /**
   The run after a successful search that found `docs` with the requests and
   sleeps `search`: nothing more happens when the output file exists;
   otherwise the header directly follows the search, the run's rows are the
   records written by the harvest, and its other events are the search
   followed by the downloads of the documents taken.
   */
  method HarvestFound(search: seq<Event>, docs: seq<Entry>, destinationExists: bool, layout: Layout,
                      documents: DocumentServer)
    returns (r: Run)
    requires forall e :: e in search ==> IsDiscoveryEvent(e)
    ensures search <= r.trace
    ensures !r.status.ListingUnreadable?
    ensures r.status == AlreadyExists <==> destinationExists
    ensures r.status == AlreadyExists ==> r.trace == search
    ensures !destinationExists ==> |r.trace| > |search| && r.trace[|search|] == Header(layout.header)
    ensures r.status == Completed ==> Fetches(r.trace) == search + Downloads(Reverse(docs), FetchOf(documents))
    ensures r.status == Completed ==>
              && |Records(docs, layout, documents)| == |docs|
              && Rows(r.trace) == Records(docs, layout, documents)
              && multiset(r.trace)[Pause(BatchPause)] == |docs| / BatchSize
              && WriterEvents(r.trace) == [Header(layout.header)] + Chunked(Records(docs, layout, documents))
    ensures r.status.Aborted? ==>
              var recs := Records(docs, layout, documents);
              && |recs| < |docs|
              && r.status.docId == Taken(docs, |recs|).docId
              && Rows(r.trace) == Flushed(recs)
              && WriterEvents(r.trace) == [Header(layout.header)] + WholeBatchesOf(recs)
              && Fetches(r.trace) == search + Downloads(Reverse(docs)[..|recs| + 1], FetchOf(documents))
  {
    var harvest := Harvest.Harvest(docs, destinationExists, layout, documents);
    r := Run(search + harvest.trace, harvest.status);
    ghost var recs := Records(docs, layout, documents);
    match harvest.status {
      case AlreadyExists =>
        assert search + [] == search;
      case Completed =>
        SearchFetches(search, harvest.trace);
        SearchWriterEvents(search, harvest.trace);
        WrittenRows(search, harvest.trace, Header(layout.header), recs);
        WrittenPauses(search, harvest.trace, Header(layout.header), recs);
      case Aborted(docId) =>
        SearchFetches(search, harvest.trace);
        SearchWriterEvents(search, harvest.trace);
        WrittenRows(search, harvest.trace, Header(layout.header), Flushed(recs));
    }
  }

}
