# edinet-search: a Dafny model of the EDINET client

This project models the `Edinet` client of edinet-search. The client has two entry points:

- One searches the EDINET document-list endpoint for the annual securities reports filed over a term of days.
- The other also downloads every report found, extracts configured XBRL fields, and writes them as CSV rows.

The model keeps the client's rules:

- the default term (the fiscal year to date);
- how the term becomes a list of days;
- the five-attempt retry loop on both endpoints;
- the annual-report filter and the two-second throttle every tenth day;
- building a record from a parsed XBRL document;
- taking documents from the end of the list;
- writing rows fifty at a time, with a five-second sleep after every full batch;
- returning early when the output file already exists.

The outside world is abstracted:

- An endpoint is a function from (request, attempt number) to a response. A response is a status and a payload; the payload is `None` when it cannot be read.
- The parsed XBRL document is a lookup from (element key, context id) to an optional value.
- The calendar is a day-numbering function.
- Requests, sleeps and CSV writes are recorded as a trace of events (`Events.Event`) instead of being performed.

Modules, following `app/edinet.py`:

| file | module | part of the client |
|---|---|---|
| options.dfy | Options | optional values |
| events.dfy | Events | the trace: requests, sleeps, header and rows |
| term.dfy | Term | `__init__`, `set_target_term`, `__make_day_list` |
| retry.dfy | Retries | the retry loops of `__search_document` and `__download_xbrl` |
| discovery.dfy | Discovery | `__search_document` |
| extraction.dfy | Extraction | the record building of `__parse_xbrl` |
| harvest.dfy | Harvest | the download and batching loop of `get_document_data` |
| client.dfy | Client | `get_document_list` and `get_document_data` end to end |

Two facts about the code that the model keeps:

- The day list does not repeat the end date. The list is `start + k` for `k` below `end - start`, and then `end` once.
- Only status 200 ends the retry loop; any other status, including other 2xx statuses, counts as a failed attempt.

## Model

| member | source | states |
|---|---|---|
| Term.DefaultTerm | app/edinet.py:32-41 | With one reading of the clock, the default term ends today and starts on April 1. That start is the last April 1 not after today, so today falls before the next April 1. It is April 1 of the previous year in January to March, and of the current year otherwise. |
| Term.ConstructedTerm | app/edinet.py:32-41 | The constructor's term ends today and starts on April 1 of this year or the previous one. It reads the clock a second time for the month that picks the start year; when both readings fall on the same day, the term is the default term. |
| Term.ConstructedTermAcrossMidnight | app/edinet.py:33-34 | Readings on 2022-03-31 and then in April give a start of 2022-04-01 after the end 2022-03-31. Readings on 2022-12-31 and then in January give a start of 2021-04-01, more than a fiscal year before the end. |
| Term.FiscalYearUnique | app/edinet.py:32-41 | Only one April 1 can start the fiscal year containing a date, and it is the default term's start. |
| Term.DefaultTermExamples | tests/test_edinet.py:9-28 | On 2022-03-31 the term is 2021-04-01 to 2022-03-31. On 2022-11-22 it is 2022-04-01 to 2022-11-22. |
| Term.DayList | app/edinet.py:64-73 | When start < end, the days are start, start+1, …, end: end - start + 1 days, strictly increasing, each once. Otherwise the list is exactly [end]. In every case the last day is the end. |
| Term.DayListMembers | app/edinet.py:64-73 | A day is searched iff it is the end day or lies in [start, end). |
| Term.DayListExamples | app/edinet.py:64-73 | A term of three days yields three days, not four. A reversed or one-day term yields only its end. |
| Client.MidnightTermSearchesEnd | app/edinet.py:32-41 | The term built from readings on 2022-03-31 and then in April makes the search cover only its end day, 2022-03-31. |
| Client.SetTargetTermSearches | app/edinet.py:43-53 | After the bounds are overridden, the searched days are those from the new start up to and including the new end. The bounds are not checked: a reversed term searches only its end day. |
| Retries.Retry | app/edinet.py:142-151 | Between 1 and 5 attempts are made, and every attempt before the last failed. The last attempt succeeded iff some attempt among the first five returns 200. A run without a 200 makes all 5 attempts. The trace alternates request and 10-second sleep, with no sleep after the success. |
| Retries.RetryFrom | app/edinet.py:142-151 | The same account for the attempts from k on. The recursion stops at the first 200 or at the fifth attempt. |
| Discovery.ListingOfAttempt | app/edinet.py:142-153 | A day's fetch (`DayFetch`) makes k + 1 requests, and the listing read afterwards (`ListingOf`) is the response to attempt k: the first attempt that returns 200, or the fifth when none of the five does. |
| Discovery.KeepAnnualReports | app/edinet.py:155-159 | Keeps exactly the entries with ordinance code "010" and form code "030000", each as often as it occurs. An entry matching only one of the codes is dropped. |
| Discovery.KeepAnnualReportsAppend | app/edinet.py:155-159 | Filtering a concatenation concatenates the filtered parts, so the filter keeps provider order. |
| Discovery.AllResultsStep | app/edinet.py:153-159 | One more day extends the concatenated listings by that day's entries, and they exist iff they did before and the new day's listing can be read. |
| Discovery.AllResultsReadable | app/edinet.py:153-155 | The concatenated listings exist iff every day's listing (the one from the last retry attempt) can be read. |
| Discovery.AllResultsSource | app/edinet.py:155-159 | Every entry of the concatenation comes from the listing of some searched day. |
| Discovery.AllResultsKeeps | app/edinet.py:155-159 | Every entry of every day's listing is in the concatenation. |
| Discovery.Discover | app/edinet.py:140-164 | A successful search's trace is every day's listing requests and retry sleeps, each followed by its throttle sleep, in day order. A failed search names a day of the list whose listing cannot be read. The trace holds only listing requests and 10- and 2-second sleeps. |
| Discovery.SearchDay | app/edinet.py:140-162 | One day's step succeeds iff that day's listing can be read. It then appends the listing's annual reports to the documents, and the day's requests, retry sleeps and throttle sleep (at indices divisible by ten) to the trace. On failure it appends only the requests and retry sleeps. |
| Discovery.DiscoverStopsAtFirst | app/edinet.py:140-153 | A failed search stops at the first day of the list whose listing cannot be read. Every earlier day was searched in full, and the failing day's requests and retry sleeps end the trace. |
| Discovery.DiscoverFindsAnnualReports | app/edinet.py:139-164 | The search succeeds iff every day's listing can be read. It then finds the filtered concatenation of all listings, in day-list order. |
| Discovery.DiscoveredDocs | app/edinet.py:155-159 | After a successful search, an entry is found iff it is an annual report in the listing of some searched day. |
| Discovery.DayFetchEvents | app/edinet.py:142-151 | One day's fetch makes only that day's listing requests and 10-second sleeps. |
| Discovery.ThrottlesStep | app/edinet.py:160-162 | Adding a day adds a throttle sleep exactly when its index is divisible by ten. |
| Discovery.SearchTraceThrottles | app/edinet.py:160-162 | Searching n days sleeps 2 seconds ⌈n/10⌉ times; the retry sleeps are 10 seconds and never count. |
| Discovery.DiscoverThrottles | app/edinet.py:160-162 | A successful search of n days sleeps 2 seconds ⌈n/10⌉ times. |
| Extraction.LastHit | app/edinet.py:218-220 | The value for a column is None iff no target for it yields a value. Otherwise it is the value of the last target for that column that does. |
| Extraction.Place | app/edinet.py:219-222 | One loop step adds the target's column and leaves every other column alone. The column takes the lookup's value on a hit; on a miss it keeps its earlier value, or becomes "" if it had none. |
| Extraction.Fill | app/edinet.py:218-222 | The loop adds exactly the targets' columns to the starting record. |
| Extraction.FillValues | app/edinet.py:218-222 | After the loop, a column holds the last hit for it. A column no target hit keeps its earlier value, or is "" if it had none. |
| Extraction.Extract | app/edinet.py:215-222 | A record's columns are exactly the security-code column and the target columns. A layout whose header holds those gets no extra column. |
| Extraction.ExtractValues | app/edinet.py:215-222 | Each column holds the last hit for it. A column without a hit is "", except the security-code column, which keeps the document's security code. |
| Extraction.SecCodeKept | app/edinet.py:216-222 | Unless a target for the security-code column hits, that column holds the document's security code. It is never blanked. |
| Extraction.MissingFieldIsEmpty | app/edinet.py:221-222 | A target column none of whose lookups hit is present in the record, as "". |
| Harvest.RowsOfFlush | app/edinet.py:116-119 | The rows written by a flush (`Flush`) are its batch, in order. |
| Harvest.ChunkedRows | app/edinet.py:108-127 | The writer's reference account (`Chunked`) writes every record exactly once, in processing order. |
| Harvest.ChunkedPauses | app/edinet.py:114-121 | n records cause ⌊n/50⌋ five-second sleeps. |
| Harvest.ChunkedLength | app/edinet.py:108-127 | The writer emits one event per record plus one per full batch. |
| Harvest.ChunkedShape | app/edinet.py:114-121 | A sleep comes exactly after every fiftieth row: writer position p is a sleep iff p mod 51 is 50. |
| Harvest.ChunkedEndsWithRow | app/edinet.py:123-127 | When the record count is not a multiple of 50, the leftover batch is written at the end with no sleep after it. |
| Harvest.ChunkedAppend | app/edinet.py:114-120 | After whole batches, chunking starts afresh. |
| Harvest.RowsOfWriterEvents | app/edinet.py:108-127 | Dropping requests and other sleeps from a trace keeps every row, in order. |
| Harvest.WriterEventsCount | app/edinet.py:114-121 | Dropping the other events keeps every header, row and five-second sleep, as often as it occurs. |
| Harvest.DownloadOfAttempt | app/edinet.py:179-186 | A document's download (`DocFetch`) makes k + 1 requests, and the download used (`DownloadOf`) is the response to attempt k: the first attempt that returns 200, or the fifth when none of the five does. |
| Harvest.DocFetchEvents | app/edinet.py:179-186 | Downloading a document makes only requests for that document and 10-second sleeps: nothing is written. |
| Harvest.DownloadsRequestEach | app/edinet.py:108-110 | The downloads of the documents taken (`Downloads`) request every one of them. |
| Harvest.DownloadsLength | app/edinet.py:179-186 | Each document taken costs between 1 and 10 download requests and retry sleeps. |
| Harvest.TakeDownloaded | app/edinet.py:108-110 | Taking the last pending document extends the account of downloads by that document's requests and retry sleeps. |
| Harvest.Harvested | app/edinet.py:108-112 | The records produced are those of the documents in processing order, up to the first document that cannot be parsed. |
| Harvest.Reverse | app/edinet.py:108-109 | Popping from the end takes the documents in reverse discovery order. |
| Harvest.Taken | app/edinet.py:108-109 | The k-th document taken is the k-th of the reversed list. |
| Harvest.Flushed | app/edinet.py:114-121 | The records written in whole batches are the longest prefix whose length is a multiple of 50. Fewer than 50 records are left behind. |
| Harvest.PushConserves | app/edinet.py:112-121 | Adding a record (`Push`) loses and reorders nothing: the rows written followed by the waiting batch grow by exactly that record. A batch reaching 50 is written with one more 5-second sleep; otherwise nothing is written. |
| Harvest.CloseConserves | app/edinet.py:123-127 | Closing (`Close`) writes the waiting batch in order, leaves nothing waiting and adds no sleep. |
| Harvest.PushKeeps | app/edinet.py:112-121 | Adding a record either writes the full batch of 50 followed by one sleep, or leaves the record waiting. No record is lost or reordered. |
| Harvest.CloseCompletes | app/edinet.py:123-127 | Writing the leftover batch makes the writer's events the header followed by all records in chunks. |
| Harvest.AbortedAccount | app/edinet.py:108-121 | When a document cannot be parsed, the run has written the header and the whole batches of the records before it. |
| Harvest.DownloadAndParse | app/edinet.py:110-111 | One document's requests and sleeps are exactly its retried download's. There is a record (`RecordOf`) iff the download used holds an XBRL document. The record has exactly the layout's columns, each holding the last hit for it, else the security code for that column, else "". |
| Harvest.TakeLast | app/edinet.py:108-121 | One loop iteration pops the last pending document and downloads it: its requests and retry sleeps are appended. If the document parses, its record goes to the writer and the account of the run still holds. Otherwise the run ends there, at the first document that cannot be parsed. |
| Harvest.WriteAll | app/edinet.py:103-127 | After the header, the loop either completes with all records in chunks or stops at the first unparsable document. In that case only the whole batches are written. The requests and retry sleeps are the downloads of the documents taken, in the order taken, up to and including the one that stopped the run. |
| Harvest.Harvest | app/edinet.py:96-127 | An existing output file means nothing happens. Otherwise the header is written first. The run completes iff every document parses, and then the writer's events are the header and all records in chunks. An aborted run names the first unparsable document in processing order and has written only the whole batches before it. The events other than the writer's are the downloads of every document, in processing order. When aborted, they cover the documents up to and including the unparsable one. |
| Client.DocumentList | app/edinet.py:75-83 | The search succeeds iff every listing of the term can be read. It then finds all annual reports of those listings, in day order and, within a day, in listing order. A failed search names the first day of the term whose listing cannot be read. |
| Client.SearchFailsAtFirst | app/edinet.py:140-153 | A failed search names the first day whose listing cannot be read. |
| Client.WrittenRows | app/edinet.py:108-127 | A search trace followed by a harvest that chunked the records has exactly those records as rows. |
| Client.SearchFetches | app/edinet.py:92-110 | The search's requests and sleeps all come before the harvest's downloads. |
| Client.SearchWriterEvents | app/edinet.py:92-105 | The search writes nothing, so the writer's events of a search-then-harvest trace are exactly the harvest's. |
| Client.WrittenPauses | app/edinet.py:114-121 | Such a trace sleeps five seconds once per full batch. |
| Client.HarvestFound | app/edinet.py:92-127 | After a successful search, an existing output file ends the run with only the search's requests and sleeps. Otherwise the header directly follows the search. The writer's events are exactly the harvest's: the header, then the records in chunks of 50 with a five-second sleep after each full chunk, or only the whole batches when aborted. The other events are the search followed by the downloads of the documents taken. |
| Client.GetDocumentData | app/edinet.py:85-129 | The search runs first, always. A failed search (at the first unreadable day) or an existing output file ends the run with exactly the search's requests and sleeps: nothing downloaded or written. Otherwise the header directly follows the search. A completed run downloads every document, writes every record exactly once in processing order, and takes one five-second sleep after every 50th record: its writer's events are the header followed by the records in chunks. An aborted run names the first unparsable document. It has downloaded the documents up to and including that one, and its writer's events are the header followed by only the whole batches before it. |

## Left out

- HTTP requests and JSON decoding are modelled as endpoint functions. A listing body that does not decode, lacks `results`, or has an entry without `ordinanceCode` or `formCode` (read for every entry during the search, app/edinet.py:156-157) is a `None` payload, and the search stops on it (the source raises).
- An entry without `docID` or `secCode` is not modelled: every `Entry` carries both. In the source, a kept entry lacking `docID` raises when it is popped (app/edinet.py:110) and one lacking `secCode` raises after its download (app/edinet.py:216), both mid-harvest after the header and earlier downloads; a dropped entry lacking either never raises.
- Writing the downloaded zip, unpacking it, `glob`, `shutil.rmtree` and `os.remove` are left out. A download that cannot be unpacked or has no XBRL file under `XBRL/PublicDoc` is a `None` payload, and the run stops on it.
- The XBRL parser library is not part of this model. A parsed document is an abstract lookup, and a lookup that yields an object counts as a hit whatever its value is.
- Loading `layout.yaml` is left out: the layout is a value passed in. The source reads the file once for the header and again for every document. The model assumes the file does not change during a run and uses one layout for both.
- CSV serialisation (`csv.DictWriter`) is modelled as `Row` events. Quoting, encoding, and the error `DictWriter` raises for a record column that is not in the header are left out. `Extraction.Extract` states which layouts cannot cause that error.
- `time.sleep` is modelled as `Pause` events.
- Printing is left out.
- Exceptions raised by `requests.get` (app/edinet.py:144 and 180) are not modelled: every request gets a response. The source has no `try` around them, so it does not retry them. There is no 10-second sleep and no further attempt: the run ends, and a harvest loses its unfinished batch.
- Harvest.Harvest: states the writer's events and the downloads as two separate projections of the trace. Beyond the header coming first, it does not state how they interleave (in the source each document's download comes before its record is pushed).
- Harvest.WriteAll: its `Settled` postcondition has the same two projections, with the same interleaving not stated.
- Client.HarvestFound: states the writer's events and the downloads of the harvest as two projections after the search; their interleaving is not stated.
- Client.GetDocumentData: the same two projections after the search as `Client.HarvestFound`, with the same interleaving not stated.
- Calendar arithmetic (month lengths, leap years, date differences) is left out. The fiscal rule works on (year, month, day) triples, and the day list on day numbers given by an abstract calendar. The model does not reproduce Python's failure on dates before year 1.
- `app/main.py` is left out: it reads environment variables, chooses the mode and profiles memory.
- Concurrency does not arise, and is not modelled.
- Term.SetTargetTerm: carries no contract of its own; it only replaces both bounds. What the override means for the search is stated by `Client.SetTargetTermSearches`.

## Findings

| source | as written | input that shows it | evidently intended | confidence | as-written member | corrected member |
|---|---|---|---|---|---|---|
| app/edinet.py:32-41 | The constructor reads the clock twice: once for `today`, then again for the month that picks the start year. | A construction whose two readings straddle midnight: 2022-03-31 then 2022-04-01 gives start 2022-04-01 after end 2022-03-31, so only the end day is searched. 2022-12-31 then 2023-01-01 gives start 2021-04-01, a term of 21 months. | One reading of the clock for both, so the term is the fiscal year to date. | medium; not executed | Term.ConstructedTerm, Term.ConstructedTermAcrossMidnight, Client.MidnightTermSearchesEnd | Term.DefaultTerm |
