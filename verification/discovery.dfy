/**
 Document discovery: one listing request (with retries) per day of the day
 list, keeping only annual securities reports, and a short throttling sleep
 after every tenth day.
 */
module Discovery {
  import opened Options
  import opened Events
  import opened Retries

  /** Ordinance code of the Cabinet Office Ordinance on disclosure of corporate affairs. */
  const OrdinanceCode: string := "010"
  /** Form code of form No. 3, the annual securities report. */
  const FormCode: string := "030000"
  const ThrottleEvery: nat := 10
  const ThrottlePause: nat := 2

  /** One entry of a day's listing: the fields the client reads. */
  datatype Entry = Entry(docId: string, secCode: string, ordinanceCode: string, formCode: string)

  /**
   A response of the listing endpoint. `results` is None when its body does not
   parse to a JSON object holding a `results` list; reading it then raises.
   */
  datatype Listing = Listing(status: int, results: Option<seq<Entry>>)

  /** The endpoint's response to the given attempt for the given day. */
  type ListingServer = (int, nat) -> Listing

  predicate IsAnnualReport(e: Entry) {
    e.ordinanceCode == OrdinanceCode && e.formCode == FormCode
  }

  /** The annual reports among `results`, in listing order. */
  function KeepAnnualReports(results: seq<Entry>): (kept: seq<Entry>)
    ensures forall e :: multiset(kept)[e] == if IsAnnualReport(e) then multiset(results)[e] else 0
    ensures forall e :: e in kept <==> e in results && IsAnnualReport(e)
    decreases |results|
  {
    if |results| == 0 then []
    else
      assert results == [results[0]] + results[1..];
      (if IsAnnualReport(results[0]) then [results[0]] else []) + KeepAnnualReports(results[1..])
  }

  /** Filtering a concatenation is concatenating the filtered parts: the filter keeps order. */
  lemma {:induction false} KeepAnnualReportsAppend(a: seq<Entry>, b: seq<Entry>)
    ensures KeepAnnualReports(a + b) == KeepAnnualReports(a) + KeepAnnualReports(b)
    decreases |a|
  {
    if |a| == 0 {
      assert a + b == b;
    } else {
      assert (a + b)[0] == a[0];
      assert (a + b)[1..] == a[1..] + b;
      KeepAnnualReportsAppend(a[1..], b);
    }
  }

  /** The listing requests and retry sleeps made for one day. */
  function DayFetch(server: ListingServer, day: int): Retried {
    Retry(ListRequest(day), (k: nat) => server(day, k).status)
  }

  /** The listing used for a day: the response of the retry loop's last attempt. */
  function ListingOf(server: ListingServer, day: int): Listing {
    server(day, DayFetch(server, day).attempts - 1)
  }

  /**
   The listing used for a day is the response to the first attempt that
   returns 200, or to the fifth attempt when none of the five does; the day's
   fetch made exactly `k + 1` requests.
   */
  lemma ListingOfAttempt(server: ListingServer, day: int) returns (k: nat)
    ensures k < MaxAttempts && ListingOf(server, day) == server(day, k)
    ensures DayFetch(server, day).attempts == k + 1
    ensures forall j :: 0 <= j < k ==> server(day, j).status != StatusOk
    ensures ListingOf(server, day).status == StatusOk <==>
              exists j :: 0 <= j < MaxAttempts && server(day, j).status == StatusOk
    ensures ListingOf(server, day).status != StatusOk ==> k == MaxAttempts - 1
  {
    k := DayFetch(server, day).attempts - 1;
  }

  /** How the search reads a day's listing: its entries, or None when it cannot be read. */
  type Reader = int -> Option<seq<Entry>>

  /** The listings of `server` as the search reads them. */
  function Listings(server: ListingServer): Reader {
    (day: int) => ListingOf(server, day).results
  }

  /**
   Every day's listing entries, unfiltered, concatenated in day-list order;
   None when some day's listing cannot be read.
   */
  function AllResults(days: seq<int>, read: Reader): Option<seq<Entry>>
    decreases |days|
  {
    if |days| == 0 then Some([])
    else
      match (AllResults(days[..|days| - 1], read), read(days[|days| - 1]))
      case (Some(earlier), Some(results)) => Some(earlier + results)
      case _ => None
  }

  /** All results over one day more: those before, then the new day's listing. */
  lemma AllResultsStep(days: seq<int>, read: Reader)
    requires |days| > 0
    ensures (AllResults(days, read).Some? <==>
               AllResults(days[..|days| - 1], read).Some? && read(days[|days| - 1]).Some?)
    ensures AllResults(days, read).Some? ==>
              AllResults(days, read).value == AllResults(days[..|days| - 1], read).value + read(days[|days| - 1]).value
  {
  }

  /** All results exist exactly when every day's listing can be read. */
  lemma {:induction false} AllResultsReadable(days: seq<int>, read: Reader)
    ensures AllResults(days, read).Some? <==> forall i :: 0 <= i < |days| ==> read(days[i]).Some?
    decreases |days|
  {
    if |days| > 0 {
      var n := |days| - 1;
      AllResultsReadable(days[..n], read);
      AllResultsStep(days, read);
      if AllResults(days, read).Some? {
        forall i | 0 <= i < n
          ensures read(days[i]).Some?
        {
          assert days[..n][i] == days[i];
        }
      } else if AllResults(days[..n], read).None? {
        var j :| 0 <= j < n && read(days[..n][j]).None?;
        assert days[..n][j] == days[j];
      }
    }
  }

  /** An entry among all results comes from the listing of some day, at index `i` of the day list. */
  lemma {:induction false} AllResultsSource(days: seq<int>, read: Reader, e: Entry) returns (i: nat)
    requires AllResults(days, read).Some?
    requires e in AllResults(days, read).value
    ensures i < |days| && read(days[i]).Some? && e in read(days[i]).value
    decreases |days|
  {
    var n := |days| - 1;
    AllResultsStep(days, read);
    if e in read(days[n]).value {
      i := n;
    } else {
      i := AllResultsSource(days[..n], read, e);
      assert days[..n][i] == days[i];
    }
  }

  /** Every entry of every day's listing is among all results. */
  lemma {:induction false} AllResultsKeeps(days: seq<int>, read: Reader, i: nat, e: Entry)
    requires AllResults(days, read).Some?
    requires i < |days| && read(days[i]).Some? && e in read(days[i]).value
    ensures e in AllResults(days, read).value
    decreases |days|
  {
    var n := |days| - 1;
    AllResultsStep(days, read);
    if i < n {
      assert days[..n][i] == days[i];
      AllResultsKeeps(days[..n], read, i, e);
    }
  }

  /** The number of throttling sleeps over a day list of length n: one per index divisible by ten. */
  function Throttles(n: nat): nat {
    (n + ThrottleEvery - 1) / ThrottleEvery
  }

  lemma ThrottlesStep(n: nat)
    ensures Throttles(n + 1) == Throttles(n) + (if n % ThrottleEvery == 0 then 1 else 0)
  {
  }

  /** What discovery does: listing requests, their retry sleeps and throttling sleeps. */
  predicate IsDiscoveryEvent(e: Event) {
    e.ListRequest? || e == Pause(RetryPause) || e == Pause(ThrottlePause)
  }

  /** The throttling sleep after the day at index `i` of the day list: one every tenth day, starting with the first. */
  function Throttle(i: nat): (tail: seq<Event>)
    ensures multiset(tail)[Pause(ThrottlePause)] == if i % ThrottleEvery == 0 then 1 else 0
    ensures forall e :: e in tail ==> e == Pause(ThrottlePause)
  {
    if i % ThrottleEvery == 0 then [Pause(ThrottlePause)] else []
  }

  /**
   The requests and sleeps of a search in which every day's listing can be
   read: each day's listing requests and retry sleeps, followed by its
   throttling sleep, in day-list order.
   */
  function SearchTrace(days: seq<int>, server: ListingServer): seq<Event>
    decreases |days|
  {
    if |days| == 0 then []
    else
      var i := |days| - 1;
      SearchTrace(days[..i], server) + DayFetch(server, days[i]).trace + Throttle(i)
  }

  datatype Discovery =
    | Found(docs: seq<Entry>, trace: seq<Event>)
    | Unreadable(day: int, trace: seq<Event>)

  /**
   Searches every day in order: the listing request with its retries, the
   annual reports of the listing appended to the result, then a two-second
   sleep when the day's index is divisible by ten. Stops at the first day whose
   listing cannot be read, after that day's requests and retry sleeps.
   */
  function Discover(days: seq<int>, server: ListingServer): (r: Discovery)
    ensures r.Unreadable? ==> r.day in days && ListingOf(server, r.day).results.None?
    ensures r.Found? ==> r.trace == SearchTrace(days, server)
    ensures forall e :: e in r.trace ==> IsDiscoveryEvent(e)
    decreases |days|
  {
    if |days| == 0 then Found([], [])
    else
      var i := |days| - 1;
      match Discover(days[..i], server)
      case Unreadable(d, trace) => Unreadable(d, trace)
      case Found(docs, trace) => SearchDay(docs, trace, i, days[i], server)
  }

  /** One iteration of the search loop: day `day` at index `i` after `docs` were found. */
  function SearchDay(docs: seq<Entry>, trace: seq<Event>, i: nat, day: int, server: ListingServer): (r: Discovery)
    requires forall e :: e in trace ==> IsDiscoveryEvent(e)
    ensures r.Found? <==> ListingOf(server, day).results.Some?
    ensures r.Unreadable? ==> r.day == day && r.trace == trace + DayFetch(server, day).trace
    ensures r.Found? ==> && r.docs == docs + KeepAnnualReports(ListingOf(server, day).results.value)
                         && r.trace == trace + DayFetch(server, day).trace + Throttle(i)
    ensures forall e :: e in r.trace ==> IsDiscoveryEvent(e)
  {
    DayFetchEvents(server, day);
    var fetchTrace := trace + DayFetch(server, day).trace;
    match ListingOf(server, day).results
    case None => Unreadable(day, fetchTrace)
    case Some(results) =>
      Found(docs + KeepAnnualReports(results), fetchTrace + Throttle(i))
  }

  /**
   Discovery succeeds exactly when every day's listing can be read, and then
   finds the annual reports of all listings, in day order and, within a day,
   in listing order.
   */
  lemma {:induction false} DiscoverFindsAnnualReports(days: seq<int>, server: ListingServer)
    ensures Discover(days, server).Found? <==> AllResults(days, Listings(server)).Some?
    ensures Discover(days, server).Found? ==>
              Discover(days, server).docs == KeepAnnualReports(AllResults(days, Listings(server)).value)
    decreases |days|
  {
    if |days| > 0 {
      var i := |days| - 1;
      DiscoverFindsAnnualReports(days[..i], server);
      DiscoverStep(days, server);
      AllResultsStep(days, Listings(server));
      var prior := AllResults(days[..i], Listings(server));
      var listing := ListingOf(server, days[i]).results;
      assert Listings(server)(days[i]) == listing;
      if prior.Some? && listing.Some? {
        KeepAnnualReportsAppend(prior.value, listing.value);
      }
    }
  }

  /** Discovery over one day more: it succeeds iff it did before and the new day's listing can be read. */
  lemma DiscoverStep(days: seq<int>, server: ListingServer)
    requires |days| > 0
    ensures var prev := Discover(days[..|days| - 1], server);
            var listing := ListingOf(server, days[|days| - 1]).results;
            && (Discover(days, server).Found? <==> prev.Found? && listing.Some?)
            && (Discover(days, server).Found? ==>
                  Discover(days, server).docs == prev.docs + KeepAnnualReports(listing.value))
  {
  }

  /**
   The documents a successful discovery finds are exactly the annual reports
   that appear in the listing of some day of the day list.
   */
  lemma DiscoveredDocs(days: seq<int>, server: ListingServer, e: Entry)
    requires Discover(days, server).Found?
    ensures e in Discover(days, server).docs <==>
              && IsAnnualReport(e)
              && exists i :: && 0 <= i < |days| && ListingOf(server, days[i]).results.Some?
                             && e in ListingOf(server, days[i]).results.value
  {
    var read := Listings(server);
    DiscoverFindsAnnualReports(days, server);
    if e in Discover(days, server).docs {
      var i := AllResultsSource(days, read, e);
      assert read(days[i]) == ListingOf(server, days[i]).results;
    }
    if IsAnnualReport(e) && exists i :: && 0 <= i < |days| && ListingOf(server, days[i]).results.Some?
                                        && e in ListingOf(server, days[i]).results.value {
      var i :| && 0 <= i < |days| && ListingOf(server, days[i]).results.Some?
               && e in ListingOf(server, days[i]).results.value;
      assert read(days[i]) == ListingOf(server, days[i]).results;
      AllResultsKeeps(days, read, i, e);
    }
  }

  /** After a successful search every searched day's listing could be read. */
  lemma DiscoverFoundReadable(days: seq<int>, server: ListingServer, j: nat)
    requires Discover(days, server).Found?
    requires j < |days|
    ensures ListingOf(server, days[j]).results.Some?
  {
    DiscoverFindsAnnualReports(days, server);
    AllResultsReadable(days, Listings(server));
    assert Listings(server)(days[j]) == ListingOf(server, days[j]).results;
  }

  /**
   A failed search stops at the FIRST day whose listing cannot be read: every
   earlier day was searched in full, and the failing day's requests and retry
   sleeps end the trace.
   */
  lemma {:induction false} DiscoverStopsAtFirst(days: seq<int>, server: ListingServer) returns (i: nat)
    requires Discover(days, server).Unreadable?
    ensures i < |days| && days[i] == Discover(days, server).day
    ensures ListingOf(server, days[i]).results.None?
    ensures forall j :: 0 <= j < i ==> ListingOf(server, days[j]).results.Some?
    ensures Discover(days, server).trace == SearchTrace(days[..i], server) + DayFetch(server, days[i]).trace
    decreases |days|
  {
    var n := |days| - 1;
    var prev := Discover(days[..n], server);
    if prev.Unreadable? {
      i := DiscoverStopsAtFirst(days[..n], server);
      FailsBeforeLast(days, server, days[..n], i);
    } else {
      i := n;
      FailsAfterFound(days, server);
    }
  }

  /** A failure before the last day is the failure of the whole search, found at the same index. */
  lemma FailsBeforeLast(days: seq<int>, server: ListingServer, prefix: seq<int>, i: nat)
    requires |days| > 0 && prefix == days[..|days| - 1]
    requires Discover(prefix, server).Unreadable?
    requires i < |prefix| && prefix[i] == Discover(prefix, server).day
    requires ListingOf(server, prefix[i]).results.None?
    requires forall j :: 0 <= j < i ==> ListingOf(server, prefix[j]).results.Some?
    requires Discover(prefix, server).trace == SearchTrace(prefix[..i], server) + DayFetch(server, prefix[i]).trace
    ensures i < |days| && days[i] == Discover(days, server).day
    ensures ListingOf(server, days[i]).results.None?
    ensures forall j :: 0 <= j < i ==> ListingOf(server, days[j]).results.Some?
    ensures Discover(days, server).trace == SearchTrace(days[..i], server) + DayFetch(server, days[i]).trace
  {
    DiscoverKeepsFailure(days, server, prefix);
    assert prefix[..i] == days[..i];
    forall j | 0 <= j < i
      ensures ListingOf(server, days[j]).results.Some?
    {
      assert prefix[j] == days[j];
    }
  }

  /** Once a prefix of the days fails, searching one more day changes nothing. */
  lemma DiscoverKeepsFailure(days: seq<int>, server: ListingServer, prefix: seq<int>)
    requires |days| > 0 && prefix == days[..|days| - 1]
    requires Discover(prefix, server).Unreadable?
    ensures Discover(days, server) == Discover(prefix, server)
  {
  }

  /** When every day before the last was searched successfully, a failure is on the last day. */
  lemma FailsAfterFound(days: seq<int>, server: ListingServer)
    requires |days| > 0
    requires Discover(days[..|days| - 1], server).Found?
    requires Discover(days, server).Unreadable?
    ensures forall j :: 0 <= j < |days| - 1 ==> ListingOf(server, days[j]).results.Some?
    ensures ListingOf(server, days[|days| - 1]).results.None?
    ensures Discover(days, server).day == days[|days| - 1]
    ensures Discover(days, server).trace ==
              SearchTrace(days[..|days| - 1], server) + DayFetch(server, days[|days| - 1]).trace
  {
    var n := |days| - 1;
    var prev := Discover(days[..n], server);
    assert Discover(days, server) == SearchDay(prev.docs, prev.trace, n, days[n], server);
    FoundPrefixReadable(days, server);
  }

  /** When every day before the last was searched successfully, each of their listings could be read. */
  lemma FoundPrefixReadable(days: seq<int>, server: ListingServer)
    requires |days| > 0
    requires Discover(days[..|days| - 1], server).Found?
    ensures forall j :: 0 <= j < |days| - 1 ==> ListingOf(server, days[j]).results.Some?
  {
    var n := |days| - 1;
    forall j | 0 <= j < n
      ensures ListingOf(server, days[j]).results.Some?
    {
      DiscoverFoundReadable(days[..n], server, j);
      assert days[..n][j] == days[j];
    }
  }

  /** A day's fetch trace holds only its listing requests and ten-second sleeps. */
  lemma DayFetchEvents(server: ListingServer, day: int)
    ensures forall e :: e in DayFetch(server, day).trace ==> e == ListRequest(day) || e == Pause(RetryPause)
  {
    var o := DayFetch(server, day);
    forall e | e in o.trace
      ensures e == ListRequest(day) || e == Pause(RetryPause)
    {
      var i :| 0 <= i < |o.trace| && o.trace[i] == e;
    }
  }

  /** Searching n days sleeps two seconds ceil(n / 10) times. */
  lemma {:induction false} SearchTraceThrottles(days: seq<int>, server: ListingServer)
    ensures multiset(SearchTrace(days, server))[Pause(ThrottlePause)] == Throttles(|days|)
    decreases |days|
  {
    if |days| > 0 {
      var i := |days| - 1;
      var fetch := DayFetch(server, days[i]);
      SearchTraceThrottles(days[..i], server);
      DayFetchEvents(server, days[i]);
      assert Pause(ThrottlePause) !in fetch.trace;
      assert multiset(SearchTrace(days, server)) ==
               multiset(SearchTrace(days[..i], server)) + multiset(fetch.trace) + multiset(Throttle(i));
      ThrottlesStep(i);
    }
  }

  /** A successful search of n days sleeps two seconds ceil(n / 10) times. */
  lemma DiscoverThrottles(days: seq<int>, server: ListingServer)
    requires Discover(days, server).Found?
    ensures multiset(Discover(days, server).trace)[Pause(ThrottlePause)] == Throttles(|days|)
  {
    SearchTraceThrottles(days, server);
  }

}
