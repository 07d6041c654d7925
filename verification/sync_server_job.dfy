/** The background job that refreshes the media of a server's libraries:
    which libraries it selects, the order in which it refreshes them, the
    progress table it keeps and pushes to clients, and how it reports failure.
    The library refresh and the push to clients are not part of this model:
    each refresh is an abstract outcome (the progress updates it reports and
    whether it succeeded) and each push is an event in the job's trace. */
module SyncServer {
  import opened Wrappers
  import opened Sequences
  import opened Plex

  /** Progress of one library refresh. */
  datatype LibraryProgress = LibraryProgress(id: int, received: int, total: int)

  /** What refreshing one library does, as seen by the job: the progress updates
      it reports through the callback, in order, and whether it succeeded. */
  datatype RefreshOutcome = RefreshOutcome(updates: seq<LibraryProgress>, succeeded: bool)

  /** The observable effects of the job, in order. */
  datatype JobEvent =
    | RefreshRequested(libraryId: int)
    | ProgressSent(plexServerId: int, libraries: seq<LibraryProgress>)

  /** How the job ended. `Faulted` is an exception swallowed by the job. */
  datatype JobOutcome =
    | ServerNotFound
    | Faulted
    | NoLibrariesToSync
    | Synced
    | SomeLibrariesFailed(failedLibraryIds: seq<int>)

  /** The state one execution builds up: the progress table, the trace, and the
      libraries whose refresh failed. */
  datatype JobRun = JobRun(progress: seq<LibraryProgress>, events: seq<JobEvent>, failed: seq<int>)

  // ---------------------------------------------------------------------------
  // Library selection

  /** A library that needs a sync when the job is not forced. */
  predicate IsSyncable(library: PlexLibrary)
  {
    library.outdated && (library.kind == Movie || library.kind == TvShow)
  }

  /** The libraries the job works on: all of them when forced, otherwise the
      outdated Movie and TvShow libraries, in their original order. */
  function SelectLibraries(libraries: seq<PlexLibrary>, forceSync: bool): (r: seq<PlexLibrary>)
    ensures forceSync ==> r == libraries
    ensures !forceSync ==> forall l :: l in r <==> l in libraries && IsSyncable(l)
    ensures !forceSync ==> r == Filter(libraries, IsSyncable)
  {
    if forceSync then libraries else Filter(libraries, IsSyncable)
  }

  /** Without forcing, selecting from a concatenation selects from each part, in order. */
  lemma SelectionKeepsOrder(a: seq<PlexLibrary>, b: seq<PlexLibrary>, forceSync: bool)
    ensures SelectLibraries(a + b, forceSync) == SelectLibraries(a, forceSync) + SelectLibraries(b, forceSync)
  {
    if !forceSync {
      FilterAppend(a, b, IsSyncable);
    }
  }

  /** The libraries of one media type, in their original order. */
  function OfKind(libraries: seq<PlexLibrary>, kind: PlexMediaType): (r: seq<PlexLibrary>)
    ensures forall l :: l in r <==> l in libraries && l.kind == kind
  {
    Filter(libraries, (l: PlexLibrary) => l.kind == kind)
  }

  /** The libraries whose refresh fails. */
  function Failing(libraries: seq<PlexLibrary>, refresh: int -> RefreshOutcome): (r: seq<PlexLibrary>)
    ensures forall l :: l in r <==> l in libraries && !refresh(l.id).succeeded
  {
    Filter(libraries, (l: PlexLibrary) => !refresh(l.id).succeeded)
  }

  lemma FailingAppend(a: seq<PlexLibrary>, b: seq<PlexLibrary>, refresh: int -> RefreshOutcome)
    ensures Failing(a + b, refresh) == Failing(a, refresh) + Failing(b, refresh)
  {
    FilterAppend(a, b, (l: PlexLibrary) => !refresh(l.id).succeeded);
  }

  function LibraryIds(libraries: seq<PlexLibrary>): (r: seq<int>)
    ensures |r| == |libraries|
    ensures forall i :: 0 <= i < |libraries| ==> r[i] == libraries[i].id
  {
    seq(|libraries|, i requires 0 <= i < |libraries| => libraries[i].id)
  }

  lemma LibraryIdsAppend(a: seq<PlexLibrary>, b: seq<PlexLibrary>)
    ensures LibraryIds(a + b) == LibraryIds(a) + LibraryIds(b)
  {
  }

  predicate UniqueLibraryIds(libraries: seq<PlexLibrary>)
  {
    forall i, j :: 0 <= i < j < |libraries| ==> libraries[i].id != libraries[j].id
  }

  // ---------------------------------------------------------------------------
  // The progress table

  predicate UniqueIds(table: seq<LibraryProgress>)
  {
    forall i, j :: 0 <= i < j < |table| ==> table[i].id != table[j].id
  }

  function HasProgressId(id: int): LibraryProgress -> bool
  {
    (p: LibraryProgress) => p.id == id
  }

  /** The table the job starts from: one entry per selected library, nothing received. */
  function InitialProgress(libraries: seq<PlexLibrary>): (r: seq<LibraryProgress>)
    ensures |r| == |libraries|
    ensures forall i :: 0 <= i < |r| ==>
      r[i].id == libraries[i].id && r[i].received == 0 && r[i].total == libraries[i].mediaCount
    ensures UniqueLibraryIds(libraries) ==> UniqueIds(r)
  {
    seq(|libraries|, i requires 0 <= i < |libraries| => LibraryProgress(libraries[i].id, 0, libraries[i].mediaCount))
  }

  /** The progress callback's update: replace the first entry with the same id in
      place, or append the update when no entry has its id. */
  function UpsertProgress(table: seq<LibraryProgress>, update: LibraryProgress): (r: seq<LibraryProgress>)
    ensures |table| <= |r| <= |table| + 1
    ensures update in r
    ensures forall i :: 0 <= i < |table| ==> r[i].id == table[i].id
    ensures forall i :: 0 <= i < |table| && table[i].id != update.id ==> r[i] == table[i]
    ensures forall i :: 0 <= i < |table| && r[i] != table[i] ==> IsFirst(table, HasProgressId(update.id), i)
    ensures |r| == |table| <==> exists i :: 0 <= i < |table| && table[i].id == update.id
    ensures |r| == |table| + 1 ==> r == table + [update]
    ensures UniqueIds(table) ==> UniqueIds(r)
  {
    match FindFirst(table, HasProgressId(update.id))
    case Some(i) =>
      assert table[i := update][i] == update;
      table[i := update]
    case None => table + [update]
  }

  /** The library service invoking the progress callback once per update: each
      update is upserted and the whole table is pushed for the server. */
  function ReportProgress(table: seq<LibraryProgress>, updates: seq<LibraryProgress>, plexServerId: int)
    : (r: (seq<LibraryProgress>, seq<JobEvent>))
    ensures |r.1| == |updates|
    decreases |updates|
  {
    if updates == [] then (table, [])
    else
      var next := UpsertProgress(table, updates[0]);
      var rest := ReportProgress(next, updates[1..], plexServerId);
      (rest.0, [ProgressSent(plexServerId, next)] + rest.1)
  }

  /** Reporting pushes one table per update, all for the server, the last one being
      the final table, which holds the last update; the table keeps its entries in
      place, grows by at most one entry per update, and keeps its ids unique. */
  lemma {:induction false} ReportProgressPushesTable(table: seq<LibraryProgress>, updates: seq<LibraryProgress>, plexServerId: int)
    ensures var r := ReportProgress(table, updates, plexServerId);
      && (forall k :: 0 <= k < |r.1| ==> r.1[k].ProgressSent? && r.1[k].plexServerId == plexServerId)
      && (updates != [] ==> r.1[|r.1| - 1] == ProgressSent(plexServerId, r.0))
      && (updates != [] ==> updates[|updates| - 1] in r.0)
      && |table| <= |r.0| <= |table| + |updates|
      && (forall i :: 0 <= i < |table| ==> r.0[i].id == table[i].id)
      && (UniqueIds(table) ==> UniqueIds(r.0))
    decreases |updates|
  {
    if updates != [] {
      var next := UpsertProgress(table, updates[0]);
      ReportProgressPushesTable(next, updates[1..], plexServerId);
      var rest := ReportProgress(next, updates[1..], plexServerId);
      var r := ReportProgress(table, updates, plexServerId);
      assert r == (rest.0, [ProgressSent(plexServerId, next)] + rest.1);
      forall k | 0 <= k < |r.1|
        ensures r.1[k].ProgressSent? && r.1[k].plexServerId == plexServerId
      {
        if k > 0 {
          assert r.1[k] == rest.1[k - 1];
        }
      }
      if |updates| > 1 {
        assert updates[1..][|updates[1..]| - 1] == updates[|updates| - 1];
        assert r.1[|r.1| - 1] == rest.1[|rest.1| - 1];
      }
    }
  }

  /** The k-th push carries the table as it stands right after the k-th update. */
  lemma {:induction false} ReportProgressPushAfterEachUpdate(table: seq<LibraryProgress>, updates: seq<LibraryProgress>,
                                                            plexServerId: int, k: int)
    requires 0 <= k < |updates|
    ensures ReportProgress(table, updates, plexServerId).1[k]
         == ProgressSent(plexServerId, ReportProgress(table, updates[..k + 1], plexServerId).0)
    decreases k
  {
    var next := UpsertProgress(table, updates[0]);
    var rest := ReportProgress(next, updates[1..], plexServerId);
    assert updates[..k + 1][0] == updates[0];
    assert updates[..k + 1][1..] == updates[1..][..k];
    if k > 0 {
      ReportProgressPushAfterEachUpdate(next, updates[1..], plexServerId, k - 1);
    }
  }

  // ---------------------------------------------------------------------------
  // Refreshing libraries

  /** One iteration of a refresh loop: request the refresh, apply the progress it
      reports, and collect the library when it failed. */
  function RefreshLibrary(run: JobRun, library: PlexLibrary, plexServerId: int, refresh: int -> RefreshOutcome)
    : (r: JobRun)
    ensures run.events + [RefreshRequested(library.id)] <= r.events
    ensures |r.events| == |run.events| + 1 + |refresh(library.id).updates|
    ensures run.failed <= r.failed && |r.failed| <= |run.failed| + 1
    ensures r.failed == run.failed <==> refresh(library.id).succeeded
    ensures |run.progress| <= |r.progress|
  {
    var outcome := refresh(library.id);
    ReportProgressPushesTable(run.progress, outcome.updates, plexServerId);
    var reported := ReportProgress(run.progress, outcome.updates, plexServerId);
    JobRun(
      reported.0,
      run.events + [RefreshRequested(library.id)] + reported.1,
      if outcome.succeeded then run.failed else run.failed + [library.id])
  }

  /** Refreshing `libraries` one after the other. */
  function RunRefreshes(run: JobRun, libraries: seq<PlexLibrary>, plexServerId: int, refresh: int -> RefreshOutcome)
    : (r: JobRun)
    ensures run.events <= r.events && |run.events| + |libraries| <= |r.events|
    ensures run.failed <= r.failed && |r.failed| <= |run.failed| + |libraries|
    ensures |run.progress| <= |r.progress|
    decreases |libraries|
  {
    if libraries == [] then run
    else
      RefreshLibrary(
        RunRefreshes(run, libraries[..|libraries| - 1], plexServerId, refresh),
        libraries[|libraries| - 1], plexServerId, refresh)
  }

  /** One refresh collects its library exactly when it failed. */
  lemma RefreshLibraryFailures(run: JobRun, library: PlexLibrary, plexServerId: int, refresh: int -> RefreshOutcome)
    ensures RefreshLibrary(run, library, plexServerId, refresh).failed
         == run.failed + LibraryIds(Failing([library], refresh))
  {
    assert [library][0] == library;
  }

  /** The libraries whose refresh the trace requests, in order. */
  function RequestedIds(events: seq<JobEvent>): (r: seq<int>)
    ensures |r| <= |events|
  {
    if events == [] then []
    else (if events[0].RefreshRequested? then [events[0].libraryId] else []) + RequestedIds(events[1..])
  }

  lemma {:induction false} RequestedIdsAppend(a: seq<JobEvent>, b: seq<JobEvent>)
    ensures RequestedIds(a + b) == RequestedIds(a) + RequestedIds(b)
  {
    if a == [] {
      assert a + b == b;
    } else {
      var head := if a[0].RefreshRequested? then [a[0].libraryId] else [];
      calc {
        RequestedIds(a + b);
        { assert (a + b)[0] == a[0] && (a + b)[1..] == a[1..] + b; }
        head + RequestedIds(a[1..] + b);
        { RequestedIdsAppend(a[1..], b); }
        head + (RequestedIds(a[1..]) + RequestedIds(b));
        (head + RequestedIds(a[1..])) + RequestedIds(b);
        RequestedIds(a) + RequestedIds(b);
      }
    }
  }

  lemma {:induction false} NoRequestsAmongProgress(events: seq<JobEvent>)
    requires forall k :: 0 <= k < |events| ==> events[k].ProgressSent?
    ensures RequestedIds(events) == []
  {
    if events != [] {
      NoRequestsAmongProgress(events[1..]);
    }
  }

  /** One refresh requests its library once; the progress pushes after it request nothing. */
  lemma RefreshLibraryRequests(run: JobRun, library: PlexLibrary, plexServerId: int, refresh: int -> RefreshOutcome)
    ensures RequestedIds(RefreshLibrary(run, library, plexServerId, refresh).events)
         == RequestedIds(run.events) + [library.id]
  {
    var sent := ReportProgress(run.progress, refresh(library.id).updates, plexServerId).1;
    ReportProgressPushesTable(run.progress, refresh(library.id).updates, plexServerId);
    calc {
      RequestedIds(RefreshLibrary(run, library, plexServerId, refresh).events);
      RequestedIds(run.events + [RefreshRequested(library.id)] + sent);
      { RequestedIdsAppend(run.events + [RefreshRequested(library.id)], sent);
        NoRequestsAmongProgress(sent); }
      RequestedIds(run.events + [RefreshRequested(library.id)]);
      { RequestedIdsAppend(run.events, [RefreshRequested(library.id)]); }
      RequestedIds(run.events) + [library.id];
    }
  }

  /** Refreshing a list of libraries requests exactly those libraries, in list order,
      and only progress pushes for the server come in between. */
  lemma {:induction false} RunRefreshesRequests(
    run: JobRun, libraries: seq<PlexLibrary>, plexServerId: int, refresh: int -> RefreshOutcome)
    ensures var after := RunRefreshes(run, libraries, plexServerId, refresh);
      RequestedIds(after.events) == RequestedIds(run.events) + LibraryIds(libraries)
    decreases |libraries|
  {
    if libraries != [] {
      var front := libraries[..|libraries| - 1];
      var last := libraries[|libraries| - 1];
      var mid := RunRefreshes(run, front, plexServerId, refresh);
      calc {
        RequestedIds(RunRefreshes(run, libraries, plexServerId, refresh).events);
        RequestedIds(RefreshLibrary(mid, last, plexServerId, refresh).events);
        { RefreshLibraryRequests(mid, last, plexServerId, refresh); }
        RequestedIds(mid.events) + [last.id];
        { RunRefreshesRequests(run, front, plexServerId, refresh); }
        RequestedIds(run.events) + LibraryIds(front) + [last.id];
        { assert libraries == front + [last];
          LibraryIdsAppend(front, [last]); }
        RequestedIds(run.events) + LibraryIds(libraries);
      }
    }
  }

  /** Refreshing a list of libraries collects exactly the failing ones, in list order. */
  lemma {:induction false} RunRefreshesFailures(
    run: JobRun, libraries: seq<PlexLibrary>, plexServerId: int, refresh: int -> RefreshOutcome)
    ensures RunRefreshes(run, libraries, plexServerId, refresh).failed
         == run.failed + LibraryIds(Failing(libraries, refresh))
    decreases |libraries|
  {
    if libraries != [] {
      var front := libraries[..|libraries| - 1];
      var last := libraries[|libraries| - 1];
      var mid := RunRefreshes(run, front, plexServerId, refresh);
      calc {
        RunRefreshes(run, libraries, plexServerId, refresh).failed;
        RefreshLibrary(mid, last, plexServerId, refresh).failed;
        { RefreshLibraryFailures(mid, last, plexServerId, refresh); }
        mid.failed + LibraryIds(Failing([last], refresh));
        { RunRefreshesFailures(run, front, plexServerId, refresh); }
        run.failed + LibraryIds(Failing(front, refresh)) + LibraryIds(Failing([last], refresh));
        { LibraryIdsAppend(Failing(front, refresh), Failing([last], refresh)); }
        run.failed + LibraryIds(Failing(front, refresh) + Failing([last], refresh));
        { assert libraries == front + [last];
          FailingAppend(front, [last], refresh); }
        run.failed + LibraryIds(Failing(libraries, refresh));
      }
    }
  }

  /** Refreshing never removes or reorders progress entries and keeps their ids unique. */
  lemma {:induction false} RunRefreshesProgress(
    run: JobRun, libraries: seq<PlexLibrary>, plexServerId: int, refresh: int -> RefreshOutcome)
    ensures var after := RunRefreshes(run, libraries, plexServerId, refresh);
      |run.progress| <= |after.progress| &&
      (forall i :: 0 <= i < |run.progress| ==> after.progress[i].id == run.progress[i].id) &&
      (UniqueIds(run.progress) ==> UniqueIds(after.progress))
    decreases |libraries|
  {
    if libraries != [] {
      var front := libraries[..|libraries| - 1];
      var mid := RunRefreshes(run, front, plexServerId, refresh);
      RunRefreshesProgress(run, front, plexServerId, refresh);
      ReportProgressPushesTable(mid.progress, refresh(libraries[|libraries| - 1].id).updates, plexServerId);
    }
  }

  /** Every progress push in `events` is for server `plexServerId`. */
  predicate PushesFor(events: seq<JobEvent>, plexServerId: int)
  {
    forall k :: 0 <= k < |events| && events[k].ProgressSent? ==> events[k].plexServerId == plexServerId
  }

  lemma PushesForAppend(a: seq<JobEvent>, b: seq<JobEvent>, plexServerId: int)
    requires PushesFor(a, plexServerId) && PushesFor(b, plexServerId)
    ensures PushesFor(a + b, plexServerId)
  {
    forall k | 0 <= k < |a + b| && (a + b)[k].ProgressSent?
      ensures (a + b)[k].plexServerId == plexServerId
    {
      if k >= |a| {
        assert (a + b)[k] == b[k - |a|];
      }
    }
  }

  /** One refresh adds only progress pushes for the job's server. */
  lemma RefreshLibraryPushes(run: JobRun, library: PlexLibrary, plexServerId: int, refresh: int -> RefreshOutcome)
    requires PushesFor(run.events, plexServerId)
    ensures PushesFor(RefreshLibrary(run, library, plexServerId, refresh).events, plexServerId)
  {
    var sent := ReportProgress(run.progress, refresh(library.id).updates, plexServerId).1;
    ReportProgressPushesTable(run.progress, refresh(library.id).updates, plexServerId);
    PushesForAppend(run.events, [RefreshRequested(library.id)], plexServerId);
    PushesForAppend(run.events + [RefreshRequested(library.id)], sent, plexServerId);
  }

  /** Every progress push a refresh run adds is for the job's server. */
  lemma {:induction false} RunRefreshesPushes(
    run: JobRun, libraries: seq<PlexLibrary>, plexServerId: int, refresh: int -> RefreshOutcome)
    requires PushesFor(run.events, plexServerId)
    ensures PushesFor(RunRefreshes(run, libraries, plexServerId, refresh).events, plexServerId)
    decreases |libraries|
  {
    if libraries != [] {
      var front := libraries[..|libraries| - 1];
      RunRefreshesPushes(run, front, plexServerId, refresh);
      RefreshLibraryPushes(RunRefreshes(run, front, plexServerId, refresh), libraries[|libraries| - 1], plexServerId, refresh);
    }
  }

  // ---------------------------------------------------------------------------
  // The job

  /** What the job does once it has libraries to sync: start from one progress
      entry per library, refresh the Movie libraries, then the TvShow libraries. */
  function SyncRun(libraries: seq<PlexLibrary>, plexServerId: int, refresh: int -> RefreshOutcome): (r: JobRun)
    ensures |r.progress| >= |libraries|
    ensures |OfKind(libraries, Movie)| + |OfKind(libraries, TvShow)| <= |r.events|
    ensures |r.failed| <= |OfKind(libraries, Movie)| + |OfKind(libraries, TvShow)|
  {
    var start := JobRun(InitialProgress(libraries), [], []);
    var afterMovies := RunRefreshes(start, OfKind(libraries, Movie), plexServerId, refresh);
    RunRefreshes(afterMovies, OfKind(libraries, TvShow), plexServerId, refresh)
  }

  /** Two refresh loops one after the other request the libraries of the first and
      then those of the second. */
  lemma TwoRunsRequests(run: JobRun, first: seq<PlexLibrary>, second: seq<PlexLibrary>,
                        plexServerId: int, refresh: int -> RefreshOutcome)
    ensures RequestedIds(RunRefreshes(RunRefreshes(run, first, plexServerId, refresh), second, plexServerId, refresh).events)
         == RequestedIds(run.events) + LibraryIds(first) + LibraryIds(second)
  {
    RunRefreshesRequests(run, first, plexServerId, refresh);
    RunRefreshesRequests(RunRefreshes(run, first, plexServerId, refresh), second, plexServerId, refresh);
  }

  /** Every Movie library is requested before any TvShow library, each group in
      selection order, and nothing else is requested. */
  lemma SyncRunRequestsMoviesThenShows(libraries: seq<PlexLibrary>, plexServerId: int, refresh: int -> RefreshOutcome)
    ensures RequestedIds(SyncRun(libraries, plexServerId, refresh).events)
         == LibraryIds(OfKind(libraries, Movie)) + LibraryIds(OfKind(libraries, TvShow))
  {
    var start := JobRun(InitialProgress(libraries), [], []);
    var movies, shows := LibraryIds(OfKind(libraries, Movie)), LibraryIds(OfKind(libraries, TvShow));
    calc {
      RequestedIds(SyncRun(libraries, plexServerId, refresh).events);
      { TwoRunsRequests(start, OfKind(libraries, Movie), OfKind(libraries, TvShow), plexServerId, refresh); }
      RequestedIds(start.events) + movies + shows;
      { assert RequestedIds(start.events) == []; }
      [] + movies + shows;
      { assert [] + movies == movies; }
      movies + shows;
    }
  }

  /** Only Movie and TvShow libraries are refreshed, even when every library is selected. */
  lemma SyncRunRefreshesOnlyMoviesAndShows(libraries: seq<PlexLibrary>, plexServerId: int, refresh: int -> RefreshOutcome)
    ensures forall id :: id in RequestedIds(SyncRun(libraries, plexServerId, refresh).events) ==>
      exists l :: l in libraries && l.id == id && (l.kind == Movie || l.kind == TvShow)
  {
    var movies, shows := OfKind(libraries, Movie), OfKind(libraries, TvShow);
    SyncRunRequestsMoviesThenShows(libraries, plexServerId, refresh);
    LibraryIdsAppend(movies, shows);
    forall id | id in LibraryIds(movies + shows)
      ensures exists l :: l in libraries && l.id == id && (l.kind == Movie || l.kind == TvShow)
    {
      var k :| 0 <= k < |movies + shows| && LibraryIds(movies + shows)[k] == id;
      assert (movies + shows)[k] in movies + shows;
    }
  }

  /** Two refresh loops one after the other collect the failing libraries of the
      first and then those of the second. */
  lemma TwoRunsFailures(run: JobRun, first: seq<PlexLibrary>, second: seq<PlexLibrary>,
                        plexServerId: int, refresh: int -> RefreshOutcome)
    ensures RunRefreshes(RunRefreshes(run, first, plexServerId, refresh), second, plexServerId, refresh).failed
         == run.failed + LibraryIds(Failing(first + second, refresh))
  {
    var mid := RunRefreshes(run, first, plexServerId, refresh);
    var a, b := Failing(first, refresh), Failing(second, refresh);
    calc {
      RunRefreshes(mid, second, plexServerId, refresh).failed;
      { RunRefreshesFailures(mid, second, plexServerId, refresh); }
      mid.failed + LibraryIds(b);
      { RunRefreshesFailures(run, first, plexServerId, refresh); }
      run.failed + LibraryIds(a) + LibraryIds(b);
      { LibraryIdsAppend(a, b); }
      run.failed + LibraryIds(a + b);
      { FailingAppend(first, second, refresh); }
      run.failed + LibraryIds(Failing(first + second, refresh));
    }
  }

  /** The collected failures are the failing refreshed libraries, in refresh order. */
  lemma SyncRunCollectsFailures(libraries: seq<PlexLibrary>, plexServerId: int, refresh: int -> RefreshOutcome)
    ensures SyncRun(libraries, plexServerId, refresh).failed
         == LibraryIds(Failing(OfKind(libraries, Movie) + OfKind(libraries, TvShow), refresh))
  {
    var start := JobRun(InitialProgress(libraries), [], []);
    var failing := LibraryIds(Failing(OfKind(libraries, Movie) + OfKind(libraries, TvShow), refresh));
    calc {
      SyncRun(libraries, plexServerId, refresh).failed;
      { TwoRunsFailures(start, OfKind(libraries, Movie), OfKind(libraries, TvShow), plexServerId, refresh); }
      start.failed + failing;
      [] + failing;
      { assert [] + failing == failing; }
      failing;
    }
  }

  /** The job fails exactly when some refreshed library failed. */
  lemma SyncRunFailsIffSomeRefreshFailed(libraries: seq<PlexLibrary>, plexServerId: int, refresh: int -> RefreshOutcome)
    ensures SyncRun(libraries, plexServerId, refresh).failed == [] <==>
      forall l :: l in OfKind(libraries, Movie) + OfKind(libraries, TvShow) ==> refresh(l.id).succeeded
  {
    var refreshed := OfKind(libraries, Movie) + OfKind(libraries, TvShow);
    SyncRunCollectsFailures(libraries, plexServerId, refresh);
    if Failing(refreshed, refresh) != [] {
      assert Failing(refreshed, refresh)[0] in Failing(refreshed, refresh);
    }
  }

  /** The progress table keeps one entry per selected library at the front, and its
      ids stay unique when the libraries' ids are. */
  lemma SyncRunKeepsProgressEntries(libraries: seq<PlexLibrary>, plexServerId: int, refresh: int -> RefreshOutcome)
    ensures var progress := SyncRun(libraries, plexServerId, refresh).progress;
      |libraries| <= |progress| &&
      (forall i :: 0 <= i < |libraries| ==> progress[i].id == libraries[i].id) &&
      (UniqueLibraryIds(libraries) ==> UniqueIds(progress))
  {
    var start := JobRun(InitialProgress(libraries), [], []);
    var movies := OfKind(libraries, Movie);
    RunRefreshesProgress(start, movies, plexServerId, refresh);
    RunRefreshesProgress(RunRefreshes(start, movies, plexServerId, refresh), OfKind(libraries, TvShow), plexServerId, refresh);
  }

  /** Every progress push of the job is for the job's server. */
  lemma SyncRunPushesForServer(libraries: seq<PlexLibrary>, plexServerId: int, refresh: int -> RefreshOutcome)
    ensures PushesFor(SyncRun(libraries, plexServerId, refresh).events, plexServerId)
  {
    var start := JobRun(InitialProgress(libraries), [], []);
    var movies := OfKind(libraries, Movie);
    RunRefreshesPushes(start, movies, plexServerId, refresh);
    RunRefreshesPushes(RunRefreshes(start, movies, plexServerId, refresh), OfKind(libraries, TvShow), plexServerId, refresh);
  }

  /** Execute the job for server `plexServerId`. `lookup` is the result of loading the
      server with its libraries; `refresh` gives the outcome of refreshing a library. */
  method Execute(plexServerId: int, forceSync: bool, lookup: Result<PlexServer, string>,
                 refresh: int -> RefreshOutcome)
    returns (outcome: JobOutcome, events: seq<JobEvent>, progress: seq<LibraryProgress>)
    ensures lookup.Failure? ==> outcome == ServerNotFound && events == [] && progress == []
    ensures lookup.Success? && lookup.value.plexLibraries.None? ==>
      outcome == Faulted && events == [] && progress == []
    ensures lookup.Success? && lookup.value.plexLibraries.Some? &&
            SelectLibraries(lookup.value.plexLibraries.value, forceSync) == [] ==>
      outcome == NoLibrariesToSync && events == [] && progress == []
    ensures lookup.Success? && lookup.value.plexLibraries.Some? &&
            SelectLibraries(lookup.value.plexLibraries.value, forceSync) != [] ==>
      var run := SyncRun(SelectLibraries(lookup.value.plexLibraries.value, forceSync), plexServerId, refresh);
      && events == run.events
      && progress == run.progress
      && outcome == (if run.failed == [] then Synced else SomeLibrariesFailed(run.failed))
    ensures outcome == Synced || outcome.SomeLibrariesFailed? ==>
      var selected := SelectLibraries(lookup.value.plexLibraries.value, forceSync);
      && RequestedIds(events) == LibraryIds(OfKind(selected, Movie)) + LibraryIds(OfKind(selected, TvShow))
      && (outcome == Synced <==>
            forall l :: l in OfKind(selected, Movie) + OfKind(selected, TvShow) ==> refresh(l.id).succeeded)
    ensures PushesFor(events, plexServerId)
  {
    events, progress := [], [];
    if lookup.Failure? {
      return ServerNotFound, events, progress;
    }
    var server := lookup.value;
    if server.plexLibraries.None? {
      return Faulted, events, progress;
    }
    var libraries := SelectLibraries(server.plexLibraries.value, forceSync);
    if libraries == [] {
      return NoLibrariesToSync, events, progress;
    }
    var failed;
    progress, events, failed := SyncLibraries(libraries, plexServerId, refresh);
    outcome := if failed == [] then Synced else SomeLibrariesFailed(failed);
    SyncRunRequestsMoviesThenShows(libraries, plexServerId, refresh);
    SyncRunFailsIffSomeRefreshFailed(libraries, plexServerId, refresh);
    SyncRunPushesForServer(libraries, plexServerId, refresh);
  }

  /** The body of the job once libraries are selected: build the progress table,
      then refresh the Movie libraries and then the TvShow libraries, collecting
      the ids of those whose refresh failed. */
  method SyncLibraries(libraries: seq<PlexLibrary>, plexServerId: int, refresh: int -> RefreshOutcome)
    returns (progress: seq<LibraryProgress>, events: seq<JobEvent>, failed: seq<int>)
    ensures JobRun(progress, events, failed) == SyncRun(libraries, plexServerId, refresh)
  {
    progress := [];
    for i := 0 to |libraries|
      invariant |progress| == i
      invariant forall k :: 0 <= k < i ==> progress[k] == LibraryProgress(libraries[k].id, 0, libraries[k].mediaCount)
    {
      progress := progress + [LibraryProgress(libraries[i].id, 0, libraries[i].mediaCount)];
    }
    assert progress == InitialProgress(libraries);

    // Movie libraries first, then TvShow libraries.
    progress, events, failed := RefreshEach(OfKind(libraries, Movie), plexServerId, refresh, progress, [], []);
    progress, events, failed := RefreshEach(OfKind(libraries, TvShow), plexServerId, refresh, progress, events, failed);
  }

  /** One refresh loop of the job: refresh each library in turn, applying the progress
      it reports and collecting it when it failed. */
  method RefreshEach(libraries: seq<PlexLibrary>, plexServerId: int, refresh: int -> RefreshOutcome,
                     progress0: seq<LibraryProgress>, events0: seq<JobEvent>, failed0: seq<int>)
    returns (progress: seq<LibraryProgress>, events: seq<JobEvent>, failed: seq<int>)
    ensures JobRun(progress, events, failed)
         == RunRefreshes(JobRun(progress0, events0, failed0), libraries, plexServerId, refresh)
  {
    progress, events, failed := progress0, events0, failed0;
    for i := 0 to |libraries|
      invariant JobRun(progress, events, failed)
             == RunRefreshes(JobRun(progress0, events0, failed0), libraries[..i], plexServerId, refresh)
    {
      var library := libraries[i];
      var result := refresh(library.id);
      events := events + [RefreshRequested(library.id)];
      var reported := ReportProgress(progress, result.updates, plexServerId);
      progress, events := reported.0, events + reported.1;
      if !result.succeeded {
        failed := failed + [library.id];
      }
      assert libraries[..i + 1][..i] == libraries[..i];
    }
    assert libraries[..|libraries|] == libraries;
  }
}
