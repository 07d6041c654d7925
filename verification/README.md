# PlexRipper server and sync core, in Dafny

This project models four sequential pieces of PlexRipper, a tool that downloads media from Plex servers, and proves properties of them.

- **The `PlexServer` entity** (`plex_server.dfy`, module `Plex`) holds the values a server derives from its relationships:
  - the connection url it picks: the preferred connection, else the one on the public address, else the first one; it fails when there are none;
  - the library-sections url;
  - the last known status, with a default when none has been logged;
  - the download tasks of all its libraries, and whether there are any.
- **The server sync job** (`sync_server_job.dfy`, module `SyncServer`) works in five steps:
  - it selects the libraries to sync: all of them when forced, otherwise the outdated Movie and TvShow libraries;
  - it builds a progress table with one entry per library;
  - it refreshes every Movie library, then every TvShow library;
  - it upserts each progress update into the table by library id and pushes the whole table to clients;
  - it reports failure when any refresh failed.
- **The server service** (`plex_server_service.dfy`, module `PlexServers`):
  - it stores the servers an account sees, upserting them by machine identifier;
  - it normalises the scheme of port-443 servers to https;
  - it links each newly added server to the account;
  - it reads an account's servers back, refreshing them first when asked to or when the account has none.
- **Deleting the worker tasks of a download task** (`delete_worker_tasks.dfy`, module `PlexDownloads`):
  - a validator requires a positive download-task id;
  - the handler removes exactly the worker-task rows of that download task, and fails without changing anything when there are none.

`sequences.dfy` (module `Sequences`) states once the list queries these rely on, and proves their properties:
- `Where` and `FindAll` as `Filter`;
- `Find` and `FindIndex` as `FindFirst`.

`wrappers.dfy` defines `Option` and `Result`.

How the model represents the source:
- **Exceptions.** Where the source throws, the model returns a `Result` failure (`GetServerUrl`, `DownloadTasks`) or a job outcome (`Faulted`).
- **Null values.** Nullable navigation lists and a nullable account are `Option` values.
- **Calls into code that is not part of this model become parameters:**
  - the server lookup of the job;
  - the outcome of each library refresh;
  - the token;
  - the server list the Plex API returns.
- **Sends and writes become recorded values:**
  - the job's progress pushes are `ProgressSent` events in its trace;
  - the repository's writes are `Updated`/`Added` entries in its `writes` log.
- **Mutable state.**
  - `PlexServerRepository`, `PlexServerService`, `PlexRipperDbContext` and `DeleteDownloadWorkerTasksCommandHandler` are classes. Their methods are proved against the functions on values that specify them (`UpdateServer`, `AddServer`, `UpsertServer`, `UpsertAll`, `Without`, `Remaining`).
  - The sync job is not a class. Its loops are the module-level methods `SyncLibraries` and `RefreshEach`, proved equal to `SyncRun` and `RunRefreshes`.

## Model

| member | source | states |
|---|---|---|
| Plex.GetServerUrl | src/Domain/Entities/Plex/PlexServer.cs:192-215 | fails, with the server's id and name, exactly when there are no connections; otherwise returns the url of one of the connections: with a preferred id > 0, the first connection with that id; without one, the first connection on the public address; and when the rule matches no connection, the first connection |
| Sequences.FirstMatchIsUnique | src/Domain/Entities/Plex/PlexServer.cs:197-212 | two first matches of one predicate are the same index, so each `FirstOrDefault` lookup of a connection picks a single one |
| Plex.LibraryUrl | src/Domain/Entities/Plex/PlexServer.cs:140 | fails exactly when there are no connections; otherwise it is some connection's url followed by "/library/sections" |
| Plex.LibraryUrlExtendsServerUrl | src/Domain/Entities/Plex/PlexServer.cs:140 | when the server has connections, the library url is the server url followed by exactly "/library/sections" |
| Plex.Status | src/Domain/Entities/Plex/PlexServer.cs:166-184 | the last entry of the status log when it is non-empty; otherwise id 0, unsuccessful, status code 0, message "Not checked yet", for this server's id |
| Plex.LoggedStatusBecomesCurrent | src/Domain/Entities/Plex/PlexServer.cs:170-171 | a status appended to the log becomes the server's status |
| Plex.SuccessfulStatusIsLogged | src/Domain/Entities/Plex/PlexServer.cs:170-182 | a successful status always comes from the log, never from the default |
| Plex.ConcatTasks | src/Domain/Entities/Plex/PlexServer.cs:160 | fails exactly when some library's task list is not loaded; otherwise holds exactly the tasks of the libraries' lists |
| Plex.ConcatTasksAppend | src/Domain/Entities/Plex/PlexServer.cs:160 | the tasks of concatenated library lists are the tasks of the first part followed by those of the second, so library order is kept |
| Plex.DownloadTasks | src/Domain/Entities/Plex/PlexServer.cs:160 | no libraries give an empty list; otherwise the libraries' tasks concatenated in library order |
| Plex.AnyLibraryHasTasks | src/Domain/Entities/Plex/PlexServer.cs:154 | true exactly when some library's task list is loaded and non-empty |
| Plex.HasDownloadTasks | src/Domain/Entities/Plex/PlexServer.cs:154 | false without libraries; otherwise whether some library has a loaded, non-empty task list |
| Plex.HasTasksIffListNonEmpty | src/Domain/Entities/Plex/PlexServer.cs:154-160 | whenever the libraries' task list can be built, some library has tasks exactly when that list is non-empty |
| Plex.HasDownloadTasksMatchesDownloadTasks | src/Domain/Entities/Plex/PlexServer.cs:154-160 | whenever `DownloadTasks` succeeds, `HasDownloadTasks` holds exactly when its list is non-empty |
| SyncServer.SelectLibraries | src/BackgroundServices/SyncServer/Jobs/SyncServerJob.cs:56-60 | when forced, all libraries; otherwise exactly the outdated Movie and TvShow libraries, in original order |
| SyncServer.SelectionKeepsOrder | src/BackgroundServices/SyncServer/Jobs/SyncServerJob.cs:56-60 | selecting from a concatenation selects from each part in turn, so the selection keeps the libraries' relative order |
| SyncServer.OfKind | src/BackgroundServices/SyncServer/Jobs/SyncServerJob.cs:86-98 | exactly the libraries of the given media type |
| SyncServer.Failing | src/BackgroundServices/SyncServer/Jobs/SyncServerJob.cs:89-97 | exactly the libraries whose refresh fails |
| SyncServer.FailingAppend | src/BackgroundServices/SyncServer/Jobs/SyncServerJob.cs:89-97 | the failing libraries of concatenated lists are those of each part, in order |
| SyncServer.LibraryIds | src/BackgroundServices/SyncServer/Jobs/SyncServerJob.cs:88-95 | the ids of the libraries, position by position |
| SyncServer.LibraryIdsAppend | src/BackgroundServices/SyncServer/Jobs/SyncServerJob.cs:88-95 | the ids of concatenated lists are the ids of each part, in order |
| SyncServer.InitialProgress | src/BackgroundServices/SyncServer/Jobs/SyncServerJob.cs:69-72 | one entry per selected library, in selection order, with the library's id, nothing received, and its media count as total; ids are unique when the libraries' ids are |
| SyncServer.UpsertProgress | src/BackgroundServices/SyncServer/Jobs/SyncServerJob.cs:74-80 | the table grows by at most one and contains the update; every position keeps its id, and entries with another id are unchanged; only the first entry with the update's id can change; the length stays the same exactly when some entry had that id, and otherwise the update is appended; unique ids stay unique |
| SyncServer.ReportProgress | src/BackgroundServices/SyncServer/Jobs/SyncServerJob.cs:74-82 | one push of the table per progress update |
| SyncServer.ReportProgressPushAfterEachUpdate | src/BackgroundServices/SyncServer/Jobs/SyncServerJob.cs:74-82 | the k-th push is for the job's server and carries the table exactly as it stands after the first k+1 updates have been applied |
| SyncServer.ReportProgressPushesTable | src/BackgroundServices/SyncServer/Jobs/SyncServerJob.cs:74-82 | every push is for the job's server; the last push carries the final table, which holds the last update; the table grows by at most one entry per update; every existing position keeps its id; unique ids stay unique |
| SyncServer.RequestedIdsAppend | src/BackgroundServices/SyncServer/Jobs/SyncServerJob.cs:86-98 | the refreshes requested by a trace split along any cut of the trace |
| SyncServer.NoRequestsAmongProgress | src/BackgroundServices/SyncServer/Jobs/SyncServerJob.cs:82 | progress pushes never request a refresh |
| SyncServer.RefreshLibrary | src/BackgroundServices/SyncServer/Jobs/SyncServerJob.cs:87-90 | one iteration extends the trace with a request for that library, followed by one push per progress update it reports; the table never shrinks; the library is appended to the failures exactly when its refresh failed |
| SyncServer.RunRefreshes | src/BackgroundServices/SyncServer/Jobs/SyncServerJob.cs:86-91 | a refresh loop only extends the trace, by at least one event per library, never shrinks the table, and only appends to the failures, at most one per library |
| SyncServer.RefreshLibraryRequests | src/BackgroundServices/SyncServer/Jobs/SyncServerJob.cs:86-91 | refreshing one library requests that library once, and the pushes that follow request nothing |
| SyncServer.RefreshLibraryFailures | src/BackgroundServices/SyncServer/Jobs/SyncServerJob.cs:88-90 | refreshing one library collects it exactly when its refresh failed |
| SyncServer.PushesForAppend | src/BackgroundServices/SyncServer/Jobs/SyncServerJob.cs:82 | two traces whose pushes are all for the server concatenate into one that is too |
| SyncServer.RefreshLibraryPushes | src/BackgroundServices/SyncServer/Jobs/SyncServerJob.cs:82-88 | refreshing one library adds only pushes for the job's server |
| SyncServer.RunRefreshesRequests | src/BackgroundServices/SyncServer/Jobs/SyncServerJob.cs:86-91 | a refresh loop requests exactly its libraries, one each, in list order |
| SyncServer.RunRefreshesFailures | src/BackgroundServices/SyncServer/Jobs/SyncServerJob.cs:86-91 | a refresh loop collects exactly the failing libraries, in list order, after the failures collected before it |
| SyncServer.RunRefreshesProgress | src/BackgroundServices/SyncServer/Jobs/SyncServerJob.cs:74-91 | a refresh loop never removes or reorders progress entries, and keeps their ids unique |
| SyncServer.RunRefreshesPushes | src/BackgroundServices/SyncServer/Jobs/SyncServerJob.cs:82-91 | every progress push a refresh loop adds is for the job's server |
| SyncServer.TwoRunsRequests | src/BackgroundServices/SyncServer/Jobs/SyncServerJob.cs:85-98 | two refresh loops in sequence request the first list's libraries, then the second's, in order |
| SyncServer.SyncRun | src/BackgroundServices/SyncServer/Jobs/SyncServerJob.cs:69-98 | the run keeps a table entry per selected library, records at least one event per refreshed Movie or TvShow library, and collects at most one failure per refreshed library |
| SyncServer.SyncRunRequestsMoviesThenShows | src/BackgroundServices/SyncServer/Jobs/SyncServerJob.cs:85-98 | the job requests every selected Movie library, in selection order, and then every selected TvShow library, and nothing else |
| SyncServer.SyncRunRefreshesOnlyMoviesAndShows | src/BackgroundServices/SyncServer/Jobs/SyncServerJob.cs:86-98 | every refreshed library is a selected Movie or TvShow library, even when the sync is forced |
| SyncServer.TwoRunsFailures | src/BackgroundServices/SyncServer/Jobs/SyncServerJob.cs:85-98 | two refresh loops in sequence collect the failing libraries of both lists, in order |
| SyncServer.SyncRunCollectsFailures | src/BackgroundServices/SyncServer/Jobs/SyncServerJob.cs:89-97 | exactly one collected failure per refreshed library that failed, in refresh order |
| SyncServer.SyncRunFailsIffSomeRefreshFailed | src/BackgroundServices/SyncServer/Jobs/SyncServerJob.cs:100-106 | failures are collected exactly when some refreshed library failed |
| SyncServer.SyncRunKeepsProgressEntries | src/BackgroundServices/SyncServer/Jobs/SyncServerJob.cs:69-98 | the final table still starts with one entry per selected library, in order, and its ids are unique when the libraries' ids are |
| SyncServer.SyncRunPushesForServer | src/BackgroundServices/SyncServer/Jobs/SyncServerJob.cs:82 | every progress push of the job is for the job's server |
| SyncServer.Execute | src/BackgroundServices/SyncServer/Jobs/SyncServerJob.cs:34-114 | a failed lookup, a server without libraries (a swallowed exception), or an empty selection ends the job with no refresh and no push; otherwise the trace and table are those of the specified run, Movie ids are requested before TvShow ids, and the job succeeds exactly when every refresh succeeded; every push is for the job's server |
| SyncServer.SyncLibraries | src/BackgroundServices/SyncServer/Jobs/SyncServerJob.cs:69-98 | builds the table, then runs the Movie loop and the TvShow loop, producing exactly the run `SyncRun` specifies |
| SyncServer.RefreshEach | src/BackgroundServices/SyncServer/Jobs/SyncServerJob.cs:86-98 | its loop refreshes each library in turn, applying the reported progress and collecting failures, exactly as `RunRefreshes` specifies |
| PlexServers.ServerWithMachineIdentifier | src/Application/Services/PlexServerService.cs:187-189 | returns a stored server with that machine identifier, and none exactly when no stored server has it |
| PlexServers.UpdateServer | src/Application/Services/PlexServerService.cs:191-194 | the stored server with the same key is replaced and every other one is unchanged; the account links and the next key are unchanged; one `Updated` write is logged; the store stays valid |
| PlexServers.AddServer | src/Application/Services/PlexServerService.cs:195-205 | the server is appended under a fresh key, with its account links pointing at that key and stored in the link table; one `Added` write is logged; the store stays valid |
| PlexServers.WithScheme | src/Application/Services/PlexServerService.cs:181-184 | port 443 gets scheme "https"; any other port keeps its scheme; nothing else changes |
| PlexServers.UpsertServer | src/Application/Services/PlexServerService.cs:178-206 | exactly one write per server: an `Updated` write when the machine identifier is stored, an `Added` one otherwise. When stored, the server takes the stored key and overwrites the stored record with that key, every other record stays as it was, no server is added, and no link is made. Otherwise it is appended with exactly one link, to the account. The scheme is normalised and the name, machine identifier and port are kept |
| PlexServers.UpsertAll | src/Application/Services/PlexServerService.cs:178-206 | the loop keeps the store valid (positive, unique keys below the next key) and processes one server per incoming server |
| PlexServers.AddOrUpdateEffect | src/Application/Services/PlexServerService.cs:160-206 | without an account or with an empty list the repository is unchanged; otherwise it stays valid, and the write log keeps earlier writes and gains exactly one write per server |
| PlexServers.UpsertAllWritesOncePerServer | src/Application/Services/PlexServerService.cs:178-206 | the loop makes exactly one repository write per server, in list order, each for the key that server ends up with, and keeps earlier writes |
| PlexServers.UpsertAllNormalisesSchemes | src/Application/Services/PlexServerService.cs:181-184 | every processed port-443 server has scheme "https", every other one keeps its scheme, and name, machine identifier and port are kept |
| PlexServers.UpsertServerKeepsMachineIdentifiersUnique | src/Application/Services/PlexServerService.cs:187-205 | upserting one server never gives two stored servers the same machine identifier |
| PlexServers.UpsertAllKeepsMachineIdentifiersUnique | src/Application/Services/PlexServerService.cs:178-206 | the whole loop never gives two stored servers the same machine identifier, even when the list repeats one |
| PlexServers.ServersOf | src/Application/Services/PlexServerService.cs:142 | exactly the stored servers linked to the account |
| PlexServers.UpsertServerKeepsVisible | src/Application/Services/PlexServerService.cs:187-205 | a server an account sees stays visible to it, under the same machine identifier |
| PlexServers.UpsertAllKeepsVisible | src/Application/Services/PlexServerService.cs:178-206 | after the loop, every account still sees every machine identifier it saw |
| PlexServers.UpsertAllMakesNewServersVisible | src/Application/Services/PlexServerService.cs:195-205 | after the loop, the account sees every server of the list whose machine identifier was not stored before |
| PlexServers.AddedServersComeFromTheList | src/Application/Services/PlexServerService.cs:178-206 | a stored machine identifier that was not stored before the loop belongs to a server of the list |
| PlexServers.RefreshedServersAreVisible | src/Application/Services/PlexServerService.cs:59-62 | after a refresh, the account sees every server the API returned whose machine identifier was new |
| PlexServers.PlexServerRepository.FindByMachineIdentifier | src/Application/Services/PlexServerService.cs:187-189 | returns the stored server with the machine identifier, if any |
| PlexServers.PlexServerRepository.Update | src/Application/Services/PlexServerService.cs:193 | the new state is `UpdateServer` of the old one, and the store stays valid |
| PlexServers.PlexServerRepository.Add | src/Application/Services/PlexServerService.cs:204 | the new state and the returned entity are `AddServer` of the old state, and the store stays valid |
| PlexServers.PlexServerRepository.GetServers | src/Application/Services/PlexServerService.cs:142 | the stored servers linked to the account, in table order |
| PlexServers.PlexServerService.AddOrUpdatePlexServers | src/Application/Services/PlexServerService.cs:160-211 | without an account or with an empty list, nothing changes; otherwise the repository and the processed servers are those of the upsert loop over the list, and the store stays valid |
| PlexServers.PlexServerService.UpsertPlexServer | src/Application/Services/PlexServerService.cs:178-206 | one iteration of the loop: state and processed server are `UpsertServer` of the old state |
| PlexServers.PlexServerService.RefreshPlexServers | src/Application/Services/PlexServerService.cs:41-75 | succeeds exactly when there is an account and a non-empty token; on failure nothing changes, on success the API's servers are stored as `AddOrUpdatePlexServers` stores them |
| PlexServers.PlexServerService.GetServers | src/Application/Services/PlexServerService.cs:133-158 | without an account, an empty list and no refresh; otherwise a refresh happens exactly when asked for or when the account has no servers; without a refresh, or when the refresh fails, the first read is returned and nothing changes; after a successful refresh the servers are read again |
| PlexDownloads.Validate | src/Data/CQRS/PlexDownloads/Commands/DeleteDownloadWorkerTasksByDownloadTaskIdCommandHandler.cs:9-15 | no errors exactly when the download task id is greater than 0; otherwise the single "greater than 0" error on `DownloadTaskId` |
| PlexDownloads.Matching | src/Data/CQRS/PlexDownloads/Commands/DeleteDownloadWorkerTasksByDownloadTaskIdCommandHandler.cs:24-26 | exactly the rows of the given download task |
| PlexDownloads.Remaining | src/Data/CQRS/PlexDownloads/Commands/DeleteDownloadWorkerTasksByDownloadTaskIdCommandHandler.cs:34 | exactly the rows of the other download tasks |
| PlexDownloads.Without | src/Data/CQRS/PlexDownloads/Commands/DeleteDownloadWorkerTasksByDownloadTaskIdCommandHandler.cs:34 | exactly the rows not among the removed ones |
| PlexDownloads.RemovingMatchesLeavesRemaining | src/Data/CQRS/PlexDownloads/Commands/DeleteDownloadWorkerTasksByDownloadTaskIdCommandHandler.cs:24-35 | removing the rows the query found leaves exactly the rows of the other download tasks, in table order |
| PlexDownloads.MatchingAndRemainingPartitionRows | src/Data/CQRS/PlexDownloads/Commands/DeleteDownloadWorkerTasksByDownloadTaskIdCommandHandler.cs:24-35 | each row is either removed or kept, never both: the two multisets add up to the table |
| PlexDownloads.OtherDownloadTasksKeepTheirRows | src/Data/CQRS/PlexDownloads/Commands/DeleteDownloadWorkerTasksByDownloadTaskIdCommandHandler.cs:24-34 | deleting one download task's rows leaves every other download task's rows as they were, in order |
| PlexDownloads.NothingLeftToDelete | src/Data/CQRS/PlexDownloads/Commands/DeleteDownloadWorkerTasksByDownloadTaskIdCommandHandler.cs:24-35 | after a deletion no row of that download task is left, so repeating the command fails |
| PlexDownloads.RejectedCommandsMatchNoRows | src/Data/CQRS/PlexDownloads/Commands/DeleteDownloadWorkerTasksByDownloadTaskIdCommandHandler.cs:13-26 | when every row belongs to a download task with a positive key, a command the validator rejects would find no row |
| PlexDownloads.PlexRipperDbContext.WorkerTasksOf | src/Data/CQRS/PlexDownloads/Commands/DeleteDownloadWorkerTasksByDownloadTaskIdCommandHandler.cs:24-26 | the rows of the download task, in table order |
| PlexDownloads.PlexRipperDbContext.RemoveRange | src/Data/CQRS/PlexDownloads/Commands/DeleteDownloadWorkerTasksByDownloadTaskIdCommandHandler.cs:34-35 | the table loses exactly the given rows and keeps the others in order |
| PlexDownloads.DeleteDownloadWorkerTasksCommandHandler.Handle | src/Data/CQRS/PlexDownloads/Commands/DeleteDownloadWorkerTasksByDownloadTaskIdCommandHandler.cs:22-38 | fails exactly when the download task has no rows, with that id in the error and the table unchanged; otherwise the table becomes exactly the rows of the other download tasks, in order |

## Left out

- The download engine (queue, segment planning, workers, progress roll-up): its implementation is not part of this model; only its interface exists in the repository.
- Logging (`Log.Warning`, `LogError`, `LogWarning`): it is a side effect and does not affect results. The warnings inside `GetServerUrl` are left out as well.
- The async execution model: each awaited call is a sequential step, and cancellation tokens are ignored.
- Quartz job plumbing: the job's server id and force flag are parameters of `Execute`, not read from the job data map.
- The server lookup of the sync job (a mediator query) is a `Result` parameter. Each library refresh is a `RefreshOutcome` parameter: the progress updates it reports, and whether it succeeded.
- SyncServer.Execute: the push to clients is a `ProgressSent` event carrying a snapshot of the table. The source passes the live list, and sends without awaiting, so clients could observe a later state; that aliasing is not modelled.
- SyncServer.Execute: an exception thrown by a refresh is not modelled; the job swallows it. The only swallowed exception modelled is the one from a server without libraries, as `Faulted`. The nested error messages of the failed result are modelled as the failed library ids.
- Media types other than Movie, TvShow, Season and Episode are collapsed into `Other`. The field names of `LibraryProgress` are assumed, since its declaration is not part of this model.
- PlexServers.PlexServerService.RefreshPlexServers: the token service and the Plex API call are parameters. The status check and library refresh of each server are not modelled (network calls), nor is the status table they write.
- The server repository's implementation is not part of this model. `GetServers(accountId)` is modelled as the stored servers linked to the account through the account/server table, in table order. `FindAsync` returns the first stored match. `UpdateAsync` replaces the record with the same key. `AddAsync` assigns the next key and stores the account links with the new key.
- `PlexServerService.cs` is an older revision than `PlexServer.cs`: its server record carries `Port` and `Scheme`, so `PlexServers.PlexServer` is a datatype separate from `Plex.PlexServer`.
- PlexServers.PlexServerService.AddOrUpdatePlexServers: a null server list (a `NullReferenceException` in the source) is not modelled; the list is a sequence.
- `AddServersAsync`, `GetPlexServerStatusAsync` and `GetAllLibraryMediaAsync` of the server service are not modelled: they are repository or network pass-throughs.
- The mediator pipeline that runs the validator before the handler is not part of this model. `Validate` and `Handle` are modelled separately, and `RejectedCommandsMatchNoRows` relates them.
- PlexDownloads.PlexRipperDbContext.RemoveRange: EF change tracking is collapsed into one step. Removing the rows and `SaveChangesAsync` happen together, and rows are identified by value, which is their key.
