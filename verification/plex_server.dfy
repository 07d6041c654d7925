/** The PlexServer entity and the values it derives from its relationships:
    the server url chosen among its connections, the library-section url, the
    last known status and the download tasks of its libraries. */
module Plex {
  import opened Wrappers
  import opened Sequences

  datatype PlexServerConnection = PlexServerConnection(id: int, address: string, url: string)

  datatype PlexServerStatus = PlexServerStatus(
    id: int,
    isSuccessful: bool,
    statusCode: int,
    statusMessage: string,
    plexServerId: int)

  datatype DownloadTask = DownloadTask(id: int, fileName: string)

  /** The media types a library can hold; values the source does not name are `Other`. */
  datatype PlexMediaType = Movie | TvShow | Season | Episode | Other

  /** A library; `downloadTasks` is a navigation list that may not be loaded (null). */
  datatype PlexLibrary = PlexLibrary(
    id: int,
    kind: PlexMediaType,
    outdated: bool,
    mediaCount: int,
    downloadTasks: Option<seq<DownloadTask>>)

  /** The persisted server. `plexLibraries` may be null; the status log and the
      connection list are always present. */
  datatype PlexServer = PlexServer(
    id: int,
    name: string,
    machineIdentifier: string,
    publicAddress: string,
    preferredConnectionId: int,
    plexLibraries: Option<seq<PlexLibrary>>,
    serverStatus: seq<PlexServerStatus>,
    plexServerConnections: seq<PlexServerConnection>)

  /** What the derived properties raise instead of returning a value. */
  datatype ServerError =
    | NoConnectionsAvailable(serverId: int, serverName: string)
    | DownloadTasksNotLoaded(libraryId: int)

  const LibrarySectionsPath: string := "/library/sections"
  const NotCheckedYet: string := "Not checked yet"

  function HasId(id: int): PlexServerConnection -> bool
  {
    (c: PlexServerConnection) => c.id == id
  }

  function HasAddress(address: string): PlexServerConnection -> bool
  {
    (c: PlexServerConnection) => c.address == address
  }

  /** The connection the server looks for: by the preferred id when one is configured,
      otherwise by the public address. */
  function SelectionRule(server: PlexServer): PlexServerConnection -> bool
  {
    if server.preferredConnectionId > 0 then HasId(server.preferredConnectionId)
    else HasAddress(server.publicAddress)
  }

  /** The connection url: the preferred connection when one is configured and present,
      otherwise the connection on the public address, otherwise the first connection. */
  function GetServerUrl(server: PlexServer): (r: Result<string, ServerError>)
    ensures r.Failure? <==> server.plexServerConnections == []
    ensures r.Failure? ==> r.error == NoConnectionsAvailable(server.id, server.name)
    ensures r.Success? ==>
      exists i :: 0 <= i < |server.plexServerConnections| && r.value == server.plexServerConnections[i].url
    ensures server.preferredConnectionId > 0 ==>
      forall i :: IsFirst(server.plexServerConnections, HasId(server.preferredConnectionId), i) ==>
        r == Success(server.plexServerConnections[i].url)
    ensures server.preferredConnectionId <= 0 ==>
      forall i :: IsFirst(server.plexServerConnections, HasAddress(server.publicAddress), i) ==>
        r == Success(server.plexServerConnections[i].url)
    ensures (server.plexServerConnections != [] &&
             forall j :: 0 <= j < |server.plexServerConnections| ==>
               !SelectionRule(server)(server.plexServerConnections[j])) ==>
      r == Success(server.plexServerConnections[0].url)
  {
    var cs := server.plexServerConnections;
    if cs == [] then
      Failure(NoConnectionsAvailable(server.id, server.name))
    else
      match FindFirst(cs, SelectionRule(server))
      case Some(i) => Success(cs[i].url)
      case None => Success(cs[0].url)
  }

  /** The library-section url, derived from the server url. */
  function LibraryUrl(server: PlexServer): (r: Result<string, ServerError>)
    ensures r.Failure? <==> server.plexServerConnections == []
    ensures r.Success? ==>
      exists i :: 0 <= i < |server.plexServerConnections| &&
        r.value == server.plexServerConnections[i].url + LibrarySectionsPath
  {
    match GetServerUrl(server)
    case Success(url) => Success(url + LibrarySectionsPath)
    case Failure(e) => Failure(e)
  }

  /** The library url always ends in the sections path and starts with the server url. */
  lemma LibraryUrlExtendsServerUrl(server: PlexServer)
    requires server.plexServerConnections != []
    ensures LibraryUrl(server).Success? && GetServerUrl(server).Success?
    ensures var u := GetServerUrl(server).value; var l := LibraryUrl(server).value;
      |l| == |u| + |LibrarySectionsPath| && l[..|u|] == u && l[|u|..] == LibrarySectionsPath
  {
  }

  /** The last known status: the newest entry of the status log, or a default
      unsuccessful status for this server when nothing has been logged yet. */
  function Status(server: PlexServer): (r: PlexServerStatus)
    ensures server.serverStatus != [] ==> r == server.serverStatus[|server.serverStatus| - 1]
    ensures server.serverStatus == [] ==>
      r.id == 0 && !r.isSuccessful && r.statusCode == 0 &&
      r.plexServerId == server.id && r.statusMessage == NotCheckedYet
  {
    if server.serverStatus != [] then server.serverStatus[|server.serverStatus| - 1]
    else PlexServerStatus(0, false, 0, NotCheckedYet, server.id)
  }

  /** Logging a new status makes it the server's status. */
  lemma LoggedStatusBecomesCurrent(server: PlexServer, status: PlexServerStatus)
    ensures Status(server.(serverStatus := server.serverStatus + [status])) == status
  {
  }

  /** A successful status can only come from the log. */
  lemma SuccessfulStatusIsLogged(server: PlexServer)
    requires Status(server).isSuccessful
    ensures Status(server) in server.serverStatus
  {
  }

  /** `SelectMany` over the libraries' task lists, which fails on the first list
      that is not loaded. */
  function ConcatTasks(libraries: seq<PlexLibrary>): (r: Result<seq<DownloadTask>, ServerError>)
    ensures r.Failure? <==> exists i :: 0 <= i < |libraries| && libraries[i].downloadTasks.None?
    ensures r.Success? ==>
      forall t :: t in r.value <==>
        exists i :: 0 <= i < |libraries| && t in libraries[i].downloadTasks.value
  {
    if libraries == [] then Success([])
    else match libraries[0].downloadTasks
      case None => Failure(DownloadTasksNotLoaded(libraries[0].id))
      case Some(tasks) =>
        match ConcatTasks(libraries[1..])
        case Failure(e) => Failure(e)
        case Success(rest) =>
          assert forall i :: 1 <= i < |libraries| ==> libraries[i] == libraries[1..][i - 1];
          Success(tasks + rest)
  }

  /** The tasks of a longer library list are those of its parts, in library order. */
  lemma {:induction false} ConcatTasksAppend(a: seq<PlexLibrary>, b: seq<PlexLibrary>)
    requires ConcatTasks(a).Success? && ConcatTasks(b).Success?
    ensures ConcatTasks(a + b) == Success(ConcatTasks(a).value + ConcatTasks(b).value)
  {
    if a == [] {
      assert a + b == b;
      assert ConcatTasks(a).value == [];
      assert [] + ConcatTasks(b).value == ConcatTasks(b).value;
    } else {
      var tail := a[1..];
      assert (a + b)[1..] == tail + b;
      assert (a + b)[0] == a[0];
      assert forall i :: 0 <= i < |tail| ==> tail[i] == a[i + 1];
      var tasks := a[0].downloadTasks.value;
      var restA := ConcatTasks(tail).value;
      var restB := ConcatTasks(b).value;
      ConcatTasksAppend(tail, b);
      calc {
        ConcatTasks(a + b);
        Success(tasks + ConcatTasks(tail + b).value);
        Success(tasks + (restA + restB));
        { assert tasks + (restA + restB) == (tasks + restA) + restB; }
        Success((tasks + restA) + restB);
      }
    }
  }

  /** All download tasks of the server's libraries; no libraries means no tasks. */
  function DownloadTasks(server: PlexServer): (r: Result<seq<DownloadTask>, ServerError>)
    ensures server.plexLibraries.None? ==> r == Success([])
    ensures server.plexLibraries.Some? ==> r == ConcatTasks(server.plexLibraries.value)
  {
    match server.plexLibraries
    case None => Success([])
    case Some(libraries) => ConcatTasks(libraries)
  }

  /** A library whose task list is loaded and non-empty. */
  predicate HoldsTasks(library: PlexLibrary)
  {
    library.downloadTasks.Some? && library.downloadTasks.value != []
  }

  /** `Any` over the libraries, a library whose list is not loaded counting as empty. */
  function AnyLibraryHasTasks(libraries: seq<PlexLibrary>): (r: bool)
    ensures r <==> exists i :: 0 <= i < |libraries| && HoldsTasks(libraries[i])
  {
    if libraries == [] then false
    else
      assert forall i :: 1 <= i < |libraries| ==> libraries[i] == libraries[1..][i - 1];
      HoldsTasks(libraries[0]) || AnyLibraryHasTasks(libraries[1..])
  }

  /** Whether any library of the server holds a download task. */
  function HasDownloadTasks(server: PlexServer): (r: bool)
    ensures server.plexLibraries.None? ==> !r
    ensures server.plexLibraries.Some? ==> r == AnyLibraryHasTasks(server.plexLibraries.value)
  {
    match server.plexLibraries
    case None => false
    case Some(libraries) => AnyLibraryHasTasks(libraries)
  }

  /** Whenever the task list can be built, the server has download tasks exactly
      when that list is non-empty. */
  lemma {:induction false} HasTasksIffListNonEmpty(libraries: seq<PlexLibrary>)
    requires ConcatTasks(libraries).Success?
    ensures AnyLibraryHasTasks(libraries) <==> ConcatTasks(libraries).value != []
  {
    if libraries != [] {
      HasTasksIffListNonEmpty(libraries[1..]);
    }
  }

  lemma HasDownloadTasksMatchesDownloadTasks(server: PlexServer)
    requires DownloadTasks(server).Success?
    ensures HasDownloadTasks(server) <==> DownloadTasks(server).value != []
  {
    if server.plexLibraries.Some? {
      HasTasksIffListNonEmpty(server.plexLibraries.value);
    }
  }
}
