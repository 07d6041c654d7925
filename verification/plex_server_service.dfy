/** The server service: storing the servers an account can see, keyed by their
    machine identifier, and reading them back with an optional refresh.
    This file models the revision of the service in which a server record carries
    its own port and scheme. The Plex API, the token service and the status checks
    are not part of this model: the token and the server list the API returns are
    parameters. */
module PlexServers {
  import opened Wrappers
  import opened Sequences

  datatype PlexAccount = PlexAccount(id: int)

  /** A row of the many-to-many table between accounts and servers. */
  datatype PlexAccountServer = PlexAccountServer(plexAccountId: int, plexServerId: int)

  datatype PlexServer = PlexServer(
    id: int,
    name: string,
    machineIdentifier: string,
    port: int,
    scheme: string,
    plexAccountServers: seq<PlexAccountServer>)

  /** One write the service makes to the server repository. */
  datatype RepositoryWrite = Updated(serverId: int) | Added(serverId: int)

  const HttpsPort: int := 443
  const Https: string := "https"

  /** The contents of the server repository: the server table, the account/server
      table, the next key the store hands out, and the writes made so far. */
  datatype Store = Store(
    servers: seq<PlexServer>,
    accountServers: seq<PlexAccountServer>,
    nextId: int,
    writes: seq<RepositoryWrite>)

  /** Keys are positive, below the next key, and unique. */
  ghost predicate ValidStore(st: Store)
  {
    && 0 < st.nextId
    && (forall i :: 0 <= i < |st.servers| ==> 0 < st.servers[i].id < st.nextId)
    && (forall i, j :: 0 <= i < j < |st.servers| ==> st.servers[i].id != st.servers[j].id)
  }

  /** No two stored servers share a machine identifier. */
  ghost predicate UniqueMachineIdentifiers(servers: seq<PlexServer>)
  {
    forall i, j :: 0 <= i < j < |servers| ==> servers[i].machineIdentifier != servers[j].machineIdentifier
  }

  function HasMachineIdentifier(machineIdentifier: string): PlexServer -> bool
  {
    (s: PlexServer) => s.machineIdentifier == machineIdentifier
  }

  function HasServerId(id: int): PlexServer -> bool
  {
    (s: PlexServer) => s.id == id
  }

  /** The stored server with the given machine identifier, if any. */
  function ServerWithMachineIdentifier(st: Store, machineIdentifier: string): (r: Option<PlexServer>)
    ensures r.Some? ==> r.value in st.servers && r.value.machineIdentifier == machineIdentifier
    ensures r.None? <==> forall i :: 0 <= i < |st.servers| ==> st.servers[i].machineIdentifier != machineIdentifier
  {
    match FindFirst(st.servers, HasMachineIdentifier(machineIdentifier))
    case Some(i) => Some(st.servers[i])
    case None => None
  }

  /** Overwrite the stored server with the same key. */
  function UpdateServer(st: Store, server: PlexServer): (r: Store)
    requires ValidStore(st)
    requires exists i :: 0 <= i < |st.servers| && st.servers[i].id == server.id
    ensures ValidStore(r)
    ensures |r.servers| == |st.servers|
    ensures forall i :: 0 <= i < |st.servers| ==>
      r.servers[i] == if st.servers[i].id == server.id then server else st.servers[i]
    ensures r.accountServers == st.accountServers && r.nextId == st.nextId
    ensures r.writes == st.writes + [Updated(server.id)]
  {
    match FindFirst(st.servers, HasServerId(server.id))
    case Some(i) => st.(servers := st.servers[i := server], writes := st.writes + [Updated(server.id)])
  }

  /** Insert a server: the store gives it the next key, and its account links are
      stored in the account/server table pointing at that key. */
  function AddServer(st: Store, server: PlexServer): (r: (Store, PlexServer))
    requires ValidStore(st)
    ensures ValidStore(r.0)
    ensures r.1.id == st.nextId && forall i :: 0 <= i < |st.servers| ==> st.servers[i].id != r.1.id
    ensures r.1 == server.(id := r.1.id, plexAccountServers := r.1.plexAccountServers)
    ensures |r.1.plexAccountServers| == |server.plexAccountServers|
    ensures forall k :: 0 <= k < |server.plexAccountServers| ==>
      r.1.plexAccountServers[k] == server.plexAccountServers[k].(plexServerId := r.1.id)
    ensures r.0.servers == st.servers + [r.1]
    ensures r.0.accountServers == st.accountServers + r.1.plexAccountServers
    ensures r.0.nextId == st.nextId + 1
    ensures r.0.writes == st.writes + [Added(r.1.id)]
  {
    var links := seq(|server.plexAccountServers|, k requires 0 <= k < |server.plexAccountServers| =>
      server.plexAccountServers[k].(plexServerId := st.nextId));
    var stored := server.(id := st.nextId, plexAccountServers := links);
    (Store(st.servers + [stored], st.accountServers + links, st.nextId + 1, st.writes + [Added(stored.id)]), stored)
  }

  /** Normalise the scheme: a server on port 443 is reached over https. */
  function WithScheme(server: PlexServer): (r: PlexServer)
    ensures r.scheme == (if server.port == HttpsPort then Https else server.scheme)
    ensures r == server.(scheme := r.scheme)
  {
    if server.port == HttpsPort then server.(scheme := Https) else server
  }

  /** One iteration of the upsert loop: a server whose machine identifier is already
      stored takes the stored key and overwrites it; any other server is added with a
      single link to the account. Returns the store and the server as processed. */
  function UpsertServer(st: Store, incoming: PlexServer, accountId: int): (r: (Store, PlexServer))
    requires ValidStore(st)
    ensures ValidStore(r.0)
    ensures r.1.scheme == (if incoming.port == HttpsPort then Https else incoming.scheme)
    ensures r.1.machineIdentifier == incoming.machineIdentifier && r.1.port == incoming.port
    ensures r.1.name == incoming.name
    ensures r.0.writes == st.writes +
      [if ServerWithMachineIdentifier(st, incoming.machineIdentifier).Some? then Updated(r.1.id) else Added(r.1.id)]
    ensures ServerWithMachineIdentifier(st, incoming.machineIdentifier).Some? ==>
      && r.1.id == ServerWithMachineIdentifier(st, incoming.machineIdentifier).value.id
      && r.1 == incoming.(id := r.1.id, scheme := r.1.scheme)
      && |r.0.servers| == |st.servers|
      && (forall i :: 0 <= i < |st.servers| ==>
            r.0.servers[i] == if st.servers[i].id == r.1.id then r.1 else st.servers[i])
      && r.0.accountServers == st.accountServers
    ensures ServerWithMachineIdentifier(st, incoming.machineIdentifier).None? ==>
      && r.1.plexAccountServers == [PlexAccountServer(accountId, r.1.id)]
      && r.0.servers == st.servers + [r.1]
      && r.0.accountServers == st.accountServers + [PlexAccountServer(accountId, r.1.id)]
  {
    var server := WithScheme(incoming);
    match ServerWithMachineIdentifier(st, server.machineIdentifier)
    case Some(stored) =>
      var updated := server.(id := stored.id);
      (UpdateServer(st, updated), updated)
    case None =>
      AddServer(st, server.(plexAccountServers := [PlexAccountServer(accountId, server.id)]))
  }

  /** The upsert loop over `servers`, in list order. */
  function UpsertAll(st: Store, servers: seq<PlexServer>, accountId: int): (r: (Store, seq<PlexServer>))
    requires ValidStore(st)
    ensures ValidStore(r.0)
    ensures |r.1| == |servers|
    decreases |servers|
  {
    if servers == [] then (st, [])
    else
      var before := UpsertAll(st, servers[..|servers| - 1], accountId);
      var step := UpsertServer(before.0, servers[|servers| - 1], accountId);
      (step.0, before.1 + [step.1])
  }

  /** Exactly one repository write per server, in list order, each for the key the
      server ends up with. */
  lemma {:induction false} UpsertAllWritesOncePerServer(st: Store, servers: seq<PlexServer>, accountId: int)
    requires ValidStore(st)
    ensures var r := UpsertAll(st, servers, accountId);
      && |r.0.writes| == |st.writes| + |servers|
      && r.0.writes[..|st.writes|] == st.writes
      && (forall k :: 0 <= k < |servers| ==> r.0.writes[|st.writes| + k].serverId == r.1[k].id)
    decreases |servers|
  {
    if servers != [] {
      var front := servers[..|servers| - 1];
      UpsertAllWritesOncePerServer(st, front, accountId);
      var before := UpsertAll(st, front, accountId);
      var step := UpsertServer(before.0, servers[|servers| - 1], accountId);
      var r := UpsertAll(st, servers, accountId);
      assert r == (step.0, before.1 + [step.1]);
      assert |step.0.writes| == |before.0.writes| + 1;
      assert step.0.writes[..|before.0.writes|] == before.0.writes;
      assert step.0.writes[..|st.writes|] == before.0.writes[..|st.writes|];
      forall k | 0 <= k < |servers|
        ensures r.0.writes[|st.writes| + k].serverId == r.1[k].id
      {
        if k < |front| {
          assert r.0.writes[|st.writes| + k] == before.0.writes[|st.writes| + k];
          assert r.1[k] == before.1[k];
        }
      }
    }
  }

  /** The k-th processed server is the k-th incoming server with its scheme normalised:
      port 443 means https, any other port keeps the scheme it came with. */
  lemma {:induction false} UpsertAllNormalisesSchemes(st: Store, servers: seq<PlexServer>, accountId: int, k: int)
    requires ValidStore(st) && 0 <= k < |servers|
    ensures var p := UpsertAll(st, servers, accountId).1[k];
      && p.scheme == (if servers[k].port == HttpsPort then Https else servers[k].scheme)
      && p.machineIdentifier == servers[k].machineIdentifier
      && p.port == servers[k].port
      && p.name == servers[k].name
    decreases |servers|
  {
    var front := servers[..|servers| - 1];
    var before := UpsertAll(st, front, accountId);
    if k < |front| {
      UpsertAllNormalisesSchemes(st, front, accountId, k);
      assert UpsertAll(st, servers, accountId).1[k] == before.1[k];
    }
  }

  /** Upserting never stores a second server with a machine identifier already stored. */
  lemma UpsertServerKeepsMachineIdentifiersUnique(st: Store, incoming: PlexServer, accountId: int)
    requires ValidStore(st) && UniqueMachineIdentifiers(st.servers)
    ensures UniqueMachineIdentifiers(UpsertServer(st, incoming, accountId).0.servers)
  {
    var r := UpsertServer(st, incoming, accountId);
    match ServerWithMachineIdentifier(st, incoming.machineIdentifier)
    case Some(stored) =>
      forall i | 0 <= i < |st.servers|
        ensures r.0.servers[i].machineIdentifier == st.servers[i].machineIdentifier
      {
        if st.servers[i].id == stored.id {
          var j :| 0 <= j < |st.servers| && st.servers[j] == stored;
          assert i == j;
        }
      }
    case None =>
  }

  lemma {:induction false} UpsertAllKeepsMachineIdentifiersUnique(st: Store, servers: seq<PlexServer>, accountId: int)
    requires ValidStore(st) && UniqueMachineIdentifiers(st.servers)
    ensures UniqueMachineIdentifiers(UpsertAll(st, servers, accountId).0.servers)
    decreases |servers|
  {
    if servers != [] {
      var front := servers[..|servers| - 1];
      UpsertAllKeepsMachineIdentifiersUnique(st, front, accountId);
      UpsertServerKeepsMachineIdentifiersUnique(UpsertAll(st, front, accountId).0, servers[|servers| - 1], accountId);
    }
  }

  /** The servers the account is linked to, in table order. */
  function ServersOf(st: Store, accountId: int): (r: seq<PlexServer>)
    ensures forall s :: s in r <==> s in st.servers && PlexAccountServer(accountId, s.id) in st.accountServers
  {
    Filter(st.servers, (s: PlexServer) => PlexAccountServer(accountId, s.id) in st.accountServers)
  }

  /** The account sees a server with this machine identifier. */
  ghost predicate Sees(st: Store, accountId: int, machineIdentifier: string)
  {
    exists s :: s in ServersOf(st, accountId) && s.machineIdentifier == machineIdentifier
  }

  /** A server the account sees stays visible to it, under the same machine identifier. */
  lemma UpsertServerKeepsVisible(st: Store, incoming: PlexServer, accountId: int, other: int, machineIdentifier: string)
    requires ValidStore(st) && Sees(st, other, machineIdentifier)
    ensures Sees(UpsertServer(st, incoming, accountId).0, other, machineIdentifier)
  {
    var r := UpsertServer(st, incoming, accountId);
    var s :| s in ServersOf(st, other) && s.machineIdentifier == machineIdentifier;
    var i :| 0 <= i < |st.servers| && st.servers[i] == s;
    match ServerWithMachineIdentifier(st, incoming.machineIdentifier)
    case Some(stored) =>
      if s.id == stored.id {
        var j :| 0 <= j < |st.servers| && st.servers[j] == stored;
        assert i == j;
      }
      assert r.0.servers[i] in ServersOf(r.0, other);
    case None =>
      assert r.0.servers[i] in ServersOf(r.0, other);
  }

  /** After the upsert loop, an account still sees every server it saw. */
  lemma {:induction false} UpsertAllKeepsVisible(st: Store, servers: seq<PlexServer>, accountId: int, other: int, m: string)
    requires ValidStore(st) && Sees(st, other, m)
    ensures Sees(UpsertAll(st, servers, accountId).0, other, m)
    decreases |servers|
  {
    if servers != [] {
      var front := servers[..|servers| - 1];
      UpsertAllKeepsVisible(st, front, accountId, other, m);
      UpsertServerKeepsVisible(UpsertAll(st, front, accountId).0, servers[|servers| - 1], accountId, other, m);
    }
  }

  /** After the upsert loop, the account sees every server of the list whose machine
      identifier was not stored before. */
  lemma {:induction false} UpsertAllMakesNewServersVisible(st: Store, servers: seq<PlexServer>, accountId: int, k: int)
    requires ValidStore(st) && 0 <= k < |servers|
    requires ServerWithMachineIdentifier(st, servers[k].machineIdentifier).None?
    ensures Sees(UpsertAll(st, servers, accountId).0, accountId, servers[k].machineIdentifier)
    decreases |servers|
  {
    var front := servers[..|servers| - 1];
    var last := servers[|servers| - 1];
    var before := UpsertAll(st, front, accountId).0;
    var step := UpsertServer(before, last, accountId);
    assert UpsertAll(st, servers, accountId).0 == step.0;
    if k < |front| {
      assert front[k] == servers[k];
      UpsertAllMakesNewServersVisible(st, front, accountId, k);
      UpsertServerKeepsVisible(before, last, accountId, accountId, servers[k].machineIdentifier);
    } else if ServerWithMachineIdentifier(before, last.machineIdentifier).None? {
      assert step.1 == step.0.servers[|step.0.servers| - 1];
      assert step.1 in ServersOf(step.0, accountId);
    } else {
      // The machine identifier was stored by an earlier iteration of this loop.
      var stored := ServerWithMachineIdentifier(before, last.machineIdentifier).value;
      assert k == |servers| - 1 && servers[k] == last;
      assert stored in before.servers && stored.machineIdentifier == last.machineIdentifier;
      AddedServersComeFromTheList(st, front, accountId, stored);
      var j :| 0 <= j < |front| && front[j].machineIdentifier == stored.machineIdentifier;
      UpsertAllMakesNewServersVisible(st, front, accountId, j);
      UpsertServerKeepsVisible(before, last, accountId, accountId, last.machineIdentifier);
    }
  }

  /** A server stored after the loop whose machine identifier was not stored before
      came from the list. */
  lemma {:induction false} AddedServersComeFromTheList(st: Store, servers: seq<PlexServer>, accountId: int, s: PlexServer)
    requires ValidStore(st)
    requires s in UpsertAll(st, servers, accountId).0.servers
    requires ServerWithMachineIdentifier(st, s.machineIdentifier).None?
    ensures exists k :: 0 <= k < |servers| && servers[k].machineIdentifier == s.machineIdentifier
    decreases |servers|
  {
    if servers != [] {
      var front := servers[..|servers| - 1];
      var last := servers[|servers| - 1];
      var before := UpsertAll(st, front, accountId).0;
      var after := UpsertServer(before, last, accountId);
      if s.machineIdentifier != last.machineIdentifier {
        assert s in before.servers;
        AddedServersComeFromTheList(st, front, accountId, s);
        var k :| 0 <= k < |front| && front[k].machineIdentifier == s.machineIdentifier;
        assert servers[k] == front[k];
      } else {
        assert servers[|servers| - 1].machineIdentifier == s.machineIdentifier;
      }
    }
  }

  /** What AddOrUpdatePlexServersAsync does to the repository. */
  function AddOrUpdateEffect(st: Store, account: Option<PlexAccount>, servers: seq<PlexServer>): (r: Store)
    requires ValidStore(st)
    ensures ValidStore(r)
    ensures account.None? || servers == [] ==> r == st
    ensures |r.writes| == |st.writes| + (if account.None? then 0 else |servers|)
    ensures r.writes[..|st.writes|] == st.writes
  {
    if account.None? || servers == [] then st
    else
      UpsertAllWritesOncePerServer(st, servers, account.value.id);
      UpsertAll(st, servers, account.value.id).0
  }

  /** The server repository. */
  class PlexServerRepository {
    var servers: seq<PlexServer>
    var accountServers: seq<PlexAccountServer>
    var nextId: int
    var writes: seq<RepositoryWrite>

    function State(): Store
      reads this
    {
      Store(servers, accountServers, nextId, writes)
    }

    ghost predicate Valid()
      reads this
    {
      ValidStore(State())
    }

    constructor ()
      ensures Valid() && State() == Store([], [], 1, [])
    {
      servers, accountServers, nextId, writes := [], [], 1, [];
    }

    method FindByMachineIdentifier(machineIdentifier: string) returns (r: Option<PlexServer>)
      ensures r == ServerWithMachineIdentifier(State(), machineIdentifier)
      ensures r.Some? ==> r.value in servers && r.value.machineIdentifier == machineIdentifier
    {
      r := ServerWithMachineIdentifier(State(), machineIdentifier);
    }

    method Update(server: PlexServer)
      requires Valid()
      requires exists i :: 0 <= i < |servers| && servers[i].id == server.id
      modifies this
      ensures Valid()
      ensures State() == UpdateServer(old(State()), server)
    {
      var st := UpdateServer(State(), server);
      servers, accountServers, nextId, writes := st.servers, st.accountServers, st.nextId, st.writes;
    }

    /** Insert the server; the result is the entity with the key the store gave it. */
    method Add(server: PlexServer) returns (added: PlexServer)
      requires Valid()
      modifies this
      ensures Valid()
      ensures (State(), added) == AddServer(old(State()), server)
    {
      var r := AddServer(State(), server);
      servers, accountServers, nextId, writes := r.0.servers, r.0.accountServers, r.0.nextId, r.0.writes;
      added := r.1;
    }

    method GetServers(accountId: int) returns (r: seq<PlexServer>)
      ensures r == ServersOf(State(), accountId)
      ensures forall s :: s in r ==> s in servers && PlexAccountServer(accountId, s.id) in accountServers
    {
      r := ServersOf(State(), accountId);
    }
  }

  class PlexServerService {
    const repository: PlexServerRepository

    constructor (repository: PlexServerRepository)
      ensures this.repository == repository
    {
      this.repository := repository;
    }

    /** Store the servers of an account: nothing happens without an account or without
        servers; otherwise each server is upserted by machine identifier, in list order.
        Returns the servers as processed (scheme normalised, key and links set). */
    method AddOrUpdatePlexServers(account: Option<PlexAccount>, servers: seq<PlexServer>)
      returns (processed: seq<PlexServer>)
      requires repository.Valid()
      modifies repository
      ensures repository.Valid()
      ensures repository.State() == AddOrUpdateEffect(old(repository.State()), account, servers)
      ensures account.None? || servers == [] ==> processed == servers
      ensures account.Some? && servers != [] ==>
        processed == UpsertAll(old(repository.State()), servers, account.value.id).1
    {
      if account.None? {
        return servers;
      }
      if |servers| == 0 {
        return servers;
      }
      var accountId := account.value.id;
      ghost var initial := repository.State();
      processed := [];
      var i := 0;
      while i < |servers|
        invariant 0 <= i <= |servers|
        invariant repository.Valid()
        invariant (repository.State(), processed) == UpsertAll(initial, servers[..i], accountId)
      {
        ghost var before := UpsertAll(initial, servers[..i], accountId);
        var plexServer := UpsertPlexServer(servers[i], accountId);
        processed := processed + [plexServer];
        assert servers[..i + 1][..i] == servers[..i] && servers[..i + 1][i] == servers[i];
        assert UpsertAll(initial, servers[..i + 1], accountId) == (repository.State(), before.1 + [plexServer]);
        i := i + 1;
      }
      assert servers[..i] == servers;
    }

    /** The body of the upsert loop, for one server. */
    method UpsertPlexServer(incoming: PlexServer, accountId: int) returns (plexServer: PlexServer)
      requires repository.Valid()
      modifies repository
      ensures repository.Valid()
      ensures (repository.State(), plexServer) == UpsertServer(old(repository.State()), incoming, accountId)
    {
      plexServer := incoming;
      if plexServer.port == HttpsPort {
        plexServer := plexServer.(scheme := Https);
      }
      var stored := repository.FindByMachineIdentifier(plexServer.machineIdentifier);
      if stored.Some? {
        plexServer := plexServer.(id := stored.value.id);
        repository.Update(plexServer);
      } else {
        plexServer := plexServer.(plexAccountServers := [PlexAccountServer(accountId, plexServer.id)]);
        plexServer := repository.Add(plexServer);
      }
    }

    /** Refresh the account's servers from the Plex API: fails without an account or
        without a token; otherwise stores the servers the API returned. */
    method RefreshPlexServers(account: Option<PlexAccount>, token: Option<string>, apiServers: seq<PlexServer>)
      returns (ok: bool)
      requires repository.Valid()
      modifies repository
      ensures repository.Valid()
      ensures ok <==> account.Some? && token.Some? && token.value != ""
      ensures !ok ==> repository.State() == old(repository.State())
      ensures ok ==> repository.State() == AddOrUpdateEffect(old(repository.State()), account, apiServers)
    {
      if account.None? {
        return false;
      }
      if token.None? || token.value == "" {
        return false;
      }
      var _ := AddOrUpdatePlexServers(account, apiServers);
      return true;
    }

    /** The servers of an account. Without an account the list is empty and nothing is
        refreshed; the servers are refreshed when asked to or when the account has none,
        and read again only when the refresh succeeded. */
    method GetServers(account: Option<PlexAccount>, refresh: bool, token: Option<string>,
                      apiServers: seq<PlexServer>)
      returns (servers: seq<PlexServer>, refreshed: bool)
      requires repository.Valid()
      modifies repository
      ensures repository.Valid()
      ensures account.None? ==> servers == [] && !refreshed && repository.State() == old(repository.State())
      ensures account.Some? ==>
        refreshed == (refresh || ServersOf(old(repository.State()), account.value.id) == [])
      ensures account.Some? && !refreshed ==>
        servers == ServersOf(old(repository.State()), account.value.id) &&
        repository.State() == old(repository.State())
      ensures account.Some? && refreshed ==>
        if token.Some? && token.value != "" then
          repository.State() == AddOrUpdateEffect(old(repository.State()), account, apiServers) &&
          servers == ServersOf(repository.State(), account.value.id)
        else
          repository.State() == old(repository.State()) &&
          servers == ServersOf(old(repository.State()), account.value.id)
    {
      refreshed := false;
      if account.None? {
        return [], refreshed;
      }
      servers := repository.GetServers(account.value.id);
      if refresh || |servers| == 0 {
        refreshed := true;
        var refreshSuccess := RefreshPlexServers(account, token, apiServers);
        if refreshSuccess {
          servers := repository.GetServers(account.value.id);
        }
      }
    }
  }

  /** A refresh through GetServers makes every server the API returned, whose machine
      identifier was not stored yet, visible to the account. */
  lemma RefreshedServersAreVisible(st: Store, account: PlexAccount, apiServers: seq<PlexServer>, k: int)
    requires ValidStore(st)
    requires 0 <= k < |apiServers| && ServerWithMachineIdentifier(st, apiServers[k].machineIdentifier).None?
    ensures exists s :: (s in ServersOf(AddOrUpdateEffect(st, Some(account), apiServers), account.id) &&
      s.machineIdentifier == apiServers[k].machineIdentifier)
  {
    UpsertAllMakesNewServersVisible(st, apiServers, account.id, k);
  }
}
