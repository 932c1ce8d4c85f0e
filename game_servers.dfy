/** The auth server's view of the world servers: one `GameServerInfo` per
    registered id, the connection (`GameServerClient`) a world server talks
    through, and the registry (`GameServerManager`).

    The registry's own code is not part of this model. It is modelled here
    by a map from id to record, a log of the writes it issues to the
    game-server table, and an allocation step whose choice of id is a
    parameter: the model does not fix an allocation policy. */
module GameServers {
  import opened Common
  import opened Wire

  datatype FailReason = NotAuthed | ReasonAlreadyLogged | ReasonNoFreeId

  datatype ServerStatus = StatusDown | StatusAuto

  datatype ServerClientState = Connected | Authed

  /** What a connection was told: a close with a reason, or an `AuthResponse`. */
  datatype ClientEvent = Closed(reason: FailReason) | SentAuthResponse(serverId: int)

  /** A write issued to the game-server table. */
  datatype DbWrite = ServerTypeWrite(serverId: int, serverType: int) | RegisterServerWrite(serverId: int)

  class GameServerClient {
    var state: ServerClientState
    var gameServerInfo: GameServerInfo?
    /** Closes and packets issued on this connection, oldest first. */
    var events: seq<ClientEvent>

    constructor ()
      ensures state == Connected && gameServerInfo == null && events == []
    {
      state := Connected;
      gameServerInfo := null;
      events := [];
    }

    method Close(reason: FailReason)
      modifies this`events
      ensures events == old(events) + [Closed(reason)]
    {
      events := events + [Closed(reason)];
    }

    method SendAuthResponse(serverId: int)
      modifies this`events
      ensures events == old(events) + [SentAuthResponse(serverId)]
    {
      events := events + [SentAuthResponse(serverId)];
    }
  }

  class GameServerInfo {
    var id: int
    var authed: bool
    var client: GameServerClient?
    var ports: seq<int>
    var hosts: seq<Utf16>
    var maxPlayers: int
    var serverType: int
    var ageLimit: int
    var showBrackets: bool
    var isPvp: bool
    var status: ServerStatus

    /** `new GameServerInfo(id, client)`: a record not yet authenticated. */
    constructor (id: int, client: GameServerClient)
      ensures this.id == id && this.client == client && !authed
      ensures ports == [] && hosts == [] && status == StatusDown
    {
      this.id := id;
      this.client := client;
      authed := false;
      ports := [];
      hosts := [];
      maxPlayers := 0;
      serverType := 0;
      ageLimit := 0;
      showBrackets := false;
      isPvp := false;
      status := StatusDown;
    }
  }

  class GameServerManager {
    var servers: map<int, GameServerInfo>
    /** Writes issued to the game-server table, oldest first. */
    var dbWrites: seq<DbWrite>

    /** Each record is filed under its own id. */
    ghost predicate Valid()
      reads this, servers.Values
    {
      forall id | id in servers :: servers[id].id == id
    }

    constructor ()
      ensures Valid() && servers == map[] && dbWrites == []
    {
      servers := map[];
      dbWrites := [];
    }

    function GetRegisteredGameServerById(id: int): (gsi: GameServerInfo?)
      reads this, servers.Values
      requires Valid()
      ensures gsi != null <==> id in servers
      ensures gsi != null ==> gsi == servers[id] && gsi.id == id
    {
      if id in servers then servers[id] else null
    }

    /** `registerWithFirstAvaliableId`: `freeId` is the id the allocator picks,
        or `None` when it finds none; the registration succeeds when an id
        was picked and no record holds it. */
    method RegisterWithFirstAvailableId(gsi: GameServerInfo, freeId: Option<int>) returns (ok: bool)
      requires Valid() && gsi !in servers.Values
      modifies this`servers, gsi`id
      ensures Valid()
      ensures ok <==> freeId.Some? && freeId.value !in old(servers)
      ensures ok ==> gsi.id == freeId.value && servers == old(servers)[freeId.value := gsi]
      ensures !ok ==> servers == old(servers) && gsi.id == old(gsi.id)
    {
      ok := freeId.Some? && freeId.value !in servers;
      if ok {
        gsi.id := freeId.value;
        servers := servers[freeId.value := gsi];
      }
    }

    /** `registerServerOnDB`: persists a newly registered record. */
    method RegisterServerOnDB(gsi: GameServerInfo)
      modifies this`dbWrites
      ensures dbWrites == old(dbWrites) + [RegisterServerWrite(gsi.id)]
    {
      dbWrites := dbWrites + [RegisterServerWrite(gsi.id)];
    }

    /** The DAO's `updateServerType`. */
    method UpdateServerType(serverId: int, serverType: int)
      modifies this`dbWrites
      ensures dbWrites == old(dbWrites) + [ServerTypeWrite(serverId, serverType)]
    {
      dbWrites := dbWrites + [ServerTypeWrite(serverId, serverType)];
    }
  }
}
