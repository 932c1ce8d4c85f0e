/** `AuthRequest`: the packet a world server sends to register with the auth
    server. `ReadImpl` decodes its fields in wire order; `RunImpl` checks the
    key and then binds the sender to a known record or registers a new one. */
module AuthRequestPacket {
  import opened Common
  import opened Wire
  import opened GameServers

  /** The fields of an `AuthRequest`, in wire order. `hosts` holds the host
      pairs flattened: index 2i the first and 2i+1 the second string of pair i. */
  datatype AuthRequestData = AuthRequestData(
    desiredId: int, authKey: Utf16, acceptAlternativeId: bool, serverType: int,
    maxPlayers: int, ageLimit: int, showBrackets: bool, isPvp: bool,
    hosts: seq<Utf16>, ports: seq<int>)

  /** The requests the wire format can carry. */
  predicate WellFormed(r: AuthRequestData) {
    && -0x80 <= r.desiredId < 0x80
    && |r.authKey| < 0x8000
    && IsInt32(r.serverType) && IsInt32(r.maxPlayers)
    && -0x80 <= r.ageLimit < 0x80
    && |r.hosts| % 2 == 0 && |r.hosts| / 2 < 0x80
    && (forall k | 0 <= k < |r.hosts| :: NoNul(r.hosts[k]))
    && |r.ports| < 0x80
    && (forall k | 0 <= k < |r.ports| :: -0x8000 <= r.ports[k] < 0x8000)
  }

  /** Puts `prefix` in front of what a reading yields. */
  function Prepend<T>(prefix: seq<T>, r: Reading<seq<T>>): Reading<seq<T>> {
    match r
    case Success((t, rest)) => Success((prefix + t, rest))
    case Failure(e) => Failure(e)
  }

  lemma PrependEmpty<T>(r: Reading<seq<T>>)
    ensures Prepend([], r) == r
  {
    if r.Success? {
      assert [] + r.value.0 == r.value.0;
    }
  }

  lemma PrependPrepend<T>(a: seq<T>, b: seq<T>, r: Reading<seq<T>>)
    ensures Prepend(a, Prepend(b, r)) == Prepend(a + b, r)
  {
    if r.Success? {
      assert a + (b + r.value.0) == (a + b) + r.value.0;
    }
  }

  /** `n` strings, each read by `readString`. */
  function ReadStrings(s: seq<byte>, n: nat): (r: Reading<seq<Utf16>>)
    ensures r.Success? ==> |r.value.0| == n && forall k | 0 <= k < n :: NoNul(r.value.0[k])
    ensures r.Success? ==> |r.value.1| <= |s|
    decreases n
  {
    if n == 0 then Success(([], s))
    else
      var first :- ReadString(s);
      var others :- ReadStrings(first.1, n - 1);
      Success(([first.0] + others.0, others.1))
  }

  /** `n` values, each read by `readShort`. */
  function ReadShorts(s: seq<byte>, n: nat): (r: Reading<seq<int>>)
    ensures r.Success? ==> |r.value.0| == n && forall k | 0 <= k < n :: -0x8000 <= r.value.0[k] < 0x8000
    ensures r.Success? ==> |r.value.1| == |s| - 2 * n
  {
    if n == 0 then Success(([], s))
    else
      var first :- ReadShort(s);
      var others :- ReadShorts(first.1, n - 1);
      Success(([first.0] + others.0, others.1))
  }

  /** The fixed-size part of the packet, before the host pairs. */
  datatype Header = Header(
    desiredId: int, authKey: Utf16, acceptAlternativeId: bool, serverType: int,
    maxPlayers: int, ageLimit: int, showBrackets: bool, isPvp: bool)

  function ReadHeader(s: seq<byte>): (r: Reading<Header>)
    ensures r.Success? ==> |r.value.1| < |s|
    ensures r.Success? ==> var h := r.value.0;
      -0x80 <= h.desiredId < 0x80 && |h.authKey| < 0x8000 && IsInt32(h.serverType)
      && IsInt32(h.maxPlayers) && -0x80 <= h.ageLimit < 0x80
  {
    var desiredId :- ReadByte(s);
    var authKey :- ReadSizedString(desiredId.1);
    var acceptAlternativeId :- ReadBoolean(authKey.1);
    var serverType :- ReadInt(acceptAlternativeId.1);
    var maxPlayers :- ReadInt(serverType.1);
    var ageLimit :- ReadByte(maxPlayers.1);
    var showBrackets :- ReadBoolean(ageLimit.1);
    var isPvp :- ReadBoolean(showBrackets.1);
    Success((Header(desiredId.0, authKey.0, acceptAlternativeId.0, serverType.0,
                    maxPlayers.0, ageLimit.0, showBrackets.0, isPvp.0), isPvp.1))
  }

  /** A count byte, then twice that many strings (the host pairs). A negative
      count makes Java's array allocation throw. */
  function ReadHostGroup(s: seq<byte>): (r: Reading<seq<Utf16>>)
    ensures r.Success? ==> |r.value.1| < |s|
    ensures r.Success? ==> (|r.value.0| % 2 == 0 && |r.value.0| / 2 < 0x80
                            && forall k | 0 <= k < |r.value.0| :: NoNul(r.value.0[k]))
    ensures r.Success? ==> |s| >= 1 && |r.value.0| == 2 * Signed8(s[0])
    ensures |s| >= 1 && Signed8(s[0]) < 0 ==> r == Failure(NegativeArraySize)
  {
    var pairs :- ReadByte(s);
    if pairs.0 * 2 < 0 then Failure(NegativeArraySize) else ReadStrings(pairs.1, pairs.0 * 2)
  }

  /** A count byte, then that many ports. */
  function ReadPortGroup(s: seq<byte>): (r: Reading<seq<int>>)
    ensures r.Success? ==> |r.value.1| < |s|
    ensures r.Success? ==> (|r.value.0| < 0x80
                            && forall k | 0 <= k < |r.value.0| :: -0x8000 <= r.value.0[k] < 0x8000)
    ensures r.Success? ==> |s| >= 1 && |r.value.0| == Signed8(s[0]) && |r.value.1| == |s| - 1 - 2 * Signed8(s[0])
    ensures |s| >= 1 && Signed8(s[0]) < 0 ==> r == Failure(NegativeArraySize)
  {
    var size :- ReadByte(s);
    if size.0 < 0 then Failure(NegativeArraySize) else ReadShorts(size.1, size.0)
  }

  /** The decoding `readImpl` performs, as a function of the packet body. */
  function Decode(s: seq<byte>): (r: Reading<AuthRequestData>)
    ensures r.Success? ==> WellFormed(r.value.0) && |r.value.1| < |s|
  {
    var header :- ReadHeader(s);
    var hosts :- ReadHostGroup(header.1);
    var ports :- ReadPortGroup(hosts.1);
    var h := header.0;
    Success((AuthRequestData(h.desiredId, h.authKey, h.acceptAlternativeId, h.serverType,
                             h.maxPlayers, h.ageLimit, h.showBrackets, h.isPvp,
                             hosts.0, ports.0), ports.1))
  }

  // ---- the writer side: what a world server sends --------------------------

  function EncodeStrings(ts: seq<Utf16>): seq<byte>
    requires forall k | 0 <= k < |ts| :: NoNul(ts[k])
  {
    if ts == [] then [] else EncodeString(ts[0]) + EncodeStrings(ts[1..])
  }

  function EncodeShorts(vs: seq<int>): seq<byte>
    requires forall k | 0 <= k < |vs| :: -0x8000 <= vs[k] < 0x8000
  {
    if vs == [] then [] else EncodeShort(vs[0]) + EncodeShorts(vs[1..])
  }

  function Encode(r: AuthRequestData): seq<byte>
    requires WellFormed(r)
  {
    EncodeByte(r.desiredId) + (EncodeSizedString(r.authKey) + (EncodeBoolean(r.acceptAlternativeId)
    + (EncodeInt(r.serverType) + (EncodeInt(r.maxPlayers) + (EncodeByte(r.ageLimit)
    + (EncodeBoolean(r.showBrackets) + (EncodeBoolean(r.isPvp)
    + (EncodeByte(|r.hosts| / 2) + (EncodeStrings(r.hosts)
    + (EncodeByte(|r.ports|) + EncodeShorts(r.ports)))))))))))
  }

  lemma {:induction false} ReadStringsEncode(ts: seq<Utf16>, rest: seq<byte>)
    requires forall k | 0 <= k < |ts| :: NoNul(ts[k])
    ensures ReadStrings(EncodeStrings(ts) + rest, |ts|) == Success((ts, rest))
  {
    if ts == [] {
      assert EncodeStrings(ts) + rest == rest;
    } else {
      var tail := EncodeStrings(ts[1..]) + rest;
      assert EncodeStrings(ts) + rest == EncodeString(ts[0]) + tail;
      ReadStringEncode(ts[0], tail);
      ReadStringsEncode(ts[1..], rest);
      assert [ts[0]] + ts[1..] == ts;
    }
  }

  lemma {:induction false} ReadShortsEncode(vs: seq<int>, rest: seq<byte>)
    requires forall k | 0 <= k < |vs| :: -0x8000 <= vs[k] < 0x8000
    ensures ReadShorts(EncodeShorts(vs) + rest, |vs|) == Success((vs, rest))
  {
    if vs == [] {
      assert EncodeShorts(vs) + rest == rest;
    } else {
      var tail := EncodeShorts(vs[1..]) + rest;
      assert EncodeShorts(vs) + rest == EncodeShort(vs[0]) + tail;
      ReadShortEncode(vs[0], tail);
      ReadShortsEncode(vs[1..], rest);
      assert [vs[0]] + vs[1..] == vs;
    }
  }

  /** Decoding what a world server encodes gives back every field, whatever
      bytes follow in the buffer, including empty host and port lists. */
  lemma DecodeEncode(r: AuthRequestData, rest: seq<byte>)
    requires WellFormed(r)
    ensures Decode(Encode(r) + rest) == Success((r, rest))
  {
    var e11 := EncodeShorts(r.ports);
    var e10 := EncodeByte(|r.ports|) + e11;
    var e9 := EncodeStrings(r.hosts) + e10;
    var e8 := EncodeByte(|r.hosts| / 2) + e9;
    var e7 := EncodeBoolean(r.isPvp) + e8;
    var e6 := EncodeBoolean(r.showBrackets) + e7;
    var e5 := EncodeByte(r.ageLimit) + e6;
    var e4 := EncodeInt(r.maxPlayers) + e5;
    var e3 := EncodeInt(r.serverType) + e4;
    var e2 := EncodeBoolean(r.acceptAlternativeId) + e3;
    var e1 := EncodeSizedString(r.authKey) + e2;
    assert Encode(r) == EncodeByte(r.desiredId) + e1;
    ConcatAssociates(EncodeByte(r.desiredId), e1, rest);
    ConcatAssociates(EncodeSizedString(r.authKey), e2, rest);
    ConcatAssociates(EncodeBoolean(r.acceptAlternativeId), e3, rest);
    ConcatAssociates(EncodeInt(r.serverType), e4, rest);
    ConcatAssociates(EncodeInt(r.maxPlayers), e5, rest);
    ConcatAssociates(EncodeByte(r.ageLimit), e6, rest);
    ConcatAssociates(EncodeBoolean(r.showBrackets), e7, rest);
    ConcatAssociates(EncodeBoolean(r.isPvp), e8, rest);
    ConcatAssociates(EncodeByte(|r.hosts| / 2), e9, rest);
    ConcatAssociates(EncodeStrings(r.hosts), e10, rest);
    ConcatAssociates(EncodeByte(|r.ports|), e11, rest);
    ReadByteEncode(r.desiredId, e1 + rest);
    ReadSizedStringEncode(r.authKey, e2 + rest);
    ReadBooleanEncode(r.acceptAlternativeId, e3 + rest);
    ReadIntEncode(r.serverType, e4 + rest);
    ReadIntEncode(r.maxPlayers, e5 + rest);
    ReadByteEncode(r.ageLimit, e6 + rest);
    ReadBooleanEncode(r.showBrackets, e7 + rest);
    ReadBooleanEncode(r.isPvp, e8 + rest);
    ReadByteEncode(|r.hosts| / 2, e9 + rest);
    ReadStringsEncode(r.hosts, e10 + rest);
    ReadByteEncode(|r.ports|, e11 + rest);
    ReadShortsEncode(r.ports, rest);
    assert |r.hosts| / 2 * 2 == |r.hosts|;
  }

  // ---- the packet handler -----------------------------------------------------

  class AuthRequest {
    var desiredId: int
    var acceptAlternativeId: bool
    var maxPlayers: int
    var hosts: array<Utf16>
    var serverType: int
    var ageLimit: int
    var showBrackets: bool
    var isPvp: bool
    var ports: array<int>
    var authKey: Utf16

    constructor ()
      ensures hosts.Length == 0 && ports.Length == 0
    {
      desiredId, acceptAlternativeId, maxPlayers, serverType := 0, false, 0, 0;
      ageLimit, showBrackets, isPvp, authKey := 0, false, false, [];
      hosts := new Utf16[0];
      ports := new int[0];
    }

    /** The decoded fields as a value. */
    function Fields(): AuthRequestData
      reads this, hosts, ports
    {
      AuthRequestData(desiredId, authKey, acceptAlternativeId, serverType, maxPlayers,
                      ageLimit, showBrackets, isPvp, hosts[..], ports[..])
    }

    /** `readImpl`: reads the fields one by one from the packet body `data` and
        returns the unread rest; fails exactly when `Decode` does, and
        otherwise stores exactly what `Decode` yields. */
    method ReadImpl(data: seq<byte>) returns (r: Result<seq<byte>, ReadError>)
      modifies this
      ensures r.Success? <==> Decode(data).Success?
      ensures r.Success? ==> Decode(data) == Success((Fields(), r.value))
      ensures r.Success? ==> fresh(hosts) && fresh(ports)
    {
      var rest :- ReadFixedFields(data);
      rest :- ReadHosts(rest);
      r := ReadPorts(rest);
    }

    method ReadFixedFields(data: seq<byte>) returns (r: Result<seq<byte>, ReadError>)
      modifies this`desiredId, this`authKey, this`acceptAlternativeId, this`serverType,
               this`maxPlayers, this`ageLimit, this`showBrackets, this`isPvp
      ensures r.Success? <==> ReadHeader(data).Success?
      ensures r.Success? ==> ReadHeader(data) == Success((Header(desiredId, authKey,
        acceptAlternativeId, serverType, maxPlayers, ageLimit, showBrackets, isPvp), r.value))
    {
      var b :- ReadByte(data);
      desiredId := b.0;
      var k :- ReadSizedString(b.1);
      authKey := k.0;
      var a :- ReadBoolean(k.1);
      acceptAlternativeId := a.0;
      var st :- ReadInt(a.1);
      serverType := st.0;
      var mp :- ReadInt(st.1);
      maxPlayers := mp.0;
      var age :- ReadByte(mp.1);
      ageLimit := age.0;
      var sb :- ReadBoolean(age.1);
      showBrackets := sb.0;
      var pvp :- ReadBoolean(sb.1);
      isPvp := pvp.0;
      return Success(pvp.1);
    }

    /** `hosts = new String[readByte() * 2]`, filled a pair at a time. */
    method ReadHosts(s: seq<byte>) returns (r: Result<seq<byte>, ReadError>)
      modifies this`hosts
      ensures r.Success? <==> ReadHostGroup(s).Success?
      ensures r.Success? ==> ReadHostGroup(s) == Success((hosts[..], r.value)) && fresh(hosts)
    {
      var count :- ReadByte(s);
      if count.0 * 2 < 0 {
        return Failure(NegativeArraySize);
      }
      var arr := new Utf16[count.0 * 2];
      hosts := arr;
      var rest := count.1;
      var i := 0;
      PrependEmpty(ReadStrings(rest, arr.Length));
      while i < arr.Length
        invariant 0 <= i <= arr.Length && i % 2 == 0 && hosts == arr
        invariant ReadStrings(count.1, arr.Length) == Prepend(arr[..i], ReadStrings(rest, arr.Length - i))
      {
        ghost var done := arr[..i];
        var first := ReadString(rest);
        if first.Failure? {
          assert ReadStrings(rest, arr.Length - i).Failure?;
          return Failure(first.error);
        }
        arr[i] := first.value.0;
        var second := ReadString(first.value.1);
        if second.Failure? {
          assert ReadStrings(rest, arr.Length - i).Failure?;
          return Failure(second.error);
        }
        arr[i + 1] := second.value.0;
        assert arr[..i + 2] == done + [first.value.0] + [second.value.0];
        PrependPrepend(done, [first.value.0], ReadStrings(first.value.1, arr.Length - i - 1));
        PrependPrepend(done + [first.value.0], [second.value.0], ReadStrings(second.value.1, arr.Length - i - 2));
        rest := second.value.1;
        i := i + 2;
      }
      assert arr[..] == arr[..i] && arr[..] + [] == arr[..];
      assert ReadStrings(count.1, arr.Length) == Success((arr[..], rest));
      return Success(rest);
    }

    /** `ports = new short[readByte()]`, filled one at a time. */
    method ReadPorts(s: seq<byte>) returns (r: Result<seq<byte>, ReadError>)
      modifies this`ports
      ensures r.Success? <==> ReadPortGroup(s).Success?
      ensures r.Success? ==> ReadPortGroup(s) == Success((ports[..], r.value)) && fresh(ports)
    {
      var portsSize :- ReadByte(s);
      if portsSize.0 < 0 {
        return Failure(NegativeArraySize);
      }
      var arr := new int[portsSize.0];
      ports := arr;
      var rest := portsSize.1;
      var j := 0;
      PrependEmpty(ReadShorts(rest, arr.Length));
      while j < arr.Length
        invariant 0 <= j <= arr.Length && ports == arr
        invariant ReadShorts(portsSize.1, arr.Length) == Prepend(arr[..j], ReadShorts(rest, arr.Length - j))
      {
        ghost var done := arr[..j];
        var port := ReadShort(rest);
        if port.Failure? {
          assert ReadShorts(rest, arr.Length - j).Failure?;
          return Failure(port.error);
        }
        arr[j] := port.value.0;
        assert arr[..j + 1] == done + [port.value.0];
        PrependPrepend(done, [port.value.0], ReadShorts(port.value.1, arr.Length - j - 1));
        rest := port.value.1;
        j := j + 1;
      }
      assert arr[..] == arr[..j] && arr[..] + [] == arr[..];
      assert ReadShorts(portsSize.1, arr.Length) == Success((arr[..], rest));
      return Success(rest);
    }

    /** What `updateGameServerInfo` leaves behind: `gsi` holds this request's
        values, is authenticated and up, and `client` is bound to it. */
    ghost predicate BoundTo(gsi: GameServerInfo, client: GameServerClient)
      reads this, hosts, ports, gsi, client
    {
      && client.gameServerInfo == gsi && client.state == Authed
      && gsi.client == client && gsi.ports == ports[..] && gsi.hosts == hosts[..]
      && gsi.maxPlayers == maxPlayers && gsi.authed && gsi.serverType == serverType
      && gsi.ageLimit == ageLimit && gsi.showBrackets == showBrackets && gsi.isPvp == isPvp
      && gsi.status == StatusAuto
    }

    /** `updateGameServerInfo`: binds the connection and the record to each
        other, copies the request into the record and persists the server
        type under the record's id. */
    method UpdateGameServerInfo(client: GameServerClient, gsi: GameServerInfo, manager: GameServerManager)
      modifies client`state, client`gameServerInfo, gsi, manager`dbWrites
      ensures BoundTo(gsi, client) && gsi.id == old(gsi.id)
      ensures manager.dbWrites == old(manager.dbWrites) + [ServerTypeWrite(gsi.id, serverType)]
    {
      client.gameServerInfo := gsi;
      client.state := Authed;
      gsi.client := client;
      gsi.ports := ports[..];
      gsi.hosts := hosts[..];
      gsi.maxPlayers := maxPlayers;
      gsi.authed := true;
      gsi.serverType := serverType;
      manager.UpdateServerType(gsi.id, serverType);
      gsi.ageLimit := ageLimit;
      gsi.showBrackets := showBrackets;
      gsi.isPvp := isPvp;
      gsi.status := StatusAuto;
    }

    /** `authenticGameServer`: a record already in use refuses the second
        login; otherwise the connection takes it over. */
    method AuthenticGameServer(client: GameServerClient, gsi: GameServerInfo, manager: GameServerManager)
      modifies client, gsi, manager`dbWrites
      ensures old(gsi.authed) ==>
        && client.events == old(client.events) + [Closed(ReasonAlreadyLogged)]
        && unchanged(gsi) && manager.dbWrites == old(manager.dbWrites)
        && client.state == old(client.state) && client.gameServerInfo == old(client.gameServerInfo)
      ensures !old(gsi.authed) ==>
        && client.events == old(client.events) && BoundTo(gsi, client)
        && gsi.id == old(gsi.id)
        && manager.dbWrites == old(manager.dbWrites) + [ServerTypeWrite(gsi.id, serverType)]
    {
      if gsi.authed {
        client.Close(ReasonAlreadyLogged);
      } else {
        UpdateGameServerInfo(client, gsi, manager);
      }
    }

    /** `processNewGameServer`: registers a new record for this connection
        when the auth server takes new servers and the world server accepts
        an id other than the one it asked for; the registry's pick is
        `freeId`. Returns the registered record, or null after a close. */
    method ProcessNewGameServer(client: GameServerClient, manager: GameServerManager,
                                acceptNewGameServer: bool, freeId: Option<int>)
      returns (gsi: GameServerInfo?)
      requires manager.Valid()
      modifies client, manager
      ensures manager.Valid()
      ensures (acceptNewGameServer && acceptAlternativeId && freeId.Some?
               && freeId.value !in old(manager.servers)) ==>
          && gsi != null && fresh(gsi) && gsi.id == freeId.value
          && manager.servers == old(manager.servers)[gsi.id := gsi]
          && BoundTo(gsi, client) && client.events == old(client.events)
          && manager.dbWrites == old(manager.dbWrites) + [ServerTypeWrite(gsi.id, serverType), RegisterServerWrite(gsi.id)]
      ensures acceptNewGameServer && acceptAlternativeId && !(freeId.Some? && freeId.value !in old(manager.servers)) ==>
          && gsi == null && client.events == old(client.events) + [Closed(ReasonNoFreeId)]
          && manager.servers == old(manager.servers) && manager.dbWrites == old(manager.dbWrites)
          && client.state == old(client.state) && client.gameServerInfo == old(client.gameServerInfo)
      ensures !(acceptNewGameServer && acceptAlternativeId) ==>
          && gsi == null && client.events == old(client.events) + [Closed(NotAuthed)]
          && manager.servers == old(manager.servers) && manager.dbWrites == old(manager.dbWrites)
          && client.state == old(client.state) && client.gameServerInfo == old(client.gameServerInfo)
    {
      if acceptNewGameServer && acceptAlternativeId {
        var candidate := new GameServerInfo(desiredId, client);
        var registered := manager.RegisterWithFirstAvailableId(candidate, freeId);
        if registered {
          UpdateGameServerInfo(client, candidate, manager);
          manager.RegisterServerOnDB(candidate);
          return candidate;
        } else {
          client.Close(ReasonNoFreeId);
        }
      } else {
        client.Close(NotAuthed);
      }
      return null;
    }

    /** `runImpl`. `keyAccepted` is what the settings' key check says of
        `authKey`; `acceptNewGameServer` is the auth server's setting for
        taking unknown servers; `freeId` is the registry's pick of a free id.
        Every outcome below is exactly one of the source's branches; note
        that a second login onto an authenticated record is closed and is
        still answered with that record's id. */
    method RunImpl(client: GameServerClient, manager: GameServerManager, keyAccepted: bool,
                   acceptNewGameServer: bool, freeId: Option<int>)
      requires manager.Valid()
      modifies client, manager, manager.servers.Values
      ensures manager.Valid()
      // the key check fails: the connection is closed and nothing else happens
      ensures !keyAccepted ==>
        && client.events == old(client.events) + [Closed(NotAuthed)]
        && client.state == old(client.state) && client.gameServerInfo == old(client.gameServerInfo)
        && manager.servers == old(manager.servers) && manager.dbWrites == old(manager.dbWrites)
        && unchanged(old(manager.servers.Values))
      // a record with the asked id is already authenticated
      ensures keyAccepted && desiredId in old(manager.servers) && old(manager.servers[desiredId].authed) ==>
        && client.events == old(client.events) + [Closed(ReasonAlreadyLogged), SentAuthResponse(desiredId)]
        && client.state == old(client.state) && client.gameServerInfo == old(client.gameServerInfo)
        && manager.servers == old(manager.servers) && manager.dbWrites == old(manager.dbWrites)
        && unchanged(old(manager.servers.Values))
      // a record with the asked id exists and is free: the connection takes it
      ensures keyAccepted && desiredId in old(manager.servers) && !old(manager.servers[desiredId].authed) ==>
        && manager.servers == old(manager.servers)
        && BoundTo(manager.servers[desiredId], client)
        && client.events == old(client.events) + [SentAuthResponse(desiredId)]
        && manager.dbWrites == old(manager.dbWrites) + [ServerTypeWrite(desiredId, serverType)]
        && unchanged(old(manager.servers.Values) - {manager.servers[desiredId]})
      // no such record, and no new record may be made
      ensures keyAccepted && desiredId !in old(manager.servers) && !(acceptNewGameServer && acceptAlternativeId) ==>
        && client.events == old(client.events) + [Closed(NotAuthed)]
        && client.state == old(client.state) && client.gameServerInfo == old(client.gameServerInfo)
        && manager.servers == old(manager.servers) && manager.dbWrites == old(manager.dbWrites)
        && unchanged(old(manager.servers.Values))
      // no such record, and the registry finds no free id
      ensures (keyAccepted && desiredId !in old(manager.servers) && acceptNewGameServer && acceptAlternativeId
               && !(freeId.Some? && freeId.value !in old(manager.servers))) ==>
        && client.events == old(client.events) + [Closed(ReasonNoFreeId)]
        && client.state == old(client.state) && client.gameServerInfo == old(client.gameServerInfo)
        && manager.servers == old(manager.servers) && manager.dbWrites == old(manager.dbWrites)
        && unchanged(old(manager.servers.Values))
      // no such record, and a new one is registered under the registry's pick
      ensures (keyAccepted && desiredId !in old(manager.servers) && acceptNewGameServer && acceptAlternativeId
               && freeId.Some? && freeId.value !in old(manager.servers)) ==>
        && var k := freeId.value;
        && k in manager.servers && fresh(manager.servers[k])
        && manager.servers == old(manager.servers)[k := manager.servers[k]]
        && BoundTo(manager.servers[k], client)
        && client.events == old(client.events) + [SentAuthResponse(k)]
        && manager.dbWrites == old(manager.dbWrites) + [ServerTypeWrite(k, serverType), RegisterServerWrite(k)]
        && unchanged(old(manager.servers.Values))
    {
      if !keyAccepted {
        client.Close(NotAuthed);
        return;
      }
      var gsi := manager.GetRegisteredGameServerById(desiredId);
      if gsi != null {
        AuthenticGameServer(client, gsi, manager);
      } else {
        gsi := ProcessNewGameServer(client, manager, acceptNewGameServer, freeId);
      }
      if gsi != null && gsi.authed {
        client.SendAuthResponse(gsi.id);
      }
    }
  }
}
