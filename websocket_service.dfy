/**
 * server/src/services/websocketService.ts: the registry of live notification sockets.
 * A socket is accepted only with a non-empty `userId`; accepting it drops that user's
 * earlier entries and appends the new one, closing a socket drops the entries holding
 * it, and sending looks up the user's entry. Together they keep at most one entry per
 * user.
 */
module WebSocketService {
  import opened Wrappers
  import opened Seqs

  /** A socket, known only by its identity. */
  type Conn = nat

  datatype Client = Client(userId: string, ws: Conn)

  function IsUser(userId: string): Client -> bool {
    (c: Client) => c.userId == userId
  }

  function NotUser(userId: string): Client -> bool {
    (c: Client) => c.userId != userId
  }

  function NotConn(ws: Conn): Client -> bool {
    (c: Client) => c.ws != ws
  }

  function DifferentUsers(a: Client, b: Client): bool {
    a.userId != b.userId
  }

  /** No user has two entries. */
  ghost predicate OneEntryPerUser(clients: seq<Client>) {
    Pairwise(clients, DifferentUsers)
  }

  /** The registry after `userId` connects on `ws`: that user's old entries go, the new one is last. */
  function Connect(clients: seq<Client>, userId: string, ws: Conn): seq<Client> {
    Filter(clients, NotUser(userId)) + [Client(userId, ws)]
  }

  /** The registry after `ws` closes: every entry holding `ws` goes. */
  function Disconnect(clients: seq<Client>, ws: Conn): seq<Client> {
    Filter(clients, NotConn(ws))
  }

  lemma ConnectKeepsOneEntryPerUser(clients: seq<Client>, userId: string, ws: Conn)
    requires OneEntryPerUser(clients)
    ensures OneEntryPerUser(Connect(clients, userId, ws))
  {
    var kept := Filter(clients, NotUser(userId));
    FilterKeepsPairwise(clients, NotUser(userId), DifferentUsers);
    var r := Connect(clients, userId, ws);
    forall i, j | 0 <= i < j < |r| ensures DifferentUsers(r[i], r[j]) {
      if j == |kept| {
        assert NotUser(userId)(kept[i]);
      } else {
        assert r[i] == kept[i] && r[j] == kept[j];
      }
    }
  }

  /** After a connection the user has exactly one entry: the new socket. */
  lemma ConnectLeavesOneEntry(clients: seq<Client>, userId: string, ws: Conn)
    ensures Filter(Connect(clients, userId, ws), IsUser(userId)) == [Client(userId, ws)]
  {
    var kept := Filter(clients, NotUser(userId));
    FilterAppend(kept, [Client(userId, ws)], IsUser(userId));
    FilterSingle(Client(userId, ws), IsUser(userId));
    FilterKeepsNone(kept, IsUser(userId));
  }

  /** The entries of every other user are kept, in their order. */
  lemma ConnectKeepsOthers(clients: seq<Client>, userId: string, ws: Conn)
    ensures Filter(Connect(clients, userId, ws), NotUser(userId)) == Filter(clients, NotUser(userId))
  {
    var kept := Filter(clients, NotUser(userId));
    FilterAppend(kept, [Client(userId, ws)], NotUser(userId));
    FilterSingle(Client(userId, ws), NotUser(userId));
    FilterIdempotent(clients, NotUser(userId));
  }

  lemma DisconnectKeepsOneEntryPerUser(clients: seq<Client>, ws: Conn)
    requires OneEntryPerUser(clients)
    ensures OneEntryPerUser(Disconnect(clients, ws))
  {
    FilterKeepsPairwise(clients, NotConn(ws), DifferentUsers);
  }

  /** Closing a socket no entry holds leaves the registry as it was. */
  lemma DisconnectUnknownIsNoOp(clients: seq<Client>, ws: Conn)
    requires forall k :: 0 <= k < |clients| ==> clients[k].ws != ws
    ensures Disconnect(clients, ws) == clients
  {
    FilterKeepsAll(clients, NotConn(ws));
  }

  /**
   * When a user reconnects and only then the replaced socket's close event arrives,
   * the newer entry survives as the user's only entry.
   */
  lemma CloseOfReplacedSocketKeepsNewEntry(clients: seq<Client>, userId: string, oldWs: Conn, newWs: Conn)
    requires oldWs != newWs
    ensures Filter(Disconnect(Connect(clients, userId, newWs), oldWs), IsUser(userId)) == [Client(userId, newWs)]
  {
    var kept := Filter(clients, NotUser(userId));
    var entry := Client(userId, newWs);
    FilterAppend(kept, [entry], NotConn(oldWs));
    FilterSingle(entry, NotConn(oldWs));
    var left := Filter(kept, NotConn(oldWs));
    FilterAppend(left, [entry], IsUser(userId));
    FilterSingle(entry, IsUser(userId));
    forall k | 0 <= k < |left| ensures !IsUser(userId)(left[k]) {
      assert left[k] in kept;
    }
    FilterKeepsNone(left, IsUser(userId));
  }

  /** `sendNotification`'s target: the user's first entry, if its socket is open. */
  function SendTarget(clients: seq<Client>, userId: string, isOpen: Conn -> bool): (r: Option<Conn>)
    ensures r.Some? ==> isOpen(r.value) && exists i :: 0 <= i < |clients| && clients[i] == Client(userId, r.value)
    ensures (forall i :: 0 <= i < |clients| ==> clients[i].userId != userId) ==> r.None?
  {
    match FindFirst(clients, IsUser(userId))
    case None => None
    case Some(i) => if isOpen(clients[i].ws) then Some(clients[i].ws) else None
  }

  /** Under the invariant the target is exact: it is the user's own socket, exactly when that socket is open. */
  lemma SendTargetExact(clients: seq<Client>, userId: string, ws: Conn, isOpen: Conn -> bool)
    requires OneEntryPerUser(clients)
    requires Client(userId, ws) in clients
    ensures SendTarget(clients, userId, isOpen) == (if isOpen(ws) then Some(ws) else None)
  {
    var i :| 0 <= i < |clients| && clients[i] == Client(userId, ws);
    assert IsUser(userId)(clients[i]);
  }

  class Registry {
    var clients: seq<Client>

    ghost predicate Valid()
      reads this
    {
      OneEntryPerUser(clients)
    }

    constructor ()
      ensures Valid() && clients == []
    {
      clients := [];
    }

    /**
     * The connection handler. `userId` is the `userId` query parameter, absent or
     * present. A refused socket (`accepted == false`) is closed and the registry is
     * unchanged.
     */
    method OnConnection(userId: Option<string>, ws: Conn) returns (accepted: bool)
      requires Valid()
      modifies this
      ensures Valid()
      ensures accepted <==> userId.Some? && userId.value != ""
      ensures accepted ==> clients == Connect(old(clients), userId.value, ws)
      ensures !accepted ==> clients == old(clients)
    {
      if userId.None? || userId.value == "" {
        return false;
      }
      ConnectKeepsOneEntryPerUser(clients, userId.value, ws);
      clients := Filter(clients, NotUser(userId.value));
      clients := clients + [Client(userId.value, ws)];
      accepted := true;
    }

    /** The close handler installed for an accepted socket `ws`. */
    method OnClose(ws: Conn)
      requires Valid()
      modifies this
      ensures Valid()
      ensures clients == Disconnect(old(clients), ws)
    {
      DisconnectKeepsOneEntryPerUser(clients, ws);
      clients := Filter(clients, NotConn(ws));
    }

    /**
     * `sendNotification`: the socket the notification goes out on, or `None` when it
     * is dropped. `isOpen` tells whether a socket's `readyState` is OPEN. The registry
     * is not in the frame, so it is never changed.
     */
    method SendNotification(userId: string, isOpen: Conn -> bool) returns (target: Option<Conn>)
      ensures target == SendTarget(clients, userId, isOpen)
    {
      var found := FindFirst(clients, IsUser(userId));
      if found.Some? && isOpen(clients[found.value].ws) {
        target := Some(clients[found.value].ws);
      } else {
        target := None;
      }
    }
  }
}
