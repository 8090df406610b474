/** The v0 broker (v0/im.go): one process-wide manager holding a two-level map
    users[userID].devices[device] -> connection, one read loop per connection,
    and a single dispatcher that writes every message to every registered
    connection except the one it came from. */
module ImV0 {
  import opened Websocket
  import opened Wire
  import opened Seqs

  /** The registry as a value: user ID -> device -> connection. */
  type Registry = map<string, map<string, ConnId>>

  /** One write the dispatcher attempts: conn.WriteJSON(message) to the
      connection registered for (user, device). */
  datatype Delivery = Delivery(user: string, device: string, conn: ConnId)

  /** No user record without devices: deviceLeft deletes the record of a user
      whose last device left. */
  ghost predicate WellFormed(reg: Registry)
  {
    forall u :: u in reg ==> reg[u] != map[]
  }

  /** The registry after userDeviceJoin(u, d, c): the record of u (created
      empty if absent) gets c under d. */
  function Joined(reg: Registry, u: string, d: string, c: ConnId): (r: Registry)
    ensures u in r && d in r[u] && r[u][d] == c
    ensures u in reg ==> forall d' :: d' != d ==> (d' in r[u] <==> d' in reg[u])
    ensures u in reg ==> forall d' :: d' != d && d' in reg[u] ==> r[u][d'] == reg[u][d']
    ensures u !in reg ==> r[u].Keys == {d}
    ensures forall u' :: u' != u ==> (u' in r <==> u' in reg)
    ensures forall u' :: u' != u && u' in reg ==> r[u'] == reg[u']
  {
    var devices := if u in reg then reg[u] else map[];
    reg[u := devices[d := c]]
  }

  /** The connection a join or leave of (u, d) closes: the one registered
      there before, if any. */
  function Displaced(reg: Registry, u: string, d: string): (closed: seq<ConnId>)
    ensures |closed| <= 1
    ensures closed != [] <==> u in reg && d in reg[u]
    ensures closed != [] ==> closed[0] == reg[u][d]
  {
    if u in reg && d in reg[u] then [reg[u][d]] else []
  }

  /** The registry after deviceLeft(d) on the record registered for u: d is
      removed, and the record goes when it has no device left. */
  function Left(reg: Registry, u: string, d: string): (r: Registry)
    ensures u in r ==> d !in r[u] && r[u] != map[]
    ensures forall u' :: u' != u ==> (u' in r <==> u' in reg)
  {
    if u !in reg then reg
    else
      var devices := reg[u] - {d};
      if devices == map[] then reg - {u} else reg[u := devices]
  }

  /** What Left changes: the device d of u, and the record of u when d was
      its last device; nothing else. */
  lemma LeftSpec(reg: Registry, u: string, d: string)
    ensures var r := Left(reg, u, d);
      && (u in r ==> u in reg && d !in r[u] && r[u] != map[])
      && (u in r ==> forall d' :: d' != d ==> (d' in r[u] <==> d' in reg[u]))
      && (u in r ==> forall d' :: d' != d && d' in reg[u] ==> r[u][d'] == reg[u][d'])
      && (u in reg && u !in r ==> reg[u].Keys <= {d})
      && (forall u' :: u' != u ==> (u' in r <==> u' in reg))
      && (forall u' :: u' != u && u' in reg ==> r[u'] == reg[u'])
  {
    if u in reg && reg[u] - {d} == map[] {
      assert forall d' :: d' in reg[u] && d' != d ==> d' in reg[u] - {d};
    }
  }

  /** Whether the dispatcher writes message (sender, device) to x: every
      registered connection except the sender's originating device. */
  ghost predicate IsTarget(reg: Registry, sender: string, device: string, x: Delivery)
  {
    && x.user in reg && x.device in reg[x.user] && reg[x.user][x.device] == x.conn
    && !(x.user == sender && x.device == device)
  }

  /** Joining keeps the registry well formed. */
  lemma JoinedWellFormed(reg: Registry, u: string, d: string, c: ConnId)
    requires WellFormed(reg)
    ensures WellFormed(Joined(reg, u, d, c))
  {
    var r := Joined(reg, u, d, c);
    forall u' | u' in r ensures r[u'] != map[] {
      if u' == u {
        assert d in r[u];
      }
    }
  }

  /** Leaving keeps the registry well formed. */
  lemma LeftWellFormed(reg: Registry, u: string, d: string)
    requires WellFormed(reg)
    ensures WellFormed(Left(reg, u, d))
  {
  }

  /** A device that joins and then leaves restores the registry, provided the
      pair was not registered before: a fresh user record disappears again
      and an existing one gets its device map back. */
  lemma JoinThenLeave(reg: Registry, u: string, d: string, c: ConnId)
    requires WellFormed(reg)
    requires u !in reg || d !in reg[u]
    ensures Left(Joined(reg, u, d, c), u, d) == reg
  {
    LeaveAfterJoin(reg, u, d, c);
    if u in reg {
      assert reg[u] - {d} == reg[u];
    }
  }

  /** Joining the same pair twice leaves only the second connection, and the
      second join closes exactly the first connection. */
  lemma JoinTwice(reg: Registry, u: string, d: string, c1: ConnId, c2: ConnId)
    ensures Joined(Joined(reg, u, d, c1), u, d, c2) == Joined(reg, u, d, c2)
    ensures Displaced(Joined(reg, u, d, c1), u, d) == [c1]
  {
    var a := Joined(Joined(reg, u, d, c1), u, d, c2);
    var b := Joined(reg, u, d, c2);
    assert a[u] == b[u];
    assert a.Keys == b.Keys;
  }

  /** Right after a reconnect of (u, d), and until the replaced
      connection's read loop ends, a message from any other device reaches
      the new connection and never the replaced one. */
  lemma ReconnectTargetsNewConnection(reg: Registry, u: string, d: string, c1: ConnId, c2: ConnId,
                                      sender: string, device: string)
    requires c1 != c2
    requires sender != u || device != d
    ensures IsTarget(Joined(Joined(reg, u, d, c1), u, d, c2), sender, device, Delivery(u, d, c2))
    ensures !IsTarget(Joined(Joined(reg, u, d, c1), u, d, c2), sender, device, Delivery(u, d, c1))
  {
    JoinTwice(reg, u, d, c1, c2);
  }

  /** What follows a reconnect: the join of c2 closes c1, so c1's read
      loop fails and its deferred deviceLeft runs. That cleanup goes by user
      and device, not by connection: it closes the new connection c2 and
      unregisters the pair, leaving the registry as if (u, d) had simply
      left, with neither connection reachable. */
  lemma StaleCleanupAfterReconnect(reg: Registry, u: string, d: string, c1: ConnId, c2: ConnId,
                                   sender: string, device: string)
    ensures Displaced(Joined(reg, u, d, c1), u, d) == [c1]
    ensures Displaced(Joined(Joined(reg, u, d, c1), u, d, c2), u, d) == [c2]
    ensures Left(Joined(Joined(reg, u, d, c1), u, d, c2), u, d) == Left(reg, u, d)
    ensures forall c :: !IsTarget(Left(Joined(Joined(reg, u, d, c1), u, d, c2), u, d), sender, device, Delivery(u, d, c))
  {
    JoinTwice(reg, u, d, c1, c2);
    LeaveAfterJoin(reg, u, d, c2);
  }

  /** A leave of (u, d) undoes any join of (u, d) before it: the result is
      that of the leave alone. */
  lemma LeaveAfterJoin(reg: Registry, u: string, d: string, c: ConnId)
    ensures Left(Joined(reg, u, d, c), u, d) == Left(reg, u, d)
  {
    var j := Joined(reg, u, d, c);
    var l, l0 := Left(j, u, d), Left(reg, u, d);
    if u in reg {
      assert j[u] - {d} == reg[u] - {d};
    } else {
      assert j[u] - {d} == map[];
    }
    assert l.Keys == l0.Keys;
  }

  /** After (u, d) leaves, no message reaches it; the other devices of u
      keep receiving. */
  lemma LeftDeviceNotTargeted(reg: Registry, u: string, d: string, sender: string, device: string, x: Delivery)
    requires x.user == u && x.device == d
    ensures !IsTarget(Left(reg, u, d), sender, device, x)
    ensures u in reg ==> forall d' :: d' != d && d' in reg[u] && (sender != u || device != d') ==>
              IsTarget(Left(reg, u, d), sender, device, Delivery(u, d', reg[u][d']))
  {
    LeftSpec(reg, u, d);
  }

  /** The dispatcher of v0 never consults Receivers: every registered device,
      of every user, gets the message unless it is the originating device. */
  lemma EchoSuppression(reg: Registry, sender: string, device: string)
    ensures forall c :: !IsTarget(reg, sender, device, Delivery(sender, device, c))
    ensures forall u, d :: u in reg && d in reg[u] && (u != sender || d != device) ==>
              IsTarget(reg, sender, device, Delivery(u, d, reg[u][d]))
  {
  }

  /** The worked scenario: u1 on web and mobile, u2 on web; a message from
      u1/web reaches u2/web and u1/mobile, and not u1/web. */
  lemma ScenarioTwoUsers(cWeb1: ConnId, cMobile1: ConnId, cWeb2: ConnId)
    ensures var reg := map["u1" := map["web" := cWeb1, "mobile" := cMobile1], "u2" := map["web" := cWeb2]];
      && IsTarget(reg, "u1", "web", Delivery("u2", "web", cWeb2))
      && IsTarget(reg, "u1", "web", Delivery("u1", "mobile", cMobile1))
      && !IsTarget(reg, "u1", "web", Delivery("u1", "web", cWeb1))
  {
  }

  /** A user and its device connections (v0/im.go:25-30). */
  class User {
    const id: string
    var devices: map<string, ConnId>

    /** &User{ID: id, devices: make(map[string]*websocket.Conn)} */
    constructor (id: string)
      ensures this.id == id && devices == map[]
    {
      this.id := id;
      devices := map[];
    }

    /** deviceJoin without its trailing call into the read loop: the old
        connection of the device, if any, is closed, then replaced. */
    method DeviceJoin(device: string, conn: ConnId, transport: Transport)
      modifies this, transport
      ensures devices == old(devices)[device := conn]
      ensures transport.closed == old(transport.closed) +
                (if device in old(devices) then [old(devices)[device]] else [])
    {
      if device in devices {
        transport.Close(devices[device]);
      }
      devices := devices[device := conn];
    }

    /** deviceLeft: the device's connection, if any, is closed and removed;
        when no device is left, the manager forgets the user ID, whatever
        record it currently holds under that ID. */
    method DeviceLeft(device: string, mgr: WebsocketMgr)
      requires mgr.Valid()
      modifies this, mgr`users, mgr.transport
      ensures mgr.Valid()
      ensures devices == old(devices) - {device}
      ensures mgr.transport.closed == old(mgr.transport.closed) +
                (if device in old(devices) then [old(devices)[device]] else [])
      ensures mgr.users == if devices == map[] then old(mgr.users) - {id} else old(mgr.users)
      ensures old(mgr.Holds(this)) ==> mgr.Registry() == Left(old(mgr.Registry()), id, device)
      ensures !old(mgr.Holds(this)) ==>
                mgr.Registry() == if devices == map[] then old(mgr.Registry()) - {id} else old(mgr.Registry())
      ensures WellFormed(old(mgr.Registry())) ==> WellFormed(mgr.Registry())
    {
      ghost var users0, reg0, devices0 := mgr.users, mgr.Registry(), devices;
      assert forall u :: u in users0 ==> users0[u].devices == reg0[u];
      if device in devices {
        mgr.transport.Close(devices[device]);
        devices := devices - {device};
      }
      if devices == map[] {
        mgr.UserLeft(id);
      }
      RegistryAfterDeviceLeft(mgr, this, device, users0, reg0, devices0);
      if WellFormed(reg0) && id in users0 && users0[id] == this {
        LeftWellFormed(reg0, id, device);
      }
    }

    /** One iteration of handleConnection: the read either fails, which ends
        the loop and runs the deferred deviceLeft, or decodes into the pooled
        message, which is stamped with the registered device and user ID and
        handed to the dispatcher (forwarded). */
    method ReadStep(device: string, read: ReadResult, message: Message, mgr: WebsocketMgr)
      returns (forwarded: bool)
      requires mgr.Valid()
      modifies this, mgr`users, mgr.transport, message
      ensures mgr.Valid()
      ensures forwarded <==> read.Decoded?
      ensures forwarded ==> message.device == device && message.sender == id
      ensures forwarded ==>
                message.receivers == (if read.payload.receivers.Some? then read.payload.receivers.value else old(message.receivers))
      ensures forwarded ==>
                message.mBytes == (if read.payload.mBytes.Some? then read.payload.mBytes.value else old(message.mBytes))
      ensures forwarded ==> message.at == (if read.payload.at.Some? then read.payload.at.value else old(message.at))
      ensures forwarded ==> devices == old(devices) && mgr.users == old(mgr.users)
                            && mgr.transport.closed == old(mgr.transport.closed)
      ensures !forwarded ==> devices == old(devices) - {device}
      ensures !forwarded ==>
                mgr.transport.closed == old(mgr.transport.closed) + (if device in old(devices) then [old(devices)[device]] else [])
      ensures !forwarded ==>
                mgr.users == if devices == map[] then old(mgr.users) - {id} else old(mgr.users)
      ensures !forwarded && old(mgr.Holds(this)) ==>
                mgr.Registry() == Left(old(mgr.Registry()), id, device)
      ensures !forwarded && !old(mgr.Holds(this)) ==>
                mgr.Registry() == if devices == map[] then old(mgr.Registry()) - {id} else old(mgr.Registry())
      ensures !forwarded && WellFormed(old(mgr.Registry())) ==> WellFormed(mgr.Registry())
    {
      if read.Failed? {
        DeviceLeft(device, mgr);
        return false;
      }
      message.Decode(read.payload);
      message.device := device;
      message.sender := id;
      forwarded := true;
    }
  }

  /** How deviceLeft on `user` changes the registry, given the records
      `users0` and the registry `reg0` before the call: as Left when `user` was
      the record registered under its ID; otherwise only by dropping the ID
      when `user` has no device left. */
  lemma RegistryAfterDeviceLeft(mgr: WebsocketMgr, user: User, device: string,
                                users0: map<string, User>, reg0: Registry, devices0: map<string, ConnId>)
    requires mgr.Valid()
    requires forall u :: u in users0 ==> users0[u].id == u
    requires reg0.Keys == users0.Keys
    requires forall u :: u in users0 && users0[u] != user ==> users0[u].devices == reg0[u]
    requires user.id in users0 && users0[user.id] == user ==> reg0[user.id] == devices0
    requires user.devices == devices0 - {device}
    requires mgr.users == if user.devices == map[] then users0 - {user.id} else users0
    ensures user.id in users0 && users0[user.id] == user ==> mgr.Registry() == Left(reg0, user.id, device)
    ensures !(user.id in users0 && users0[user.id] == user) ==>
              mgr.Registry() == if user.devices == map[] then reg0 - {user.id} else reg0
  {
    var r1 := mgr.Registry();
    var l := if user.id in users0 && users0[user.id] == user then Left(reg0, user.id, device)
             else if user.devices == map[] then reg0 - {user.id} else reg0;
    forall u | u in r1 ensures u in l && r1[u] == l[u] {
    }
    assert r1.Keys == l.Keys;
  }

  /** How userDeviceJoin changes the registry, given the records `users0`
      and the registry `reg0` before the call: as Joined. */
  lemma RegistryAfterJoin(mgr: WebsocketMgr, user: User, device: string, conn: ConnId,
                          users0: map<string, User>, reg0: Registry)
    requires mgr.Valid()
    requires reg0.Keys == users0.Keys
    requires forall u :: u in users0 && u != user.id ==> users0[u].devices == reg0[u]
    requires mgr.users == users0[user.id := user]
    requires user.devices == (if user.id in reg0 then reg0[user.id] else map[])[device := conn]
    ensures mgr.Registry() == Joined(reg0, user.id, device, conn)
  {
    var r1 := mgr.Registry();
    var j := Joined(reg0, user.id, device, conn);
    forall u | u in r1 ensures u in j && r1[u] == j[u] {
    }
    assert r1.Keys == j.Keys;
  }

  /** The manager (v0/im.go:13-22) without its channel, upgrader, logger and
      done signal. */
  class WebsocketMgr {
    var users: map<string, User>
    const transport: Transport
    /** Every record this manager has made. */
    ghost var Repr: set<User>

    /** Each record sits under its own ID. */
    ghost predicate Valid()
      reads this, Repr
    {
      forall u :: u in users ==> users[u] in Repr && users[u].id == u
    }

    /** `user` is the record registered under its ID. */
    ghost predicate Holds(user: User)
      reads this
    {
      user.id in users && users[user.id] == user
    }

    /** The two-level map the dispatcher walks, as a value. */
    ghost function Registry(): Registry
      reads this, Repr
      requires Valid()
    {
      map u | u in users :: users[u].devices
    }

    /** The global wsMgr with an empty users map. */
    constructor (transport: Transport)
      ensures Valid() && users == map[] && this.transport == transport
    {
      users := map[];
      this.transport := transport;
      Repr := {};
    }

    /** userDeviceJoin without the blocking read loop: a fresh record is made
        only for an unknown user ID, then the device joins that record. */
    method UserDeviceJoin(userID: string, device: string, conn: ConnId)
      requires Valid()
      modifies this, transport, if userID in users then {users[userID]} else {}
      ensures Valid()
      ensures userID in users
      ensures Repr == old(Repr) + (if userID in old(users) then {} else {users[userID]})
      ensures Registry() == Joined(old(Registry()), userID, device, conn)
      ensures WellFormed(old(Registry())) ==> WellFormed(Registry())
      ensures transport.closed == old(transport.closed) + Displaced(old(Registry()), userID, device)
      ensures userID in old(users) ==> users == old(users)
      ensures userID !in old(users) ==> fresh(users[userID]) && users == old(users)[userID := users[userID]]
    {
      ghost var users0, reg0 := users, Registry();
      assert forall u :: u in users0 ==> users0[u].devices == reg0[u];
      var user: User;
      if userID in users {
        user := users[userID];
      } else {
        user := new User(userID);
        users := users[userID := user];
        Repr := Repr + {user};
      }
      user.DeviceJoin(device, conn, transport);
      RegistryAfterJoin(this, user, device, conn, users0, reg0);
      if WellFormed(reg0) {
        JoinedWellFormed(reg0, userID, device, conn);
      }
    }

    /** userLeft: delete the user ID. */
    method UserLeft(userID: string)
      requires Valid()
      modifies this`users
      ensures Valid()
      ensures users == old(users) - {userID}
    {
      users := users - {userID};
    }

    /** putMessageToPool, without the free list: the timestamp, sender,
        payload and receivers are cleared; the device is left as it was. */
    method PutMessageToPool(message: Message)
      modifies message
      ensures message.at == 0 && message.sender == "" && message.mBytes == [] && message.receivers == []
      ensures message.device == old(message.device)
    {
      message.at := 0;
      message.sender := "";
      message.mBytes := [];
      message.receivers := [];
    }

    /** One message taken from messageCh by messageDispatcher: every
        registered connection but the originating device's is written once,
        in whatever order the maps are walked; a write that fails (its
        connection is in `broken`) is only logged (dropped), and the walk goes
        on. Receivers is never read. */
    method MessageDispatcher(message: Message, broken: set<ConnId>)
      returns (writes: seq<Delivery>, dropped: seq<Delivery>)
      requires Valid()
      ensures forall x :: x in writes <==> IsTarget(Registry(), message.sender, message.device, x)
      ensures NoDuplicates(writes)
      ensures forall x :: x in dropped <==> x in writes && x.conn in broken
    {
      writes, dropped := [], [];
      var pending := users.Keys;
      while pending != {}
        invariant pending <= users.Keys
        invariant forall x :: x in writes <==>
                    IsTarget(Registry(), message.sender, message.device, x) && x.user !in pending
        invariant NoDuplicates(writes)
        invariant forall x :: x in dropped <==> x in writes && x.conn in broken
        decreases pending
      {
        var u :| u in pending;
        var user := users[u];
        var devs := user.devices.Keys;
        ghost var start := writes;
        while devs != {}
          invariant devs <= user.devices.Keys
          invariant forall x :: x in writes <==>
                      x in start || (IsTarget(Registry(), message.sender, message.device, x)
                                      && x.user == u && x.device !in devs)
          invariant NoDuplicates(writes)
          invariant forall x :: x in dropped <==> x in writes && x.conn in broken
          decreases devs
        {
          var device :| device in devs;
          devs := devs - {device};
          if message.sender == user.id && message.device == device {
            continue;
          }
          var d := Delivery(user.id, device, user.devices[device]);
          writes := writes + [d];
          if d.conn in broken {
            dropped := dropped + [d];
          }
        }
        pending := pending - {u};
      }
    }
  }
}
