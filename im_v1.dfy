/** The v1 broker (v1/im.go): users are spread over numPools shards by an
    FNV-1a hash of the user ID; each shard holds a copy-on-write snapshot
    userID+device -> connection, and its own dispatcher writes every message
    it is sent to every connection of the snapshot except the originating
    one, until a write fails and the nil logger ends the process. */
module ImV1 {
  import opened Websocket
  import opened Wire
  import opened Fnv
  import opened Seqs

  /** The widest pool count that survives uint32(numPools) unchanged. */
  const MaxPools: nat := 0x1_0000_0000

  /** One shard's registry as a value: the map an atomic.Value holds. */
  type Snapshot = map<string, ConnId>

  /** hashIndex: FNV-1a over the bytes of the ID, reduced modulo the pool
      count in uint32 arithmetic. */
  function HashIndex(id: string, numPools: nat): (i: nat)
    requires 0 < numPools < MaxPools
    ensures i < numPools
  {
    (Fnv1a32(Utf8(id)) as int) % numPools
  }

  /** The index depends on the bytes of the ID only: IDs with the same UTF-8
      bytes share a shard, and an ID whose bytes extend another's is hashed
      by continuing the other's fold. */
  lemma HashIndexOfBytes(a: string, b: string, numPools: nat)
    requires 0 < numPools < MaxPools
    ensures Utf8(a) == Utf8(b) ==> HashIndex(a, numPools) == HashIndex(b, numPools)
    ensures HashIndex(a + b, numPools) == (Fold(Fnv1a32(Utf8(a)), Utf8(b)) as int) % numPools
  {
    Utf8Append(a, b);
    FoldAppend(OffsetBasis32, Utf8(a), Utf8(b));
  }

  /** With a single pool every user lands in shard 0; the empty ID lands on
      the FNV-1a offset basis reduced modulo the pool count. */
  lemma HashIndexEdges(id: string, numPools: nat)
    requires 0 < numPools < MaxPools
    ensures numPools == 1 ==> HashIndex(id, numPools) == 0
    ensures HashIndex("", numPools) == 2166136261 % numPools
  {
    TestVectors();
  }

  /** The registry key of a (user, device) pair: the plain concatenation. */
  function Key(userID: string, device: string): (k: string)
    ensures |k| == |userID| + |device|
    ensures k[..|userID|] == userID && k[|userID|..] == device
  {
    userID + device
  }

  /** The concatenation does not separate the two parts: ("ab", "c") and
      ("a", "bc") share one registry slot. */
  lemma KeyCollision()
    ensures Key("ab", "c") == Key("a", "bc")
  {
    assert "ab" + "c" == "abc";
    assert "a" + "bc" == "abc";
  }

  /** The snapshot userDeviceLeft stores: every entry but `key`. */
  function Left(s: Snapshot, key: string): (r: Snapshot)
    ensures key !in r
    ensures r.Keys == s.Keys - {key}
  {
    map k | k in s && k != key :: s[k]
  }

  /** The snapshot userDeviceJoin stores: every entry but `key`, then `key`
      mapped to the new connection. */
  function Joined(s: Snapshot, key: string, conn: ConnId): (r: Snapshot)
    ensures key in r && r[key] == conn
    ensures r.Keys == s.Keys + {key}
  {
    Left(s, key)[key := conn]
  }

  /** The connection a join or leave of `key` closes: the one stored there,
      if any. */
  function Displaced(s: Snapshot, key: string): (closed: seq<ConnId>)
    ensures |closed| <= 1
    ensures closed != [] <==> key in s
    ensures closed != [] ==> closed[0] == s[key]
  {
    if key in s then [s[key]] else []
  }

  /** Leaving is removal of the key, and nothing else. */
  lemma LeftIsRemoval(s: Snapshot, key: string)
    ensures Left(s, key) == s - {key}
    ensures forall k :: k in s && k != key ==> Left(s, key)[k] == s[k]
  {
  }

  /** Joining is the map update of the key, and nothing else. */
  lemma JoinIsUpdate(s: Snapshot, key: string, conn: ConnId)
    ensures Joined(s, key, conn) == s[key := conn]
    ensures forall k :: k in s && k != key ==> Joined(s, key, conn)[k] == s[k]
  {
    var j := Joined(s, key, conn);
    assert forall k :: k in j <==> k in s[key := conn];
  }

  /** A pair that joins and then leaves restores the snapshot when its key
      was free before. */
  lemma JoinThenLeave(s: Snapshot, key: string, conn: ConnId)
    requires key !in s
    ensures Left(Joined(s, key, conn), key) == s
  {
    var r := Left(Joined(s, key, conn), key);
    assert forall k :: k in r ==> r[k] == s[k];
  }

  /** A second join of the same key keeps only the second connection, and
      closes exactly the first. */
  lemma JoinTwice(s: Snapshot, key: string, c1: ConnId, c2: ConnId)
    ensures Joined(Joined(s, key, c1), key, c2) == Joined(s, key, c2)
    ensures Displaced(Joined(s, key, c1), key) == [c1]
  {
    JoinIsUpdate(s, key, c1);
    JoinIsUpdate(Joined(s, key, c1), key, c2);
    JoinIsUpdate(s, key, c2);
  }

  /** Leaving twice is leaving once; the second leave closes nothing. */
  lemma LeaveTwice(s: Snapshot, key: string)
    ensures Left(Left(s, key), key) == Left(s, key)
    ensures Displaced(Left(s, key), key) == []
  {
    LeftIsRemoval(s, key);
    LeftIsRemoval(Left(s, key), key);
  }

  /** What follows a reconnect: the join of c2 closes c1, so c1's read
      loop fails and its deferred userDeviceLeft runs. That cleanup goes by
      key, not by connection: it closes the new connection c2 and removes
      the key, leaving the snapshot as if the pair had simply left. */
  lemma StaleCleanupAfterReconnect(s: Snapshot, key: string, c1: ConnId, c2: ConnId)
    ensures Displaced(Joined(s, key, c1), key) == [c1]
    ensures Displaced(Joined(Joined(s, key, c1), key, c2), key) == [c2]
    ensures Left(Joined(Joined(s, key, c1), key, c2), key) == Left(s, key)
  {
    JoinTwice(s, key, c1, c2);
    LeftIsRemoval(Joined(s, key, c2), key);
    LeftIsRemoval(s, key);
    JoinIsUpdate(s, key, c2);
    assert s[key := c2] - {key} == s - {key};
  }

  /** Because of the key collision, in a pool holding both users (when "ab"
      and "a" hash to the same shard), user "a" joining from device "bc"
      replaces, and closes, the connection of user "ab" on device "c"; and
      "a"/"bc" leaving removes it. */
  lemma CollidingPairsShareSlot(s: Snapshot, c1: ConnId, c2: ConnId)
    ensures var s1 := Joined(s, Key("ab", "c"), c1);
      && Displaced(s1, Key("a", "bc")) == [c1]
      && Joined(s1, Key("a", "bc"), c2) == Joined(s, Key("ab", "c"), c2)
      && Key("ab", "c") !in Left(s1, Key("a", "bc"))
  {
    KeyCollision();
    JoinTwice(s, Key("ab", "c"), c1, c2);
  }

  /** One write a shard's dispatcher attempts: conn.WriteJSON(message) to the
      connection stored under key. */
  datatype Write = Write(key: string, conn: ConnId)

  /** The writes the dispatcher of a shard holding `s` makes for a message
      whose Sender+Device is `skip`. */
  ghost function Targets(s: Snapshot, skip: string): set<Write>
  {
    set k | k in s && k != skip :: Write(k, s[k])
  }

  /** The target set is the snapshot without the originating key, entry by
      entry: every other connection of the shard, whether or not its user
      is among the receivers, and never the originating one. */
  lemma TargetsAreLeft(s: Snapshot, skip: string)
    ensures forall w :: w in Targets(s, skip) <==> w.key in Left(s, skip) && Left(s, skip)[w.key] == w.conn
    ensures forall k :: k in s && k != skip ==> Write(k, s[k]) in Targets(s, skip)
    ensures forall w :: w in Targets(s, skip) ==> w.key != skip
  {
  }

  /** Whether a shard holding `s` has a target whose write fails. */
  ghost predicate HasBroken(s: Snapshot, skip: string, broken: set<ConnId>)
  {
    exists k :: k in s && k != skip && s[k] in broken
  }

  /** What the crash costs: a run of the dispatcher as written (distinct
      targets, no failed write before the last one) never reaches two
      targets whose writes both fail, whatever the map order; the intended
      dispatcher writes both. */
  lemma CrashSkipsTargets(s: Snapshot, skip: string, broken: set<ConnId>, writes: seq<Write>, w1: Write, w2: Write)
    requires NoDuplicates(writes)
    requires forall j :: 0 <= j < |writes| - 1 ==> writes[j].conn !in broken
    requires w1 in Targets(s, skip) && w2 in Targets(s, skip) && w1 != w2
    requires w1.conn in broken && w2.conn in broken
    ensures w1 !in writes || w2 !in writes
  {
  }

  /** The shards handleConnection sends a message to: the shard of each
      receiver, in order, then the sender's own shard. */
  function Routes(receivers: seq<string>, userID: string, numPools: nat): (r: seq<nat>)
    requires 0 < numPools < MaxPools
    ensures |r| == |receivers| + 1
    ensures forall i :: 0 <= i < |r| ==> r[i] < numPools
  {
    seq(|receivers|, i requires 0 <= i < |receivers| => HashIndex(receivers[i], numPools))
      + [HashIndex(userID, numPools)]
  }

  /** Routing is the receivers' shards in order, then the sender's own. */
  lemma RoutesInOrder(receivers: seq<string>, userID: string, numPools: nat)
    requires 0 < numPools < MaxPools
    ensures forall i :: 0 <= i < |receivers| ==> Routes(receivers, userID, numPools)[i] == HashIndex(receivers[i], numPools)
    ensures Routes(receivers, userID, numPools)[|receivers|] == HashIndex(userID, numPools)
  {
  }

  /** No deduplication: a receiver hashed to the sender's shard (the sender
      itself, say) makes that shard receive the message at least twice. */
  lemma SharedShardSentTwice(receivers: seq<string>, userID: string, numPools: nat, r: string)
    requires 0 < numPools < MaxPools
    requires r in receivers && HashIndex(r, numPools) == HashIndex(userID, numPools)
    ensures multiset(Routes(receivers, userID, numPools))[HashIndex(userID, numPools)] >= 2
  {
    var i :| 0 <= i < |receivers| && receivers[i] == r;
    TwiceInSeq(Routes(receivers, userID, numPools), i, |receivers|);
  }

  /** One shard (v1/im.go:26-29): its current snapshot, without the channel. */
  class UserPool {
    var users: Snapshot

    /** init stores an empty map in every pool. */
    constructor ()
      ensures users == map[]
    {
      users := map[];
    }

    /** userDeviceJoin without the blocking read loop: copy the loaded
        snapshot, closing the connection under userID+device, add the new
        connection under that key, and store the copy. */
    method UserDeviceJoin(userID: string, device: string, conn: ConnId, transport: Transport)
      modifies this, transport
      ensures users == Joined(old(users), Key(userID, device), conn)
      ensures transport.closed == old(transport.closed) + Displaced(old(users), Key(userID, device))
    {
      var copies := CopyWithout(users, Key(userID, device), transport);
      users := copies[Key(userID, device) := conn];
    }

    /** userDeviceLeft: copy the loaded snapshot, closing the connection under
        userID+device, and store the copy. */
    method UserDeviceLeft(userID: string, device: string, transport: Transport)
      modifies this, transport
      ensures users == Left(old(users), Key(userID, device))
      ensures transport.closed == old(transport.closed) + Displaced(old(users), Key(userID, device))
    {
      users := CopyWithout(users, Key(userID, device), transport);
    }

    /** The copy loop shared by join and leave: every entry of the loaded
        snapshot `users` is copied, in whatever order the map is walked,
        except `key`, whose connection is closed. The loaded map itself is a
        value and is never changed. */
    static method CopyWithout(users: Snapshot, key: string, transport: Transport)
      returns (copies: Snapshot)
      modifies transport
      ensures copies == Left(users, key)
      ensures transport.closed == old(transport.closed) + Displaced(users, key)
    {
      copies := map[];
      var rest := users.Keys;
      while rest != {}
        invariant rest <= users.Keys
        invariant copies == map k | k in users && k !in rest && k != key :: users[k]
        invariant transport.closed ==
                    old(transport.closed) + (if key in users && key !in rest then [users[key]] else [])
        decreases rest
      {
        var k :| k in rest;
        rest := rest - {k};
        if k == key {
          transport.Close(users[k]);
          continue;
        }
        copies := copies[k := users[k]];
      }
    }

    /** One message taken from this pool's channel by messageDispatcher, as
        written: every connection of the current snapshot except
        Sender+Device is written, in map order. wsMgr.log is never set, so
        the first failed write (its connection is in `broken`) calls Error on
        a nil logger; that panic is not recovered in the dispatcher
        goroutine, and the process ends (`crashed`) with the failed write as
        the last one made. Receivers is never read. */
    method MessageDispatcher(message: Message, broken: set<ConnId>)
      returns (writes: seq<Write>, crashed: bool)
      ensures NoDuplicates(writes)
      ensures forall w :: w in writes ==> w in Targets(users, Key(message.sender, message.device))
      ensures crashed <==> HasBroken(users, Key(message.sender, message.device), broken)
      ensures !crashed ==> forall w :: w in writes <==> w in Targets(users, Key(message.sender, message.device))
      ensures crashed ==> writes != [] && writes[|writes| - 1].conn in broken
      ensures forall j :: 0 <= j < |writes| - 1 ==> writes[j].conn !in broken
    {
      var skip := Key(message.sender, message.device);
      writes, crashed := [], false;
      var rest := users.Keys;
      while rest != {}
        invariant rest <= users.Keys
        invariant forall w :: w in writes <==> w in Targets(users, skip) && w.key !in rest
        invariant NoDuplicates(writes)
        invariant forall w :: w in writes ==> w.conn !in broken
        decreases rest
      {
        var k :| k in rest;
        rest := rest - {k};
        if k == skip {
          continue;
        }
        var w := Write(k, users[k]);
        writes := writes + [w];
        if w.conn in broken {
          return writes, true;
        }
      }
      forall k | k in users && k != skip ensures users[k] !in broken {
        assert Write(k, users[k]) in Targets(users, skip);
      }
    }

    /** The dispatcher as evidently intended, and as v0's is with its default
        logger: a failed write is only logged (`dropped`), and the walk goes
        on, so every target is written once. */
    method LoggingDispatcher(message: Message, broken: set<ConnId>)
      returns (writes: seq<Write>, dropped: seq<Write>)
      ensures forall w :: w in writes <==> w in Targets(users, Key(message.sender, message.device))
      ensures NoDuplicates(writes)
      ensures forall w :: w in dropped <==> w in writes && w.conn in broken
    {
      var skip := Key(message.sender, message.device);
      writes, dropped := [], [];
      var rest := users.Keys;
      while rest != {}
        invariant rest <= users.Keys
        invariant forall w :: w in writes <==> w in Targets(users, skip) && w.key !in rest
        invariant NoDuplicates(writes)
        invariant forall w :: w in dropped <==> w in writes && w.conn in broken
        decreases rest
      {
        var k :| k in rest;
        rest := rest - {k};
        if k == skip {
          continue;
        }
        var w := Write(k, users[k]);
        writes := writes + [w];
        if w.conn in broken {
          dropped := dropped + [w];
        }
      }
    }

    /** One iteration of handleConnection: the read either fails, which ends
        the loop and runs the deferred userDeviceLeft (the log call on the
        nil logger panics there, but the deferred leave still runs and the
        HTTP server recovers the handler's goroutine), or decodes into the
        pooled message, which is stamped with the registered device and user
        ID and sent to the returned shards, in order. */
    method ReadStep(userID: string, device: string, read: ReadResult, message: Message,
                    transport: Transport, numPools: nat)
      returns (shards: seq<nat>)
      requires 0 < numPools < MaxPools
      modifies this, transport, message
      ensures read.Failed? ==> shards == []
      ensures read.Failed? ==> users == Left(old(users), Key(userID, device))
      ensures read.Failed? ==>
                transport.closed == old(transport.closed) + Displaced(old(users), Key(userID, device))
      ensures read.Decoded? ==> users == old(users) && transport.closed == old(transport.closed)
      ensures read.Decoded? ==> message.device == device && message.sender == userID
      ensures read.Decoded? ==>
                message.receivers == (if read.payload.receivers.Some? then read.payload.receivers.value else old(message.receivers))
      ensures read.Decoded? ==>
                message.mBytes == (if read.payload.mBytes.Some? then read.payload.mBytes.value else old(message.mBytes))
      ensures read.Decoded? ==> message.at == (if read.payload.at.Some? then read.payload.at.value else old(message.at))
      ensures read.Decoded? ==> shards == Routes(message.receivers, userID, numPools)
    {
      if read.Failed? {
        UserDeviceLeft(userID, device, transport);
        return [];
      }
      message.Decode(read.payload);
      message.device := device;
      message.sender := userID;
      shards := Route(message.receivers, userID, numPools);
    }
  }

  /** The sends of handleConnection, one per receiver, then one to the
      sender's own shard. */
  method Route(receivers: seq<string>, userID: string, numPools: nat) returns (shards: seq<nat>)
    requires 0 < numPools < MaxPools
    ensures shards == Routes(receivers, userID, numPools)
  {
    shards := [];
    var i := 0;
    while i < |receivers|
      invariant 0 <= i <= |receivers|
      invariant |shards| == i
      invariant forall j :: 0 <= j < i ==> shards[j] == HashIndex(receivers[j], numPools)
    {
      shards := shards + [HashIndex(receivers[i], numPools)];
      i := i + 1;
    }
    shards := shards + [HashIndex(userID, numPools)];
  }
}
