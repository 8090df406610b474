/** The v1 manager (v1/im.go:16-23, 50-78): numPools shards made empty at
    start-up, admission of a connection into its user's shard, and the
    fan-out of one message through the shards handleConnection routes it
    to. */
module ImV1Mgr {
  import opened Websocket
  import opened Wire
  import opened ImV1
  import opened Seqs

  /** A write made by the dispatcher of shard `pool`. */
  datatype Delivery = Delivery(pool: nat, write: Write)

  /** The writes the dispatcher of shard p makes for one message. */
  ghost function ShardDeliveries(snaps: seq<Snapshot>, p: nat, skip: string): set<Delivery>
    requires p < |snaps|
  {
    set w | w in Targets(snaps[p], skip) :: Delivery(p, w)
  }

  ghost predicate RoutesInRange(snaps: seq<Snapshot>, routes: seq<nat>)
  {
    forall i :: 0 <= i < |routes| ==> routes[i] < |snaps|
  }

  /** Every write made for one message sent to the shards `routes`, in
      order, while the shards hold `snaps`: each send is handled by the
      dispatcher of its shard on its own. */
  ghost function FanOut(snaps: seq<Snapshot>, routes: seq<nat>, skip: string): multiset<Delivery>
    requires RoutesInRange(snaps, routes)
    decreases |routes|
  {
    if routes == [] then multiset{}
    else FanOut(snaps, routes[..|routes| - 1], skip) + multiset(ShardDeliveries(snaps, routes[|routes| - 1], skip))
  }

  /** Whether one of the shards sent to holds a target whose write fails. */
  ghost predicate AnyBroken(snaps: seq<Snapshot>, routes: seq<nat>, skip: string, broken: set<ConnId>)
    requires RoutesInRange(snaps, routes)
    decreases |routes|
  {
    routes != [] &&
    (AnyBroken(snaps, routes[..|routes| - 1], skip, broken) || HasBroken(snaps[routes[|routes| - 1]], skip, broken))
  }

  /** AnyBroken names a shard: it holds exactly when one of the shards sent
      to has a target whose write fails. */
  lemma {:induction false} AnyBrokenSpec(snaps: seq<Snapshot>, routes: seq<nat>, skip: string, broken: set<ConnId>)
    requires RoutesInRange(snaps, routes)
    ensures AnyBroken(snaps, routes, skip, broken) <==>
              exists i :: 0 <= i < |routes| && HasBroken(snaps[routes[i]], skip, broken)
    decreases |routes|
  {
    if routes != [] {
      var init := routes[..|routes| - 1];
      AnyBrokenSpec(snaps, init, skip, broken);
      if AnyBroken(snaps, init, skip, broken) {
        var i :| 0 <= i < |init| && HasBroken(snaps[init[i]], skip, broken);
        assert routes[i] == init[i];
      }
      forall i | 0 <= i < |routes| - 1 && HasBroken(snaps[routes[i]], skip, broken)
        ensures AnyBroken(snaps, init, skip, broken)
      {
        assert init[i] == routes[i];
      }
    }
  }

  /** How often a connection gets the message: as often as its shard was
      sent the message when it is a target of that shard, and never
      otherwise. */
  lemma {:induction false} DeliveryCount(snaps: seq<Snapshot>, routes: seq<nat>, skip: string, p: nat, w: Write)
    requires RoutesInRange(snaps, routes)
    requires p < |snaps|
    ensures FanOut(snaps, routes, skip)[Delivery(p, w)] ==
              if w in Targets(snaps[p], skip) then multiset(routes)[p] else 0
    decreases |routes|
  {
    if routes != [] {
      var init, last := routes[..|routes| - 1], routes[|routes| - 1];
      DeliveryCount(snaps, init, skip, p, w);
      assert routes == init + [last];
      assert Delivery(p, w) in ShardDeliveries(snaps, last, skip) <==> last == p && w in Targets(snaps[p], skip);
    }
  }

  /** A receiver's connection, registered in its user's shard, gets the
      message at least once unless its key equals Sender+Device (the
      originating device, or a pair whose key collides with it). */
  lemma ReceiverReached(snaps: seq<Snapshot>, receivers: seq<string>, sender: string, device: string,
                        numPools: nat, r: string, d: string)
    requires 0 < numPools < MaxPools && |snaps| == numPools
    requires r in receivers
    requires Key(r, d) in snaps[HashIndex(r, numPools)]
    requires Key(r, d) != Key(sender, device)
    ensures var p := HashIndex(r, numPools);
      FanOut(snaps, Routes(receivers, sender, numPools), Key(sender, device))[Delivery(p, Write(Key(r, d), snaps[p][Key(r, d)]))] >= 1
  {
    var p := HashIndex(r, numPools);
    var routes := Routes(receivers, sender, numPools);
    var i :| 0 <= i < |receivers| && receivers[i] == r;
    assert routes[i] == p;
    DeliveryCount(snaps, routes, Key(sender, device), p, Write(Key(r, d), snaps[p][Key(r, d)]));
  }

  /** The sender's other devices, in the sender's own shard, get the message
      at least once; the originating device never does. */
  lemma SenderDevicesSynced(snaps: seq<Snapshot>, receivers: seq<string>, sender: string, device: string,
                            numPools: nat, d: string, c: ConnId)
    requires 0 < numPools < MaxPools && |snaps| == numPools
    ensures var p := HashIndex(sender, numPools);
      var n := FanOut(snaps, Routes(receivers, sender, numPools), Key(sender, device))[Delivery(p, Write(Key(sender, d), c))];
      && (d != device && Key(sender, d) in snaps[p] && snaps[p][Key(sender, d)] == c ==> n >= 1)
      && (d == device ==> n == 0)
  {
    var p := HashIndex(sender, numPools);
    var routes := Routes(receivers, sender, numPools);
    assert routes[|receivers|] == p;
    if d != device {
      assert Key(sender, d)[|sender|..] != Key(sender, device)[|sender|..];
    }
    DeliveryCount(snaps, routes, Key(sender, device), p, Write(Key(sender, d), c));
  }

  /** The whole shard gets the message: any connection in a shard the
      message is sent to is written, whether or not its user is a
      receiver. */
  lemma ShardWideBroadcast(snaps: seq<Snapshot>, routes: seq<nat>, skip: string, p: nat, k: string)
    requires RoutesInRange(snaps, routes)
    requires p in routes && k in snaps[p] && k != skip
    ensures FanOut(snaps, routes, skip)[Delivery(p, Write(k, snaps[p][k]))] >= 1
  {
    TargetsAreLeft(snaps[p], skip);
    DeliveryCount(snaps, routes, skip, p, Write(k, snaps[p][k]));
  }

  /** A receiver whose shard is also the sender's gets its shard's writes
      twice: once for the receiver's send and once for the sender's. */
  lemma DuplicateDelivery(snaps: seq<Snapshot>, receivers: seq<string>, sender: string, device: string,
                          numPools: nat, r: string, k: string)
    requires 0 < numPools < MaxPools && |snaps| == numPools
    requires r in receivers && HashIndex(r, numPools) == HashIndex(sender, numPools)
    requires var p := HashIndex(sender, numPools); k in snaps[p] && k != Key(sender, device)
    ensures var p := HashIndex(sender, numPools);
      FanOut(snaps, Routes(receivers, sender, numPools), Key(sender, device))[Delivery(p, Write(k, snaps[p][k]))] >= 2
  {
    var p := HashIndex(sender, numPools);
    SharedShardSentTwice(receivers, sender, numPools, r);
    DeliveryCount(snaps, Routes(receivers, sender, numPools), Key(sender, device), p, Write(k, snaps[p][k]));
  }

  /** No write ever goes to the originating key, in any shard. */
  lemma EchoSuppressed(snaps: seq<Snapshot>, routes: seq<nat>, skip: string, p: nat, c: ConnId)
    requires RoutesInRange(snaps, routes)
    requires p < |snaps|
    ensures FanOut(snaps, routes, skip)[Delivery(p, Write(skip, c))] == 0
  {
    DeliveryCount(snaps, routes, skip, p, Write(skip, c));
  }

  /** The key collision reaches across shards through the skip key: a
      message from "a" on device "bc" addressed to "ab" is routed to the
      shard of "ab", whose dispatcher skips key "abc", so "ab" on device "c"
      never gets it, whatever the pool count. */
  lemma CollidingReceiverSkipped(snaps: seq<Snapshot>, numPools: nat, c: ConnId)
    requires 0 < numPools < MaxPools && |snaps| == numPools
    ensures FanOut(snaps, Routes(["ab"], "a", numPools), Key("a", "bc"))
              [Delivery(HashIndex("ab", numPools), Write(Key("ab", "c"), c))] == 0
  {
    KeyCollision();
    EchoSuppressed(snaps, Routes(["ab"], "a", numPools), Key("a", "bc"), HashIndex("ab", numPools), c);
  }

  /** The writes of one dispatcher run, as made by shard p. */
  function Tagged(p: nat, writes: seq<Write>): seq<Delivery>
  {
    seq(|writes|, j requires 0 <= j < |writes| => Delivery(p, writes[j]))
  }

  /** A dispatcher run that writes each target of shard p once makes the
      shard's deliveries, each once. */
  lemma ShardTagged(snaps: seq<Snapshot>, p: nat, skip: string, writes: seq<Write>)
    requires p < |snaps|
    requires forall w :: w in writes <==> w in Targets(snaps[p], skip)
    requires NoDuplicates(writes)
    ensures multiset(Tagged(p, writes)) == multiset(ShardDeliveries(snaps, p, skip))
  {
    var tagged := Tagged(p, writes);
    DistinctMultiset(tagged);
    forall x | x in ShardDeliveries(snaps, p, skip) ensures x in tagged {
      var j :| 0 <= j < |writes| && writes[j] == x.write;
      assert tagged[j] == x;
    }
    assert (set x | x in tagged) == ShardDeliveries(snaps, p, skip);
  }

  /** A dispatcher run that writes distinct targets of shard p, not
      necessarily all of them, makes no delivery beyond the shard's. */
  lemma ShardTaggedPart(snaps: seq<Snapshot>, p: nat, skip: string, writes: seq<Write>)
    requires p < |snaps|
    requires forall w :: w in writes ==> w in Targets(snaps[p], skip)
    requires NoDuplicates(writes)
    ensures multiset(Tagged(p, writes)) <= multiset(ShardDeliveries(snaps, p, skip))
  {
    var tagged := Tagged(p, writes);
    DistinctMultiset(tagged);
    assert (set x | x in tagged) <= ShardDeliveries(snaps, p, skip);
  }

  /** The sends made so far make no more deliveries than all of them. */
  lemma {:induction false} FanOutPrefix(snaps: seq<Snapshot>, routes: seq<nat>, i: nat, skip: string)
    requires i <= |routes| && RoutesInRange(snaps, routes)
    ensures RoutesInRange(snaps, routes[..i])
    ensures FanOut(snaps, routes[..i], skip) <= FanOut(snaps, routes, skip)
    decreases |routes|
  {
    if i < |routes| {
      var init := routes[..|routes| - 1];
      assert init[..i] == routes[..i];
      FanOutPrefix(snaps, init, i, skip);
    } else {
      assert routes[..i] == routes;
    }
  }

  /** A run cut short in the send at index i, after the sends before it
      made their deliveries in full, makes no delivery beyond FanOut. */
  lemma CutShort(snaps: seq<Snapshot>, routes: seq<nat>, i: nat, skip: string,
                 before: seq<Delivery>, writes: seq<Write>)
    requires i < |routes| && RoutesInRange(snaps, routes)
    requires RoutesInRange(snaps, routes[..i]) && multiset(before) == FanOut(snaps, routes[..i], skip)
    requires forall w :: w in writes ==> w in Targets(snaps[routes[i]], skip)
    requires NoDuplicates(writes)
    ensures multiset(before + Tagged(routes[i], writes)) <= FanOut(snaps, routes, skip)
  {
    ShardTaggedPart(snaps, routes[i], skip, writes);
    FanOutSnoc(snaps, routes, i, skip);
    FanOutPrefix(snaps, routes, i + 1, skip);
  }

  /** Appending a dispatcher run with no failed write keeps every delivery
      on a working connection. */
  lemma TaggedWorking(before: seq<Delivery>, p: nat, writes: seq<Write>, broken: set<ConnId>)
    requires forall d :: d in before ==> d.write.conn !in broken
    requires forall w :: w in writes ==> w.conn !in broken
    ensures forall d :: d in before + Tagged(p, writes) ==> d.write.conn !in broken
  {
    var tagged := Tagged(p, writes);
    assert forall j :: 0 <= j < |tagged| ==> tagged[j].write == writes[j];
  }

  /** Appending a dispatcher run that ends in its first failed write, after
      deliveries on working connections only, ends the whole sequence in
      its first failed write. */
  lemma TaggedEndsBroken(before: seq<Delivery>, p: nat, writes: seq<Write>, broken: set<ConnId>)
    requires forall d :: d in before ==> d.write.conn !in broken
    requires writes != [] && writes[|writes| - 1].conn in broken
    requires forall j :: 0 <= j < |writes| - 1 ==> writes[j].conn !in broken
    ensures var r := before + Tagged(p, writes);
      && r != [] && r[|r| - 1].write.conn in broken
      && forall j :: 0 <= j < |r| - 1 ==> r[j].write.conn !in broken
  {
    var tagged := Tagged(p, writes);
    var r := before + tagged;
    forall j | 0 <= j < |r| - 1 ensures r[j].write.conn !in broken {
      if j >= |before| {
        assert r[j] == tagged[j - |before|];
      } else {
        assert r[j] in before;
      }
    }
  }

  /** AnyBroken over one more send. */
  lemma AnyBrokenSnoc(snaps: seq<Snapshot>, routes: seq<nat>, i: nat, skip: string, broken: set<ConnId>)
    requires i < |routes| && RoutesInRange(snaps, routes)
    ensures RoutesInRange(snaps, routes[..i]) && RoutesInRange(snaps, routes[..i + 1])
    ensures AnyBroken(snaps, routes[..i + 1], skip, broken) <==>
              AnyBroken(snaps, routes[..i], skip, broken) || HasBroken(snaps[routes[i]], skip, broken)
  {
    assert routes[..i + 1][..i] == routes[..i];
  }

  /** A failing shard among the sends made so far is one among all of them. */
  lemma {:induction false} AnyBrokenPrefix(snaps: seq<Snapshot>, routes: seq<nat>, i: nat, skip: string, broken: set<ConnId>)
    requires i <= |routes| && RoutesInRange(snaps, routes)
    ensures RoutesInRange(snaps, routes[..i])
    ensures AnyBroken(snaps, routes[..i], skip, broken) ==> AnyBroken(snaps, routes, skip, broken)
    decreases |routes|
  {
    if i < |routes| {
      var init := routes[..|routes| - 1];
      assert init[..i] == routes[..i];
      AnyBrokenPrefix(snaps, init, i, skip, broken);
    } else {
      assert routes[..i] == routes;
    }
  }

  /** FanOut over one more send. */
  lemma FanOutSnoc(snaps: seq<Snapshot>, routes: seq<nat>, i: nat, skip: string)
    requires i < |routes| && RoutesInRange(snaps, routes)
    ensures RoutesInRange(snaps, routes[..i]) && RoutesInRange(snaps, routes[..i + 1])
    ensures FanOut(snaps, routes[..i + 1], skip) ==
              FanOut(snaps, routes[..i], skip) + multiset(ShardDeliveries(snaps, routes[i], skip))
  {
    assert routes[..i + 1][..i] == routes[..i];
  }

  /** One send of Deliver whose dispatcher run made no failed write: the
      loop's facts carry over to one more send. */
  lemma WorkingStep(snaps: seq<Snapshot>, routes: seq<nat>, i: nat, skip: string, broken: set<ConnId>,
                    before: seq<Delivery>, writes: seq<Write>)
    requires i < |routes| && RoutesInRange(snaps, routes)
    requires RoutesInRange(snaps, routes[..i]) && multiset(before) == FanOut(snaps, routes[..i], skip)
    requires !AnyBroken(snaps, routes[..i], skip, broken)
    requires forall d :: d in before ==> d.write.conn !in broken
    requires NoDuplicates(writes)
    requires forall w :: w in writes <==> w in Targets(snaps[routes[i]], skip)
    requires !HasBroken(snaps[routes[i]], skip, broken)
    ensures RoutesInRange(snaps, routes[..i + 1])
    ensures multiset(before + Tagged(routes[i], writes)) == FanOut(snaps, routes[..i + 1], skip)
    ensures !AnyBroken(snaps, routes[..i + 1], skip, broken)
    ensures forall d :: d in before + Tagged(routes[i], writes) ==> d.write.conn !in broken
  {
    ShardTagged(snaps, routes[i], skip, writes);
    FanOutSnoc(snaps, routes, i, skip);
    AnyBrokenSnoc(snaps, routes, i, skip, broken);
    forall w | w in writes ensures w.conn !in broken {
      assert w in Targets(snaps[routes[i]], skip);
    }
    TaggedWorking(before, routes[i], writes, broken);
  }

  /** The send of Deliver whose dispatcher run ended in a failed write: what
      has been written is a part of FanOut that ends in its only failed
      write, and a routed shard has a failing target. */
  lemma CrashStep(snaps: seq<Snapshot>, routes: seq<nat>, i: nat, skip: string, broken: set<ConnId>,
                  before: seq<Delivery>, writes: seq<Write>)
    requires i < |routes| && RoutesInRange(snaps, routes)
    requires RoutesInRange(snaps, routes[..i]) && multiset(before) == FanOut(snaps, routes[..i], skip)
    requires forall d :: d in before ==> d.write.conn !in broken
    requires NoDuplicates(writes)
    requires forall w :: w in writes ==> w in Targets(snaps[routes[i]], skip)
    requires HasBroken(snaps[routes[i]], skip, broken)
    requires writes != [] && writes[|writes| - 1].conn in broken
    requires forall j :: 0 <= j < |writes| - 1 ==> writes[j].conn !in broken
    ensures var r := before + Tagged(routes[i], writes);
      && multiset(r) <= FanOut(snaps, routes, skip)
      && AnyBroken(snaps, routes, skip, broken)
      && r != [] && r[|r| - 1].write.conn in broken
      && forall j :: 0 <= j < |r| - 1 ==> r[j].write.conn !in broken
  {
    AnyBrokenSnoc(snaps, routes, i, skip, broken);
    AnyBrokenPrefix(snaps, routes, i + 1, skip, broken);
    CutShort(snaps, routes, i, skip, before, writes);
    TaggedEndsBroken(before, routes[i], writes, broken);
  }

  /** The manager: the pools and the transport their connections run on. */
  class WebsocketMgr {
    const numPools: nat
    const pools: seq<UserPool>
    const transport: Transport

    /** numPools distinct pools. */
    ghost predicate Valid()
      reads this
    {
      && 0 < numPools < MaxPools
      && |pools| == numPools
      && forall i, j :: 0 <= i < j < |pools| ==> pools[i] != pools[j]
    }

    /** The snapshot each pool currently holds. */
    ghost function Snapshots(): seq<Snapshot>
      reads this, pools
    {
      seq(|pools|, i reads this, pools requires 0 <= i < |pools| => pools[i].users)
    }

    /** init: numPools fresh pools, each storing an empty map. */
    constructor (numPools: nat, transport: Transport)
      requires 0 < numPools < MaxPools
      ensures Valid() && this.numPools == numPools && this.transport == transport
      ensures forall i :: 0 <= i < |pools| ==> fresh(pools[i]) && pools[i].users == map[]
    {
      var made: seq<UserPool> := [];
      while |made| < numPools
        invariant |made| <= numPools
        invariant forall i :: 0 <= i < |made| ==> fresh(made[i]) && made[i].users == map[]
        invariant forall i, j :: 0 <= i < j < |made| ==> made[i] != made[j]
      {
        var pool := new UserPool();
        made := made + [pool];
      }
      this.numPools := numPools;
      pools := made;
      this.transport := transport;
    }

    /** HandleWebSocket after the upgrade: the connection joins the pool its
        user ID hashes to; no other pool changes. */
    method Admit(userID: string, device: string, conn: ConnId)
      requires Valid()
      modifies pools[HashIndex(userID, numPools)], transport
      ensures var p := HashIndex(userID, numPools);
        pools[p].users == Joined(old(pools[p].users), Key(userID, device), conn)
      ensures var p := HashIndex(userID, numPools);
        transport.closed == old(transport.closed) + Displaced(old(pools[p].users), Key(userID, device))
      ensures forall i :: 0 <= i < |pools| && i != HashIndex(userID, numPools) ==> pools[i].users == old(pools[i].users)
    {
      pools[HashIndex(userID, numPools)].UserDeviceJoin(userID, device, conn, transport);
    }

    /** The dispatchers of the shards a message is sent to, one send after
        the other, while the shards hold `snaps` and no snapshot changes, as
        written: the first failed
        write ends the process (`crashed`), so no later write is made, in
        that shard or any other. Without a failed write, together they make
        exactly the writes of FanOut; with one, a part of them that ends in
        the failed write. */
    method Deliver(message: Message, shards: seq<nat>, broken: set<ConnId>, ghost snaps: seq<Snapshot>)
      returns (deliveries: seq<Delivery>, crashed: bool)
      requires Valid() && snaps == Snapshots()
      requires forall i :: 0 <= i < |shards| ==> shards[i] < numPools
      ensures RoutesInRange(snaps, shards)
      ensures multiset(deliveries) <= FanOut(snaps, shards, Key(message.sender, message.device))
      ensures crashed <==> AnyBroken(snaps, shards, Key(message.sender, message.device), broken)
      ensures !crashed ==> multiset(deliveries) == FanOut(snaps, shards, Key(message.sender, message.device))
      ensures crashed ==> deliveries != [] && deliveries[|deliveries| - 1].write.conn in broken
      ensures forall j :: 0 <= j < |deliveries| - 1 ==> deliveries[j].write.conn !in broken
    {
      var skip := Key(message.sender, message.device);
      deliveries, crashed := [], false;
      var i := 0;
      while i < |shards|
        invariant 0 <= i <= |shards|
        invariant RoutesInRange(snaps, shards[..i])
        invariant multiset(deliveries) == FanOut(snaps, shards[..i], skip)
        invariant !AnyBroken(snaps, shards[..i], skip, broken)
        invariant forall d :: d in deliveries ==> d.write.conn !in broken
      {
        var p := shards[i];
        var writes, crash := pools[p].MessageDispatcher(message, broken);
        assert snaps[p] == pools[p].users;
        if crash {
          CrashStep(snaps, shards, i, skip, broken, deliveries, writes);
          deliveries := deliveries + Tagged(p, writes);
          return deliveries, true;
        }
        WorkingStep(snaps, shards, i, skip, broken, deliveries, writes);
        deliveries := deliveries + Tagged(p, writes);
        i := i + 1;
      }
      assert shards[..i] == shards;
    }

    /** The same sends with the dispatcher as evidently intended, which
        logs a failed write and goes on: the routed shards together make
        exactly the writes of FanOut, with their multiplicities, whichever
        connections are broken. */
    method DeliverLogged(message: Message, shards: seq<nat>, broken: set<ConnId>, ghost snaps: seq<Snapshot>)
      returns (deliveries: seq<Delivery>)
      requires Valid() && snaps == Snapshots()
      requires forall i :: 0 <= i < |shards| ==> shards[i] < numPools
      ensures RoutesInRange(snaps, shards)
      ensures multiset(deliveries) == FanOut(snaps, shards, Key(message.sender, message.device))
    {
      var skip := Key(message.sender, message.device);
      deliveries := [];
      var i := 0;
      while i < |shards|
        invariant 0 <= i <= |shards|
        invariant RoutesInRange(snaps, shards[..i])
        invariant multiset(deliveries) == FanOut(snaps, shards[..i], skip)
      {
        var p := shards[i];
        var writes, _ := pools[p].LoggingDispatcher(message, broken);
        assert snaps[p] == pools[p].users;
        ShardTagged(snaps, p, skip, writes);
        FanOutSnoc(snaps, shards, i, skip);
        deliveries := deliveries + Tagged(p, writes);
        i := i + 1;
      }
      assert shards[..i] == shards;
    }
  }
}
