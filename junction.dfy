/**
 * `SlowJunction`: a node of the mesh over UDP. It keeps the set of
 * addresses it knows, a queue of packages to send, a queue of JSON packets
 * received for it, a route table and counters. Packages addressed to it are
 * delivered locally (pings answered, pongs counted, JSON queued); others
 * are forwarded, to the best route when there is one, else to every known
 * address but the one they came from.
 *
 * Each handler is one atomic step; the tasks, locks and notifications are
 * left out. Every `connection.send_package` is appended to `sent`, and is
 * assumed to succeed (the source panics otherwise). The package kind
 * "hello", the hello constructor and the JSON parser are not part of this
 * model and are given at construction (`Externals`). Whether a received
 * package is new is an input (see `UpdateRouteTable`).
 */
module Junction {
  import opened Common
  import opened JunctionIds
  import opened Package
  import opened Routes

  /** A package received for this junction, tagged with the address it came from; the JSON is kept as its text. */
  datatype JsonPacket = JsonPacket(addr: SocketAddr, json: Bytes)

  /** One `send_package` on the connection. */
  datatype Transmission = Transmission(package: SlowPackage, addr: SocketAddr)

  /** What the junction needs from code that is not part of this model. */
  datatype Externals = Externals(
    isHello: SlowPackage -> bool,            // `package_type() == Ok(PackageType::Hello)`
    newHello: (u32, JunctionId) -> SlowPackage, // `SlowPackage::new_hello`
    jsonParses: Bytes -> bool)               // `json_payload().is_some()`

  /** A forwarded package whose incremented hop count reaches this is dropped. */
  const HopLimit: u8 := 128

  // ---------------------------------------------------------------------
  // Effects on the transmission log
  // ---------------------------------------------------------------------

  /** `package` sent to each address of `order`, in that order. */
  function Deliveries(package: SlowPackage, order: seq<SocketAddr>): (r: seq<Transmission>)
    ensures |r| == |order|
  {
    if order == [] then []
    else Deliveries(package, order[..|order| - 1]) + [Transmission(package, order[|order| - 1])]
  }

  /** The `i`-th delivery carries `package` to the `i`-th address. */
  lemma {:induction false} DeliveriesAt(package: SlowPackage, order: seq<SocketAddr>, i: nat)
    requires i < |order|
    ensures Deliveries(package, order)[i] == Transmission(package, order[i])
    decreases |order|
  {
    var last := |order| - 1;
    if i < last {
      DeliveriesAt(package, order[..last], i);
    }
  }

  /** One more address, one more transmission at the end. */
  lemma DeliveriesSnoc(package: SlowPackage, order: seq<SocketAddr>, a: SocketAddr)
    ensures Deliveries(package, order + [a]) == Deliveries(package, order) + [Transmission(package, a)]
  {
    assert (order + [a])[..|order|] == order;
  }

  /** `order` lists every element of `s` exactly once, and nothing else. */
  predicate IsEnumeration(order: seq<SocketAddr>, s: set<SocketAddr>)
  {
    multiset(order) == multiset(s)
  }

  /** Sent once to every address of `targets`, in some order. */
  ghost predicate Broadcast(before: seq<Transmission>, after: seq<Transmission>, package: SlowPackage, targets: set<SocketAddr>)
  {
    exists order :: IsEnumeration(order, targets) && after == before + Deliveries(package, order)
  }

  /** The route table knows at least one address for `id`. */
  predicate HasBestRoute(junctions: map<JunctionId, Route>, id: JunctionId)
  {
    id in junctions && junctions[id].routes != map[]
  }

  /**
   * The log after routing `package`: one transmission to a best route of its
   * recipient if there is one, else one to each known address outside
   * `exclude`.
   */
  ghost predicate Routed(before: seq<Transmission>, after: seq<Transmission>, package: SlowPackage,
                         exclude: set<SocketAddr>, known: set<SocketAddr>, junctions: map<JunctionId, Route>)
  {
    var recipient := package.header.recipientId;
    if HasBestRoute(junctions, recipient) then
      && |after| == |before| + 1
      && after[..|before|] == before
      && after[|before|].package == package
      && IsBest(junctions[recipient].routes, after[|before|].addr)
    else Broadcast(before, after, package, known - exclude)
  }

  /** The package `forward` passes on, if any: one hop more, and only below the limit. */
  function ForwardedCopy(package: SlowPackage): (r: Option<SlowPackage>)
    ensures r.Some? ==> r.value == IncrementHops(package).0 && r.value.header.hopCount < HopLimit
    ensures r.None? <==> IncrementHops(package).1 >= HopLimit
  {
    var (incremented, hops) := IncrementHops(package);
    if hops >= HopLimit then None else Some(incremented)
  }

  /** A package that arrives with 127 hops or more is dropped, except at 255, where the hop count wraps to 0. */
  lemma HopLimitBoundary(package: SlowPackage)
    ensures 127 <= package.header.hopCount < 255 ==> ForwardedCopy(package).None?
    ensures package.header.hopCount < 127 ==> ForwardedCopy(package).Some?
    ensures package.header.hopCount == 255 ==>
      ForwardedCopy(package).Some? && ForwardedCopy(package).value.header.hopCount == 0
  {
  }

  /** The id `pump_send` stamps on the `k`-th package (from 1) after `count` earlier ones: wrapping `u32`. */
  function StampedId(count: u32, k: nat): (r: u32)
    ensures k < 0x1_0000_0000 - count ==> r == count + k
  {
    (count + k) % 0x1_0000_0000
  }

  /** Stamping continues one by one: the next id is the wrapping increment of the last. */
  lemma StampedIdStep(count: u32, k: nat)
    ensures StampedId(count, k + 1) == WrappingIncU32(StampedId(count, k))
  {
  }

  /**
   * `logs` are the transmission logs before and after each package of
   * `queue`: `pump_send` routes each package in turn, stamped with its id,
   * like any other package (no address excluded).
   */
  ghost predicate PumpSteps(logs: seq<seq<Transmission>>, queue: seq<SlowPackage>, count: u32,
                            known: set<SocketAddr>, junctions: map<JunctionId, Route>)
  {
    && |logs| == |queue| + 1
    && forall i :: 0 <= i < |queue| ==>
         Routed(logs[i], logs[i + 1], SetPackageId(queue[i], StampedId(count, i + 1)), {}, known, junctions)
  }

  /** The log after `pump_send` has sent `queue`, oldest first. */
  ghost predicate Pumped(before: seq<Transmission>, after: seq<Transmission>, queue: seq<SlowPackage>, count: u32,
                         known: set<SocketAddr>, junctions: map<JunctionId, Route>)
  {
    exists logs :: PumpSteps(logs, queue, count, known, junctions) && logs[0] == before && logs[|queue|] == after
  }

  /** Routing the next package of the queue adds one step. */
  lemma PumpStepsExtend(logs: seq<seq<Transmission>>, queue: seq<SlowPackage>, done: nat, count: u32,
                        known: set<SocketAddr>, junctions: map<JunctionId, Route>, after: seq<Transmission>)
    requires done < |queue|
    requires PumpSteps(logs, queue[..done], count, known, junctions)
    requires Routed(logs[done], after, SetPackageId(queue[done], StampedId(count, done + 1)), {}, known, junctions)
    ensures PumpSteps(logs + [after], queue[..done + 1], count, known, junctions)
  {
    var logs' := logs + [after];
    forall i | 0 <= i < done + 1
      ensures Routed(logs'[i], logs'[i + 1], SetPackageId(queue[..done + 1][i], StampedId(count, i + 1)), {}, known, junctions)
    {
      if i < done {
        assert queue[..done][i] == queue[..done + 1][i];
      }
    }
  }

  /** Broadcasting to a single address sends exactly one transmission, to it. */
  lemma BroadcastToOne(before: seq<Transmission>, after: seq<Transmission>, package: SlowPackage, a: SocketAddr)
    requires Broadcast(before, after, package, {a})
    ensures after == before + [Transmission(package, a)]
  {
    var order :| IsEnumeration(order, {a}) && after == before + Deliveries(package, order);
    assert |multiset(order)| == |order| == 1;
    assert order[0] in multiset(order);
    assert order == [a];
  }

  /** Broadcasting to no address sends nothing. */
  lemma BroadcastToNone(before: seq<Transmission>, after: seq<Transmission>, package: SlowPackage)
    requires Broadcast(before, after, package, {})
    ensures after == before
  {
    var order :| IsEnumeration(order, {}) && after == before + Deliveries(package, order);
    assert |multiset(order)| == 0;
  }

  /** Visiting one more address keeps the visited addresses outside `excluded` enumerated. */
  lemma EnumerationExtend(order: seq<SocketAddr>, done: set<SocketAddr>, excluded: set<SocketAddr>, a: SocketAddr)
    requires IsEnumeration(order, done - excluded) && a !in done
    ensures a !in excluded ==> IsEnumeration(order + [a], (done + {a}) - excluded)
    ensures a in excluded ==> IsEnumeration(order, (done + {a}) - excluded)
  {
    if a !in excluded {
      assert (done + {a}) - excluded == (done - excluded) + {a};
      assert a !in done - excluded;
    } else {
      assert (done + {a}) - excluded == done - excluded;
    }
  }

  /** The loop of `send_to_known_junctions`: `package` to each address of `known` outside `excluded`, in any order. */
  method SendEach(before: seq<Transmission>, package: SlowPackage, known: set<SocketAddr>, excluded: set<SocketAddr>)
    returns (log: seq<Transmission>)
    ensures Broadcast(before, log, package, known - excluded)
  {
    var remaining := known;
    var sends: seq<Transmission> := [];
    ghost var order: seq<SocketAddr> := [];
    while remaining != {}
      invariant remaining <= known
      invariant IsEnumeration(order, (known - remaining) - excluded)
      invariant sends == Deliveries(package, order)
      decreases |remaining|
    {
      var a :| a in remaining;
      EnumerationExtend(order, known - remaining, excluded, a);
      assert known - (remaining - {a}) == (known - remaining) + {a};
      if a !in excluded {
        DeliveriesSnoc(package, order, a);
        sends := sends + [Transmission(package, a)];
        order := order + [a];
      }
      remaining := remaining - {a};
    }
    log := before + sends;
    assert known - remaining == known;
  }

  class SlowJunction {
    const addr: SocketAddr
    const junctionId: JunctionId
    const ext: Externals
    const routeTable: RouteTable
    var knownJunctions: set<SocketAddr>
    var sendQueue: seq<SlowPackage>
    var receivedQueue: seq<JsonPacket>
    var pongCounter: u32
    var sentPackageCount: u32
    var uniquePackageCount: u32
    var duplicatePackageCount: nat
    /** Every package handed to the connection, with its destination. */
    var sent: seq<Transmission>

    /** `SlowJunction::new`, without binding the socket or starting the task. */
    constructor (addr: SocketAddr, junctionId: JunctionId, ext: Externals)
      ensures this.addr == addr && this.junctionId == junctionId && this.ext == ext
      ensures fresh(routeTable) && routeTable.junctions == map[]
      ensures knownJunctions == {} && sendQueue == [] && receivedQueue == [] && sent == []
      ensures pongCounter == 0 && sentPackageCount == 0 && uniquePackageCount == 0 && duplicatePackageCount == 0
    {
      this.addr := addr;
      this.junctionId := junctionId;
      this.ext := ext;
      routeTable := new RouteTable();
      knownJunctions := {};
      sendQueue := [];
      receivedQueue := [];
      pongCounter := 0;
      sentPackageCount := 0;
      uniquePackageCount := 0;
      duplicatePackageCount := 0;
      sent := [];
    }

    /** `SlowJunction::send`: queue a JSON package from this junction; nothing is sent yet. */
    method Send(json: Bytes, recipientId: JunctionId)
      modifies this
      ensures sendQueue == old(sendQueue) + [NewJsonPayload(recipientId, junctionId, json)]
      ensures knownJunctions == old(knownJunctions) && receivedQueue == old(receivedQueue) && sent == old(sent)
      ensures pongCounter == old(pongCounter) && sentPackageCount == old(sentPackageCount)
      ensures uniquePackageCount == old(uniquePackageCount) && duplicatePackageCount == old(duplicatePackageCount)
    {
      sendQueue := sendQueue + [NewJsonPayload(recipientId, junctionId, json)];
    }

    /** `SlowJunction::recv`: the oldest received JSON packet, if any. */
    method Recv() returns (r: Option<JsonPacket>)
      modifies this
      ensures old(receivedQueue) == [] ==> r.None? && receivedQueue == []
      ensures old(receivedQueue) != [] ==> r == Some(old(receivedQueue)[0]) && receivedQueue == old(receivedQueue)[1..]
      ensures knownJunctions == old(knownJunctions) && sendQueue == old(sendQueue) && sent == old(sent)
      ensures pongCounter == old(pongCounter) && sentPackageCount == old(sentPackageCount)
      ensures uniquePackageCount == old(uniquePackageCount) && duplicatePackageCount == old(duplicatePackageCount)
    {
      if receivedQueue == [] {
        r := None;
      } else {
        r := Some(receivedQueue[0]);
        receivedQueue := receivedQueue[1..];
      }
    }

    /** `SlowJunction::seed`: remember an address, but never the junction's own. */
    method Seed(a: SocketAddr)
      modifies this
      ensures knownJunctions == if a == addr then old(knownJunctions) else old(knownJunctions) + {a}
      ensures sendQueue == old(sendQueue) && receivedQueue == old(receivedQueue) && sent == old(sent)
      ensures pongCounter == old(pongCounter) && sentPackageCount == old(sentPackageCount)
      ensures uniquePackageCount == old(uniquePackageCount) && duplicatePackageCount == old(duplicatePackageCount)
    {
      if a == addr {
        return;
      }
      knownJunctions := knownJunctions + {a};
    }

    /** `SlowJunction::pong`: queue a pong to `recipientId`. */
    method Pong(recipientId: JunctionId)
      modifies this
      ensures sendQueue == old(sendQueue) + [NewPong(recipientId, junctionId)]
      ensures knownJunctions == old(knownJunctions) && receivedQueue == old(receivedQueue) && sent == old(sent)
      ensures pongCounter == old(pongCounter) && sentPackageCount == old(sentPackageCount)
      ensures uniquePackageCount == old(uniquePackageCount) && duplicatePackageCount == old(duplicatePackageCount)
    {
      sendQueue := sendQueue + [NewPong(recipientId, junctionId)];
    }

    /** `SlowJunction::ping`: queue a ping to `recipientId`. */
    method Ping(recipientId: JunctionId)
      modifies this
      ensures sendQueue == old(sendQueue) + [NewPing(recipientId, junctionId)]
      ensures knownJunctions == old(knownJunctions) && receivedQueue == old(receivedQueue) && sent == old(sent)
      ensures pongCounter == old(pongCounter) && sentPackageCount == old(sentPackageCount)
      ensures uniquePackageCount == old(uniquePackageCount) && duplicatePackageCount == old(duplicatePackageCount)
    {
      sendQueue := sendQueue + [NewPing(recipientId, junctionId)];
    }

    /** `SlowJunction::on_pong_received`: count the pong (an atomic `u32`, which wraps). */
    method OnPongReceived()
      modifies this
      ensures pongCounter == WrappingIncU32(old(pongCounter))
      ensures knownJunctions == old(knownJunctions) && sendQueue == old(sendQueue)
      ensures receivedQueue == old(receivedQueue) && sent == old(sent)
      ensures sentPackageCount == old(sentPackageCount)
      ensures uniquePackageCount == old(uniquePackageCount) && duplicatePackageCount == old(duplicatePackageCount)
    {
      pongCounter := WrappingIncU32(pongCounter);
    }

    /** `SlowJunction::on_ping_received`: answer with a pong to the sender. */
    method OnPingReceived(package: SlowPackage)
      modifies this
      ensures sendQueue == old(sendQueue) + [NewPong(package.header.senderId, junctionId)]
      ensures knownJunctions == old(knownJunctions) && receivedQueue == old(receivedQueue) && sent == old(sent)
      ensures pongCounter == old(pongCounter) && sentPackageCount == old(sentPackageCount)
      ensures uniquePackageCount == old(uniquePackageCount) && duplicatePackageCount == old(duplicatePackageCount)
    {
      Pong(package.header.senderId);
    }

    /** `SlowJunction::join` (`send_hello`): a hello with id 0 straight to `a`. */
    method Join(a: SocketAddr)
      modifies this
      ensures sent == old(sent) + [Transmission(ext.newHello(0, junctionId), a)]
      ensures knownJunctions == old(knownJunctions) && sendQueue == old(sendQueue) && receivedQueue == old(receivedQueue)
      ensures pongCounter == old(pongCounter) && sentPackageCount == old(sentPackageCount)
      ensures uniquePackageCount == old(uniquePackageCount) && duplicatePackageCount == old(duplicatePackageCount)
    {
      sent := sent + [Transmission(ext.newHello(0, junctionId), a)];
    }

    /**
     * `SlowJunction::on_hello_received`: answer a hello with id 0 by a hello
     * with id 1, and remember the sender's address.
     */
    method OnHelloReceived(package: SlowPackage, senderAddr: SocketAddr)
      modifies this
      ensures sent == old(sent) + (if GetPackageId(package) == 0 then [Transmission(ext.newHello(1, junctionId), senderAddr)] else [])
      ensures knownJunctions == old(knownJunctions) + {senderAddr}
      ensures sendQueue == old(sendQueue) && receivedQueue == old(receivedQueue)
      ensures pongCounter == old(pongCounter) && sentPackageCount == old(sentPackageCount)
      ensures uniquePackageCount == old(uniquePackageCount) && duplicatePackageCount == old(duplicatePackageCount)
    {
      if GetPackageId(package) == 0 {
        sent := sent + [Transmission(ext.newHello(1, junctionId), senderAddr)];
      }
      knownJunctions := knownJunctions + {senderAddr};
    }

    /** `SlowJunction::get_best_route`. */
    method GetBestRoute(id: JunctionId) returns (r: Option<SocketAddr>)
      ensures r.None? <==> !HasBestRoute(routeTable.junctions, id)
      ensures r.Some? ==> IsBest(routeTable.junctions[id].routes, r.value)
    {
      r := routeTable.GetBestRoute(id);
    }

    /** `SlowJunction::send_to_best_route`: send to a best route of the recipient, if it has one. */
    method SendToBestRoute(package: SlowPackage) returns (r: bool)
      modifies this
      ensures r <==> HasBestRoute(routeTable.junctions, package.header.recipientId)
      ensures r ==> Routed(old(sent), sent, package, {}, knownJunctions, routeTable.junctions)
      ensures !r ==> sent == old(sent)
      ensures knownJunctions == old(knownJunctions) && sendQueue == old(sendQueue) && receivedQueue == old(receivedQueue)
      ensures pongCounter == old(pongCounter) && sentPackageCount == old(sentPackageCount)
      ensures uniquePackageCount == old(uniquePackageCount) && duplicatePackageCount == old(duplicatePackageCount)
    {
      var best := GetBestRoute(package.header.recipientId);
      if best.None? {
        return false;
      }
      sent := sent + [Transmission(package, best.value)];
      assert sent[..|old(sent)|] == old(sent);
      return true;
    }

    /**
     * `SlowJunction::send_to_known_junctions`: send to every known address
     * except `exclude`, each once, in the set's iteration order.
     */
    method SendToKnownJunctions(package: SlowPackage, exclude: Option<SocketAddr>)
      modifies this
      ensures Broadcast(old(sent), sent, package,
        knownJunctions - (if exclude.Some? then {exclude.value} else {}))
      ensures knownJunctions == old(knownJunctions) && sendQueue == old(sendQueue) && receivedQueue == old(receivedQueue)
      ensures pongCounter == old(pongCounter) && sentPackageCount == old(sentPackageCount)
      ensures uniquePackageCount == old(uniquePackageCount) && duplicatePackageCount == old(duplicatePackageCount)
    {
      var excluded: set<SocketAddr> := if exclude.Some? then {exclude.value} else {};
      sent := SendEach(sent, package, knownJunctions, excluded);
    }

    /**
     * `SlowJunction::forward`: one hop more; at the limit the package is
     * dropped; otherwise it goes to a best route, or to every known address
     * but the one it came from.
     */
    method Forward(package: SlowPackage, senderAddr: SocketAddr)
      modifies this
      ensures ForwardedCopy(package).None? ==> sent == old(sent)
      ensures ForwardedCopy(package).Some? ==>
        Routed(old(sent), sent, ForwardedCopy(package).value, {senderAddr}, knownJunctions, routeTable.junctions)
      ensures forall i :: |old(sent)| <= i < |sent| ==> sent[i].package.header.hopCount < HopLimit
      ensures knownJunctions == old(knownJunctions) && sendQueue == old(sendQueue) && receivedQueue == old(receivedQueue)
      ensures pongCounter == old(pongCounter) && sentPackageCount == old(sentPackageCount)
      ensures uniquePackageCount == old(uniquePackageCount) && duplicatePackageCount == old(duplicatePackageCount)
    {
      var (incremented, hops) := IncrementHops(package);
      if hops >= HopLimit {
        return;
      }
      var routed := SendToBestRoute(incremented);
      if routed {
        return;
      }
      SendToKnownJunctions(incremented, Some(senderAddr));
      ghost var order :| IsEnumeration(order, knownJunctions - {senderAddr}) && sent == old(sent) + Deliveries(incremented, order);
      forall i | |old(sent)| <= i < |sent|
        ensures sent[i].package.header.hopCount < HopLimit
      {
        DeliveriesAt(incremented, order, i - |old(sent)|);
      }
    }

    /**
     * `SlowJunction::update_route_table`: remember the sender's address and
     * record the route in the table. The source returns the table's `u32`
     * as a `bool`; whether the package is new is therefore the input `isNew`.
     */
    method UpdateRouteTable(package: SlowPackage, senderAddr: SocketAddr, isNew: bool) returns (r: bool)
      modifies this, routeTable
      ensures r == isNew
      ensures knownJunctions == old(knownJunctions) + {senderAddr}
      ensures var senderId := package.header.senderId;
        var before := if senderId in old(routeTable.junctions) then old(routeTable.junctions)[senderId] else NewRoute;
        routeTable.junctions == old(routeTable.junctions)[senderId :=
          UpdatedRoute(before, senderAddr, package.header.hopCount, package.header.packageId).0]
      ensures sendQueue == old(sendQueue) && receivedQueue == old(receivedQueue) && sent == old(sent)
      ensures pongCounter == old(pongCounter) && sentPackageCount == old(sentPackageCount)
      ensures uniquePackageCount == old(uniquePackageCount) && duplicatePackageCount == old(duplicatePackageCount)
    {
      knownJunctions := knownJunctions + {senderAddr};
      var _ := routeTable.UpdateRoute(package.header.senderId, senderAddr, package.header.hopCount, package.header.packageId);
      r := isNew;
    }

    /**
     * `SlowJunction::on_package_received`. A hello is answered and its
     * address remembered. Any other package records its route; a package
     * that is not new is only counted as a duplicate; a new one is counted
     * and then forwarded if it is for another junction, or delivered here.
     */
    method OnPackageReceived(package: SlowPackage, senderAddr: SocketAddr, isNew: bool)
      modifies this, routeTable
      ensures ext.isHello(package) ==>
        && sent == old(sent) + (if GetPackageId(package) == 0 then [Transmission(ext.newHello(1, junctionId), senderAddr)] else [])
        && knownJunctions == old(knownJunctions) + {senderAddr}
        && routeTable.junctions == old(routeTable.junctions)
        && sendQueue == old(sendQueue) && receivedQueue == old(receivedQueue) && pongCounter == old(pongCounter)
        && uniquePackageCount == old(uniquePackageCount) && duplicatePackageCount == old(duplicatePackageCount)
      ensures !ext.isHello(package) ==> knownJunctions == old(knownJunctions) + {senderAddr}
      ensures !ext.isHello(package) ==>
        var senderId := package.header.senderId;
        var before := if senderId in old(routeTable.junctions) then old(routeTable.junctions)[senderId] else NewRoute;
        routeTable.junctions == old(routeTable.junctions)[senderId :=
          UpdatedRoute(before, senderAddr, package.header.hopCount, package.header.packageId).0]
      ensures !ext.isHello(package) && !isNew ==>
        && duplicatePackageCount == old(duplicatePackageCount) + 1
        && uniquePackageCount == old(uniquePackageCount)
        && sent == old(sent) && sendQueue == old(sendQueue) && receivedQueue == old(receivedQueue)
        && pongCounter == old(pongCounter)
      ensures !ext.isHello(package) && isNew ==>
        && duplicatePackageCount == old(duplicatePackageCount)
        && uniquePackageCount == WrappingIncU32(old(uniquePackageCount))
      ensures !ext.isHello(package) && isNew && package.header.recipientId != junctionId ==>
        && (ForwardedCopy(package).None? ==> sent == old(sent))
        && (ForwardedCopy(package).Some? ==>
              Routed(old(sent), sent, ForwardedCopy(package).value, {senderAddr}, knownJunctions, routeTable.junctions))
        && sendQueue == old(sendQueue) && receivedQueue == old(receivedQueue) && pongCounter == old(pongCounter)
      ensures !ext.isHello(package) && isNew && package.header.recipientId == junctionId ==>
        && sent == old(sent)
        && sendQueue == old(sendQueue)
             + (if GetPackageType(package) == Some(PackageType.Ping) then [NewPong(package.header.senderId, junctionId)] else [])
        && pongCounter == (if GetPackageType(package) == Some(PackageType.Pong) then WrappingIncU32(old(pongCounter)) else old(pongCounter))
        && receivedQueue == old(receivedQueue)
             + (if GetPackageType(package) == Some(PackageType.Json) && ext.jsonParses(package.payload)
                then [JsonPacket(senderAddr, package.payload)] else [])
      ensures sentPackageCount == old(sentPackageCount)
    {
      var packageType := GetPackageType(package);
      if ext.isHello(package) {
        OnHelloReceived(package, senderAddr);
        return;
      }
      var isUpdated := UpdateRouteTable(package, senderAddr, isNew);
      if !isUpdated {
        duplicatePackageCount := duplicatePackageCount + 1;
        return;
      }
      uniquePackageCount := WrappingIncU32(uniquePackageCount);
      if package.header.recipientId != junctionId {
        Forward(package, senderAddr);
        return;
      }
      match packageType {
        case Some(Ping) => OnPingReceived(package);
        case Some(Pong) => OnPongReceived();
        case Some(Json) =>
          if ext.jsonParses(package.payload) {
            receivedQueue := receivedQueue + [JsonPacket(senderAddr, package.payload)];
          }
        case Some(Bin) =>
        case None =>
      }
    }

    /** The body of the `pump_send` loop: the best route if there is one, else every known address. */
    method SendRouted(package: SlowPackage)
      modifies this
      ensures Routed(old(sent), sent, package, {}, knownJunctions, routeTable.junctions)
      ensures knownJunctions == old(knownJunctions) && sendQueue == old(sendQueue) && receivedQueue == old(receivedQueue)
      ensures pongCounter == old(pongCounter) && sentPackageCount == old(sentPackageCount)
      ensures uniquePackageCount == old(uniquePackageCount) && duplicatePackageCount == old(duplicatePackageCount)
    {
      var routed := SendToBestRoute(package);
      if !routed {
        SendToKnownJunctions(package, None);
      }
    }

    /**
     * `SlowJunction::pump_send`: drain the send queue in order, stamping
     * each package with the next sent-package id and routing it to a best
     * route or, failing that, to every known address.
     */
    method PumpSend()
      modifies this
      ensures sendQueue == []
      ensures sentPackageCount == StampedId(old(sentPackageCount), |old(sendQueue)|)
      ensures Pumped(old(sent), sent, old(sendQueue), old(sentPackageCount), knownJunctions, routeTable.junctions)
      ensures knownJunctions == old(knownJunctions) && receivedQueue == old(receivedQueue)
      ensures pongCounter == old(pongCounter)
      ensures uniquePackageCount == old(uniquePackageCount) && duplicatePackageCount == old(duplicatePackageCount)
    {
      ghost var done: nat := 0;
      ghost var logs: seq<seq<Transmission>> := [sent];
      while sendQueue != []
        invariant done <= |old(sendQueue)|
        invariant sendQueue == old(sendQueue)[done..]
        invariant sentPackageCount == StampedId(old(sentPackageCount), done)
        invariant PumpSteps(logs, old(sendQueue)[..done], old(sentPackageCount), knownJunctions, routeTable.junctions)
        invariant logs[0] == old(sent) && logs[done] == sent
        invariant knownJunctions == old(knownJunctions) && receivedQueue == old(receivedQueue)
        invariant pongCounter == old(pongCounter)
        invariant uniquePackageCount == old(uniquePackageCount) && duplicatePackageCount == old(duplicatePackageCount)
        decreases |sendQueue|
      {
        var package := sendQueue[0];
        sendQueue := sendQueue[1..];
        StampedIdStep(old(sentPackageCount), done);
        sentPackageCount := WrappingIncU32(sentPackageCount);
        var packageId := sentPackageCount;
        package := SetPackageId(package, packageId);
        SendRouted(package);
        PumpStepsExtend(logs, old(sendQueue), done, old(sentPackageCount), knownJunctions, routeTable.junctions, sent);
        logs := logs + [sent];
        done := done + 1;
      }
      assert old(sendQueue)[..done] == old(sendQueue);
    }
  }

  /** `pump_send` with one queued package and one known address. */
  method PumpOne(j: SlowJunction, package: SlowPackage, a: SocketAddr) returns (t: Transmission)
    requires j.sendQueue == [package] && j.sentPackageCount == 0 && j.knownJunctions == {a}
    modifies j
    ensures j.sent == old(j.sent) + [t]
    ensures t.package == SetPackageId(package, 1)
    ensures HasBestRoute(j.routeTable.junctions, package.header.recipientId) ==>
      IsBest(j.routeTable.junctions[package.header.recipientId].routes, t.addr)
    ensures !HasBestRoute(j.routeTable.junctions, package.header.recipientId) ==> t.addr == a
    ensures j.sendQueue == [] && j.sentPackageCount == 1
    ensures j.knownJunctions == old(j.knownJunctions) && j.receivedQueue == old(j.receivedQueue)
    ensures j.pongCounter == old(j.pongCounter)
    ensures j.uniquePackageCount == old(j.uniquePackageCount) && j.duplicatePackageCount == old(j.duplicatePackageCount)
  {
    ghost var queue := j.sendQueue;
    j.PumpSend();
    ghost var stamped := SetPackageId(package, StampedId(0, 1));
    assert queue[..0] == [];
    ghost var logs :| PumpSteps(logs, queue, 0, {a}, j.routeTable.junctions) && logs[0] == old(j.sent) && logs[1] == j.sent;
    assert Routed(logs[0], logs[1], stamped, {}, {a}, j.routeTable.junctions);
    ghost var mid := logs[0];
    if !HasBestRoute(j.routeTable.junctions, package.header.recipientId) {
      assert {a} - {} == {a};
      BroadcastToOne(mid, j.sent, stamped, a);
    }
    t := j.sent[|j.sent| - 1];
  }

  /**
   * A fresh junction with one seeded neighbour and no routes sends a queued
   * JSON package to that neighbour, as package 1.
   */
  method SeedSendPump(addr: SocketAddr, neighbour: SocketAddr, id: JunctionId, recipient: JunctionId,
                      json: Bytes, ext: Externals)
    returns (sent: seq<Transmission>, count: u32)
    requires neighbour != addr
    ensures sent == [Transmission(SetPackageId(NewJsonPayload(recipient, id, json), 1), neighbour)]
    ensures count == 1
  {
    var j := new SlowJunction(addr, id, ext);
    j.Seed(neighbour);
    j.Send(json, recipient);
    var t := PumpOne(j, NewJsonPayload(recipient, id, json), neighbour);
    sent := j.sent;
    count := j.sentPackageCount;
  }

  /**
   * A new ping addressed to the junction queues a pong to its sender and
   * counts one unique package; the same ping reported as not new only
   * counts a duplicate.
   */
  method PingThenRepeat(addr: SocketAddr, id: JunctionId, peer: JunctionId, from: SocketAddr, ext: Externals)
    returns (queue: seq<SlowPackage>, unique: u32, duplicates: nat, known: set<SocketAddr>)
    requires !ext.isHello(NewPing(id, peer))
    ensures queue == [NewPong(peer, id)]
    ensures unique == 1 && duplicates == 1
    ensures known == {from}
  {
    var j := new SlowJunction(addr, id, ext);
    var ping := NewPing(id, peer);
    j.OnPackageReceived(ping, from, true);
    j.OnPackageReceived(ping, from, false);
    queue := j.sendQueue;
    unique := j.uniquePackageCount;
    duplicates := j.duplicatePackageCount;
    known := j.knownJunctions;
  }
  /**
   * `join` followed by the hello exchange, each delivery made by hand:
   * junction 1 sends hello 0 to junction 2, which answers with hello 1;
   * each ends up knowing the other's address and nothing else.
   */
  method JoinHandshake(addr1: SocketAddr, addr2: SocketAddr, id1: JunctionId, id2: JunctionId, ext: Externals)
    returns (j1: SlowJunction, j2: SlowJunction)
    requires addr1 != addr2
    requires forall k: u32, id: JunctionId :: ext.isHello(ext.newHello(k, id)) && GetPackageId(ext.newHello(k, id)) == k
    ensures fresh(j1) && fresh(j2) && fresh(j1.routeTable) && fresh(j2.routeTable)
    ensures j1.routeTable != j2.routeTable
    ensures j1.addr == addr1 && j1.junctionId == id1 && j1.ext == ext
    ensures j2.addr == addr2 && j2.junctionId == id2 && j2.ext == ext
    ensures j1.knownJunctions == {addr2} && j2.knownJunctions == {addr1}
    ensures j1.sent == [Transmission(ext.newHello(0, id1), addr2)]
    ensures j2.sent == [Transmission(ext.newHello(1, id2), addr1)]
    ensures j1.routeTable.junctions == map[] && j2.routeTable.junctions == map[]
    ensures j1.sendQueue == [] && j2.sendQueue == [] && j1.receivedQueue == [] && j2.receivedQueue == []
    ensures j1.pongCounter == 0 && j2.pongCounter == 0
    ensures j1.sentPackageCount == 0 && j2.sentPackageCount == 0
  {
    j1 := new SlowJunction(addr1, id1, ext);
    j2 := new SlowJunction(addr2, id2, ext);
    j1.Join(addr2);
    j2.OnPackageReceived(j1.sent[0].package, addr1, true);
    j1.OnPackageReceived(j2.sent[0].package, addr2, true);
  }

  /**
   * The ping test: after the handshake junction 1 pings junction 2. With no
   * route yet the ping goes to every known address, that is to junction 2;
   * junction 2 answers by the route the ping came in on, and junction 1
   * counts one pong.
   */
  method JoinPingPong(addr1: SocketAddr, addr2: SocketAddr, id1: JunctionId, id2: JunctionId, ext: Externals)
    returns (pongs: u32, ping: Transmission, pong: Transmission)
    requires addr1 != addr2 && id1 != id2
    requires forall k: u32, id: JunctionId :: ext.isHello(ext.newHello(k, id)) && GetPackageId(ext.newHello(k, id)) == k
    requires !ext.isHello(SetPackageId(NewPing(id2, id1), 1))
    requires !ext.isHello(SetPackageId(NewPong(id1, id2), 1))
    ensures ping == Transmission(SetPackageId(NewPing(id2, id1), 1), addr2)
    ensures pong == Transmission(SetPackageId(NewPong(id1, id2), 1), addr1)
    ensures pongs == 1
  {
    var j1, j2 := JoinHandshake(addr1, addr2, id1, id2, ext);
    j1.Ping(id2);
    ping := PumpOne(j1, NewPing(id2, id1), addr2);
    j2.OnPackageReceived(ping.package, addr1, true);
    assert j2.routeTable.junctions[id1].routes.Keys == {addr1};
    pong := PumpOne(j2, NewPong(id1, id2), addr1);
    j1.OnPackageReceived(pong.package, addr2, true);
    pongs := j1.pongCounter;
  }
}
