/**
 * Routes to other junctions: for every junction id a `Route` holding the
 * hop count last heard on each socket address, the greatest package id
 * seen and a 32-bit sliding window of package ids (`RoutePackageInfo`).
 *
 * `RoutePackageInfo` runs the packet tracker's algorithm over a window of
 * 32 bits with `i32` differences. Routes live by value inside the table's
 * map, so their updates are functions; the table itself is an object.
 */
module Routes {
  import opened Common
  import opened JunctionIds
  import Tracker

  /** The 32 bits of the `u32` window, bit 0 first. */
  type Window32 = w: seq<bool> | |w| == 32 witness Tracker.Clear(32)

  datatype RoutePackageInfo = RoutePackageInfo(greatestPackageId: u32, packageBitfield: Window32)

  /** `RoutePackageInfo::new`. */
  const NewPackageInfo := RoutePackageInfo(0, Tracker.Clear(32))

  /** `a as i32 - b as i32` with `i32` wrap-around. */
  function WrappingDiff32(a: u32, b: u32): (r: int)
    ensures -0x8000_0000 <= r < 0x8000_0000
    ensures (r - (a - b)) % 0x1_0000_0000 == 0
  {
    var d := a - b;
    if d >= 0x8000_0000 then d - 0x1_0000_0000
    else if d < -0x8000_0000 then d + 0x1_0000_0000
    else d
  }

  /** `RoutePackageInfo::update`: the new value and whether the id was accepted. */
  function PackageInfoUpdate(info: RoutePackageInfo, packageId: u32): (RoutePackageInfo, bool)
  {
    var shift := WrappingDiff32(packageId, info.greatestPackageId);
    if shift == 0 || shift < -31 then (info, false)
    else if shift < 0 then
      if info.packageBitfield[-shift] then (info, false)
      else (info.(packageBitfield := info.packageBitfield[-shift := true]), true)
    else if shift > 31 then (RoutePackageInfo(packageId, Tracker.Clear(32)[0 := true]), true)
    else (RoutePackageInfo(packageId, Tracker.ShiftLeft(info.packageBitfield, shift)[0 := true]), true)
  }

  /** The greatest id itself, and any id more than 31 below it, is refused and changes nothing. */
  lemma PackageInfoRefusesOutOfWindow(info: RoutePackageInfo, packageId: u32)
    requires packageId == info.greatestPackageId || WrappingDiff32(packageId, info.greatestPackageId) < -31
    ensures PackageInfoUpdate(info, packageId) == (info, false)
  {
  }

  /** A refused id leaves the window unchanged. */
  lemma PackageInfoRefusalUnchanged(info: RoutePackageInfo, packageId: u32)
    requires !PackageInfoUpdate(info, packageId).1
    ensures PackageInfoUpdate(info, packageId).0 == info
  {
  }

  /**
   * An older id inside the window sets exactly bit `greatest - id`; it is
   * accepted the first time and refused when it comes again.
   */
  lemma PackageInfoOlderInWindow(info: RoutePackageInfo, packageId: u32)
    requires -31 <= WrappingDiff32(packageId, info.greatestPackageId) < 0
    ensures var k := -WrappingDiff32(packageId, info.greatestPackageId);
      && PackageInfoUpdate(info, packageId).0.greatestPackageId == info.greatestPackageId
      && PackageInfoUpdate(info, packageId).0.packageBitfield == info.packageBitfield[k := true]
      && PackageInfoUpdate(info, packageId).1 == !info.packageBitfield[k]
      && !PackageInfoUpdate(PackageInfoUpdate(info, packageId).0, packageId).1
  {
    var k := -WrappingDiff32(packageId, info.greatestPackageId);
    if info.packageBitfield[k] {
      assert info.packageBitfield[k := true] == info.packageBitfield;
    }
  }

  /** A newer id becomes the greatest, the window slides by the difference and bit 0 is set. */
  lemma PackageInfoNewer(info: RoutePackageInfo, packageId: u32)
    requires WrappingDiff32(packageId, info.greatestPackageId) > 0
    ensures PackageInfoUpdate(info, packageId).1
    ensures PackageInfoUpdate(info, packageId).0.greatestPackageId == packageId
    ensures PackageInfoUpdate(info, packageId).0.packageBitfield[0]
    ensures forall k :: 0 < k < 32 ==>
      PackageInfoUpdate(info, packageId).0.packageBitfield[k] ==
        (k >= WrappingDiff32(packageId, info.greatestPackageId)
         && info.packageBitfield[k - WrappingDiff32(packageId, info.greatestPackageId)])
  {
  }

  /** `RouteInfo` without its `time` field. */
  datatype RouteInfo = RouteInfo(hops: u8)

  datatype Route = Route(
    routes: map<SocketAddr, RouteInfo>,
    greatestPackageId: u32,
    packageInfo: RoutePackageInfo)

  /** `Route::new`. */
  const NewRoute := Route(map[], 0, NewPackageInfo)

  /**
   * `Route::update_route`: record the hop count for `addr`, feed the id to
   * the window (its verdict is dropped) and return the previous greatest id
   * if this id is greater, else the unchanged greatest id.
   */
  function UpdatedRoute(route: Route, addr: SocketAddr, hops: u8, packageId: u32): (r: (Route, u32))
    ensures r.0.routes == route.routes[addr := RouteInfo(hops)]
    ensures r.0.packageInfo == PackageInfoUpdate(route.packageInfo, packageId).0
    ensures r.1 == route.greatestPackageId
    ensures r.0.greatestPackageId == if packageId > route.greatestPackageId then packageId else route.greatestPackageId
  {
    var routes := route.routes[addr := RouteInfo(hops)];
    var info := PackageInfoUpdate(route.packageInfo, packageId).0;
    if packageId > route.greatestPackageId then
      var previous := route.greatestPackageId;
      (Route(routes, packageId, info), previous)
    else
      (Route(routes, route.greatestPackageId, info), route.greatestPackageId)
  }

  /** After an update the new hop count is recorded and every other address keeps its own. */
  lemma UpdateRouteRecordsHops(route: Route, addr: SocketAddr, hops: u8, packageId: u32, other: SocketAddr)
    requires other != addr
    ensures addr in UpdatedRoute(route, addr, hops, packageId).0.routes
    ensures UpdatedRoute(route, addr, hops, packageId).0.routes[addr].hops == hops
    ensures other in UpdatedRoute(route, addr, hops, packageId).0.routes <==> other in route.routes
    ensures other in route.routes ==> UpdatedRoute(route, addr, hops, packageId).0.routes[other] == route.routes[other]
  {
  }

  /** The greatest package id of a route never decreases. */
  lemma GreatestNeverDecreases(route: Route, addr: SocketAddr, hops: u8, packageId: u32)
    ensures UpdatedRoute(route, addr, hops, packageId).0.greatestPackageId >= route.greatestPackageId
    ensures UpdatedRoute(route, addr, hops, packageId).0.greatestPackageId >= packageId
  {
  }

  /** `addr` is a route with the fewest hops. */
  predicate IsBest(routes: map<SocketAddr, RouteInfo>, addr: SocketAddr)
  {
    addr in routes && forall b :: b in routes ==> routes[addr].hops <= routes[b].hops
  }

  /** Every non-empty set of routes has a route with the fewest hops. */
  lemma {:induction false} BestExists(routes: map<SocketAddr, RouteInfo>)
    requires routes != map[]
    ensures exists a :: IsBest(routes, a)
    decreases |routes.Keys|
  {
    var k :| k in routes;
    var rest := routes - {k};
    assert forall b :: b in routes ==> b == k || b in rest;
    if rest == map[] {
      assert IsBest(routes, k);
    } else {
      assert |rest.Keys| < |routes.Keys| by {
        assert rest.Keys == routes.Keys - {k};
      }
      BestExists(rest);
      var m :| IsBest(rest, m);
      if routes[k].hops < routes[m].hops {
        assert IsBest(routes, k);
      } else {
        assert IsBest(routes, m);
      }
    }
  }

  /**
   * `Route::get_best_route`: some address with the fewest hops, or `None`
   * when there are no routes. Which of several equally short routes is
   * chosen depends on hash-map order and is left open.
   */
  method BestRoute(route: Route) returns (r: Option<SocketAddr>)
    ensures r.None? <==> route.routes == map[]
    ensures r.Some? ==> IsBest(route.routes, r.value)
  {
    if route.routes == map[] {
      return None;
    }
    BestExists(route.routes);
    var addr :| IsBest(route.routes, addr);
    return Some(addr);
  }

  /** `RouteTable`: a route per junction id. */
  class RouteTable {
    var junctions: map<JunctionId, Route>

    /** `RouteTable::new`. */
    constructor ()
      ensures junctions == map[]
    {
      junctions := map[];
    }

    /**
     * `RouteTable::update_route`: create an empty route for an unknown
     * junction, then update it; other junctions are untouched.
     */
    method UpdateRoute(junctionId: JunctionId, addr: SocketAddr, hops: u8, packageId: u32) returns (r: u32)
      modifies this
      ensures var before := if junctionId in old(junctions) then old(junctions)[junctionId] else NewRoute;
        && junctions == old(junctions)[junctionId := UpdatedRoute(before, addr, hops, packageId).0]
        && r == UpdatedRoute(before, addr, hops, packageId).1
    {
      if junctionId !in junctions {
        junctions := junctions[junctionId := NewRoute];
      }
      var updated := UpdatedRoute(junctions[junctionId], addr, hops, packageId);
      junctions := junctions[junctionId := updated.0];
      r := updated.1;
    }

    /** `RouteTable::get_best_route`: `None` for an unknown junction, else that route's best address. */
    method GetBestRoute(junctionId: JunctionId) returns (r: Option<SocketAddr>)
      ensures junctionId !in junctions ==> r.None?
      ensures junctionId in junctions ==>
        (r.None? <==> junctions[junctionId].routes == map[])
        && (r.Some? ==> IsBest(junctions[junctionId].routes, r.value))
    {
      if junctionId !in junctions {
        return None;
      }
      r := BestRoute(junctions[junctionId]);
    }

    /** `RouteTable::remove`: the removed route if there was one. */
    method Remove(junctionId: JunctionId) returns (r: Option<Route>)
      modifies this
      ensures r.Some? <==> junctionId in old(junctions)
      ensures r.Some? ==> r.value == old(junctions)[junctionId]
      ensures junctions == old(junctions) - {junctionId}
    {
      if junctionId in junctions {
        r := Some(junctions[junctionId]);
      } else {
        r := None;
      }
      junctions := junctions - {junctionId};
    }
  }
}
