/**
 * `SlowTcpRouter`: per sending junction, one packet tracker shared by all
 * links and, per link, how many of the packages that arrived on it were
 * accepted (valid) or refused (invalid). The best link for a junction is
 * one with the most valid packages.
 *
 * `SlowLinkId` is imported by the router but not defined in the modelled
 * code, so the link id is a `u32` here by choice; only its equality is
 * used. The counters are `u64` that are only ever incremented by one;
 * they are unbounded here.
 */
module TcpRouter {
  import opened Common
  import opened JunctionIds
  import opened Tracker
  import opened Package

  type LinkId = u32

  /** `SlowTcpLinkStats`. */
  datatype LinkStats = LinkStats(validPacketCount: nat, invalidPacketCount: nat)

  /** `SlowTcpLinkStats::new`. */
  const NewLinkStats := LinkStats(0, 0)

  /** `SlowTcpRouteStats`: per-link counters and the sender's tracker. */
  datatype RouteStats = RouteStats(linkStats: map<LinkId, LinkStats>, packetTracker: TrackerState)

  /** `SlowTcpRouteStats::new`. */
  const NewRouteStats := RouteStats(map[], Fresh)

  /**
   * `SlowTcpRouteStats::update`: classify the id on the shared tracker,
   * then create the link's counters if needed and bump valid on a success,
   * invalid otherwise.
   */
  function RouteStatsUpdate(stats: RouteStats, packageId: u32, linkId: LinkId): (r: (RouteStats, UpdateResult))
    ensures (r.0.packetTracker, r.1) == Step(stats.packetTracker, packageId)
    ensures r.0.linkStats.Keys == stats.linkStats.Keys + {linkId}
    ensures forall l :: l in stats.linkStats && l != linkId ==> r.0.linkStats[l] == stats.linkStats[l]
    ensures var before := if linkId in stats.linkStats then stats.linkStats[linkId] else NewLinkStats;
      r.0.linkStats[linkId] ==
        if r.1 == Success then before.(validPacketCount := before.validPacketCount + 1)
        else before.(invalidPacketCount := before.invalidPacketCount + 1)
  {
    var step := Step(stats.packetTracker, packageId);
    var before := if linkId in stats.linkStats then stats.linkStats[linkId] else NewLinkStats;
    var after :=
      match step.1
      case Success => before.(validPacketCount := before.validPacketCount + 1)
      case Duplicate | Old => before.(invalidPacketCount := before.invalidPacketCount + 1);
    (RouteStats(stats.linkStats[linkId := after], step.0), step.1)
  }

  /** `link` has the most valid packages among the links with counters. */
  predicate IsBestLink(linkStats: map<LinkId, LinkStats>, link: LinkId)
  {
    link in linkStats
    && forall l :: l in linkStats ==> linkStats[l].validPacketCount <= linkStats[link].validPacketCount
  }

  /** Every non-empty set of link counters has a link with the most valid packages. */
  lemma {:induction false} BestLinkExists(linkStats: map<LinkId, LinkStats>)
    requires linkStats != map[]
    ensures exists l :: IsBestLink(linkStats, l)
    decreases |linkStats.Keys|
  {
    var k :| k in linkStats;
    var rest := linkStats - {k};
    assert forall b :: b in linkStats ==> b == k || b in rest;
    if rest == map[] {
      assert IsBestLink(linkStats, k);
    } else {
      assert |rest.Keys| < |linkStats.Keys| by {
        assert rest.Keys == linkStats.Keys - {k};
      }
      BestLinkExists(rest);
      var m :| IsBestLink(rest, m);
      if linkStats[k].validPacketCount > linkStats[m].validPacketCount {
        assert IsBestLink(linkStats, k);
      } else {
        assert IsBestLink(linkStats, m);
      }
    }
  }

  /**
   * `SlowTcpRouteStats::get_best_link`: some link with the most valid
   * packages, or `None` without counters; ties are broken by hash-map
   * order, which is left open.
   */
  method BestLink(stats: RouteStats) returns (r: Option<LinkId>)
    ensures r.None? <==> stats.linkStats == map[]
    ensures r.Some? ==> IsBestLink(stats.linkStats, r.value)
  {
    if stats.linkStats == map[] {
      return None;
    }
    BestLinkExists(stats.linkStats);
    var link :| IsBestLink(stats.linkStats, link);
    return Some(link);
  }

  /** `SlowTcpRouter`: route statistics per sending junction. */
  class SlowTcpRouter {
    var routeStats: map<JunctionId, RouteStats>

    /** `SlowTcpRouter::new`. */
    constructor ()
      ensures routeStats == map[]
    {
      routeStats := map[];
    }

    /**
     * `SlowTcpRouter::update`: create the sender's statistics if needed and
     * update them; no other sender's statistics change.
     */
    method Update(package: SlowPackage, linkId: LinkId) returns (r: UpdateResult)
      modifies this
      ensures var sender := package.header.senderId;
        var before := if sender in old(routeStats) then old(routeStats)[sender] else NewRouteStats;
        var step := RouteStatsUpdate(before, package.header.packageId, linkId);
        routeStats == old(routeStats)[sender := step.0] && r == step.1
    {
      var sender := package.header.senderId;
      if sender !in routeStats {
        routeStats := routeStats[sender := NewRouteStats];
      }
      var step := RouteStatsUpdate(routeStats[sender], package.header.packageId, linkId);
      routeStats := routeStats[sender := step.0];
      r := step.1;
    }

    /** `SlowTcpRouter::get_best_link`: `None` for a junction never updated. */
    method GetBestLink(junctionId: JunctionId) returns (r: Option<LinkId>)
      ensures junctionId !in routeStats ==> r.None?
      ensures junctionId in routeStats ==>
        (r.None? <==> routeStats[junctionId].linkStats == map[])
        && (r.Some? ==> IsBestLink(routeStats[junctionId].linkStats, r.value))
    {
      if junctionId !in routeStats {
        return None;
      }
      r := BestLink(routeStats[junctionId]);
    }
  }

  // ---------------------------------------------------------------------
  // Counting
  // ---------------------------------------------------------------------

  /** A package id arriving on a link. */
  datatype Arrival = Arrival(packageId: u32, linkId: LinkId)

  /** The statistics after a run of arrivals, oldest first. */
  function Replay(stats: RouteStats, arrivals: seq<Arrival>): RouteStats
    decreases |arrivals|
  {
    if arrivals == [] then stats
    else
      var last := arrivals[|arrivals| - 1];
      RouteStatsUpdate(Replay(stats, arrivals[..|arrivals| - 1]), last.packageId, last.linkId).0
  }

  /** How many arrivals came over `link`. */
  function ArrivalsOn(arrivals: seq<Arrival>, link: LinkId): nat
  {
    if arrivals == [] then 0
    else ArrivalsOn(arrivals[..|arrivals| - 1], link) + (if arrivals[|arrivals| - 1].linkId == link then 1 else 0)
  }

  /** All packages counted on `link`, valid or not. */
  function Counted(stats: RouteStats, link: LinkId): nat
  {
    if link in stats.linkStats
    then stats.linkStats[link].validPacketCount + stats.linkStats[link].invalidPacketCount
    else 0
  }

  /** Every update counts exactly one package, on the link it arrived on. */
  lemma UpdateCountsOne(stats: RouteStats, packageId: u32, linkId: LinkId, link: LinkId)
    ensures Counted(RouteStatsUpdate(stats, packageId, linkId).0, link)
         == Counted(stats, link) + (if link == linkId then 1 else 0)
  {
  }

  /** From fresh statistics, valid plus invalid on a link is the number of arrivals on it. */
  lemma {:induction false} CountedIsArrivals(arrivals: seq<Arrival>, link: LinkId)
    ensures Counted(Replay(NewRouteStats, arrivals), link) == ArrivalsOn(arrivals, link)
    decreases |arrivals|
  {
    if arrivals != [] {
      var init := arrivals[..|arrivals| - 1];
      var last := arrivals[|arrivals| - 1];
      CountedIsArrivals(init, link);
      UpdateCountsOne(Replay(NewRouteStats, init), last.packageId, last.linkId, link);
    }
  }

  /**
   * The tracker is shared by a sender's links: an id accepted on one link
   * and then repeated on another is refused and counted invalid there.
   */
  lemma RepeatOnOtherLinkInvalid(stats: RouteStats, packageId: u32, first: LinkId, second: LinkId)
    requires RouteStatsUpdate(stats, packageId, first).1 == Success
    ensures var mid := RouteStatsUpdate(stats, packageId, first).0;
      var before := if second in mid.linkStats then mid.linkStats[second] else NewLinkStats;
      && RouteStatsUpdate(mid, packageId, second).1 == Duplicate
      && RouteStatsUpdate(mid, packageId, second).0.linkStats[second]
         == before.(invalidPacketCount := before.invalidPacketCount + 1)
  {
    ResubmitIsDuplicate(stats.packetTracker, packageId);
  }
}
