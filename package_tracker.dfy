/**
 * `SlowPackageTracker`: one packet tracker per sending junction, so that
 * duplicate detection runs separately for every sender. The trackers are
 * held by value in the map; `Tracker.Step` is what `PacketTracker::update`
 * does to one of them.
 */
module PackageTracker {
  import opened Common
  import opened JunctionIds
  import opened Tracker
  import opened Package

  /**
   * What `update` does to the map: the sender's tracker, created fresh if
   * absent, takes one step on the package id widened to 64 bits.
   */
  function TrackersUpdate(trackers: map<JunctionId, TrackerState>, sender: JunctionId, packageId: u32)
    : (r: (map<JunctionId, TrackerState>, UpdateResult))
    ensures r.0.Keys == trackers.Keys + {sender}
    ensures forall j :: j in trackers && j != sender ==> r.0[j] == trackers[j]
    ensures var before := if sender in trackers then trackers[sender] else Fresh;
      (r.0[sender], r.1) == Step(before, packageId)
  {
    var before := if sender in trackers then trackers[sender] else Fresh;
    var step := Step(before, packageId);
    (trackers[sender := step.0], step.1)
  }

  class SlowPackageTracker {
    var packetTrackers: map<JunctionId, TrackerState>

    /** `SlowPackageTracker::new`: no sender is tracked yet. */
    constructor ()
      ensures packetTrackers == map[]
    {
      packetTrackers := map[];
    }

    /**
     * `SlowPackageTracker::update`: insert a fresh tracker for an unseen
     * sender, then classify the package id on the sender's tracker.
     */
    method Update(package: SlowPackage) returns (r: UpdateResult)
      modifies this
      ensures (packetTrackers, r) ==
        TrackersUpdate(old(packetTrackers), package.header.senderId, package.header.packageId)
    {
      var sender := package.header.senderId;
      ghost var before := if sender in packetTrackers then packetTrackers[sender] else Fresh;
      if sender !in packetTrackers {
        packetTrackers := packetTrackers[sender := Fresh];
      }
      assert packetTrackers[sender] == before;
      var step := Step(packetTrackers[sender], package.header.packageId);
      packetTrackers := packetTrackers[sender := step.0];
      assert packetTrackers == old(packetTrackers)[sender := step.0];
      r := step.1;
    }
  }

  /** Another sender's later verdicts do not depend on this update: deduplication is per sender. */
  lemma OtherSendersIndependent(trackers: map<JunctionId, TrackerState>, sender: JunctionId,
                                packageId: u32, other: JunctionId, otherId: u32)
    requires other != sender
    ensures TrackersUpdate(TrackersUpdate(trackers, sender, packageId).0, other, otherId).1
         == TrackersUpdate(trackers, other, otherId).1
  {
  }

  /**
   * The same package id from two different, not yet tracked senders is
   * accepted from both (any id but 0, which a fresh tracker reports as a
   * duplicate).
   */
  lemma SameIdFromTwoSenders(trackers: map<JunctionId, TrackerState>, a: JunctionId, b: JunctionId, packageId: u32)
    requires a != b && a !in trackers && b !in trackers
    requires packageId > 0
    ensures TrackersUpdate(trackers, a, packageId).1 == Success
    ensures TrackersUpdate(TrackersUpdate(trackers, a, packageId).0, b, packageId).1 == Success
  {
    NewerSlides(Fresh, packageId);
  }

  /** The same id twice from one sender: the second is a duplicate. */
  lemma RepeatFromSameSender(trackers: map<JunctionId, TrackerState>, sender: JunctionId, packageId: u32)
    requires TrackersUpdate(trackers, sender, packageId).1 == Success
    ensures TrackersUpdate(TrackersUpdate(trackers, sender, packageId).0, sender, packageId).1 == Duplicate
  {
    var before := if sender in trackers then trackers[sender] else Fresh;
    ResubmitIsDuplicate(before, packageId);
  }
}
