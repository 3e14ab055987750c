/**
 * `SlowTcpJunction`: a junction whose neighbours are TCP links. It
 * broadcasts every package it sends on all its links, keeps a map from
 * junction ids to addresses, and queues the packages addressed to it that
 * its package tracker accepts.
 *
 * Each handler is one atomic step: the locks and the listening and
 * processing tasks are left out. A link is known by its id; the outcome of
 * each link's `send` or `close` is an input, and every send attempt is
 * appended to `transmissions`. The package codec (`SlowPackage::pack` and
 * `unpack`) is not part of this model and is passed in.
 */
module TcpJunction {
  import opened Common
  import opened JunctionIds
  import opened Tracker
  import opened Package
  import opened PackageTracker

  /** An `Arc<SlowTcpLink>`, known by its id. */
  datatype TcpLinkHandle = TcpLinkHandle(id: u64)

  /** The `io::Error`s a junction returns: its own two and whatever a link reported. */
  datatype IoError =
    | NotConnected          // "No active links available for sending data"
    | SendFailed            // Other: "Failed to send data on any link"
    | LinkError(code: int)  // an error from one link, by an opaque code

  /** The missing `SlowPackage::pack(package_id)` and `SlowPackage::unpack`. */
  type PackageSerializer = (SlowPackage, u32) -> Bytes
  type PackageDeserializer = Bytes -> Option<SlowPackage>

  // ---------------------------------------------------------------------
  // Aggregating per-link outcomes
  // ---------------------------------------------------------------------

  /** The byte count of the first link that reported sending more than zero bytes. */
  function FirstNonzero(outcomes: seq<Result<nat, IoError>>): (r: Option<nat>)
    ensures r.Some? ==> r.value > 0
  {
    if outcomes == [] then None
    else
      var earlier := FirstNonzero(outcomes[..|outcomes| - 1]);
      var last := outcomes[|outcomes| - 1];
      if earlier.Some? then earlier
      else if last.Ok? && last.value > 0 then Some(last.value)
      else None
  }

  /** The error of the last link that failed. */
  function LastError<T>(outcomes: seq<Result<T, IoError>>): Option<IoError>
  {
    if outcomes == [] then None
    else
      var last := outcomes[|outcomes| - 1];
      if last.Err? then Some(last.error) else LastError(outcomes[..|outcomes| - 1])
  }

  /** `FirstNonzero` finds the earliest positive success, and finds none only when there is none. */
  lemma {:induction false} FirstNonzeroIsFirst(outcomes: seq<Result<nat, IoError>>)
    ensures FirstNonzero(outcomes).None? <==>
      forall i :: 0 <= i < |outcomes| ==> !(outcomes[i].Ok? && outcomes[i].value > 0)
    ensures FirstNonzero(outcomes).Some? ==>
      exists i :: 0 <= i < |outcomes| && outcomes[i] == Ok(FirstNonzero(outcomes).value)
        && FirstNonzero(outcomes).value > 0
        && forall j :: 0 <= j < i ==> !(outcomes[j].Ok? && outcomes[j].value > 0)
    decreases |outcomes|
  {
    if outcomes != [] {
      var init := outcomes[..|outcomes| - 1];
      FirstNonzeroIsFirst(init);
      assert forall i :: 0 <= i < |init| ==> init[i] == outcomes[i];
    }
  }

  /** `LastError` is the error of the last failure, after which every link succeeded. */
  lemma {:induction false} LastErrorIsLast<T>(outcomes: seq<Result<T, IoError>>)
    ensures LastError(outcomes).None? <==> forall i :: 0 <= i < |outcomes| ==> outcomes[i].Ok?
    ensures LastError(outcomes).Some? ==>
      exists i :: 0 <= i < |outcomes| && outcomes[i] == Err(LastError(outcomes).value)
        && forall j :: i < j < |outcomes| ==> outcomes[j].Ok?
    decreases |outcomes|
  {
    if outcomes != [] {
      var init := outcomes[..|outcomes| - 1];
      LastErrorIsLast(init);
      assert forall i :: 0 <= i < |init| ==> init[i] == outcomes[i];
      if outcomes[|outcomes| - 1].Err? {
        assert outcomes[|outcomes| - 1] == Err(LastError(outcomes).value);
      }
    }
  }

  /**
   * What `send` returns after trying every link: no links is `NotConnected`;
   * else the first positive byte count; else the last link error, or a
   * generic error when no link failed.
   */
  function SendOutcome(outcomes: seq<Result<nat, IoError>>): (r: Result<nat, IoError>)
    ensures outcomes == [] ==> r == Err(NotConnected)
    ensures r.Ok? ==> r.value > 0 && Ok(r.value) in outcomes
  {
    if outcomes == [] then Err(NotConnected)
    else match FirstNonzero(outcomes)
      case Some(n) =>
        FirstNonzeroIsFirst(outcomes);
        Ok(n)
      case None =>
        match LastError(outcomes)
        case Some(e) => Err(e)
        case None => Err(SendFailed)
  }

  /** Links that all succeed with zero bytes make `send` fail with the generic error. */
  lemma AllZeroIsFailure(outcomes: seq<Result<nat, IoError>>)
    requires outcomes != []
    requires forall i :: 0 <= i < |outcomes| ==> outcomes[i] == Ok(0)
    ensures SendOutcome(outcomes) == Err(SendFailed)
  {
    FirstNonzeroIsFirst(outcomes);
    LastErrorIsLast(outcomes);
  }

  /** One positive success is enough, whatever the other links report. */
  lemma OneSuccessSuffices(outcomes: seq<Result<nat, IoError>>, k: nat, n: nat)
    requires k < |outcomes| && outcomes[k] == Ok(n) && n > 0
    ensures SendOutcome(outcomes).Ok?
  {
    FirstNonzeroIsFirst(outcomes);
  }

  /** Every attempt of a broadcast: each link, in order, with the same data. */
  function Attempts(links: seq<TcpLinkHandle>, data: Bytes): (r: seq<(u64, Bytes)>)
    ensures |r| == |links|
    ensures forall i :: 0 <= i < |links| ==> r[i] == (links[i].id, data)
  {
    if links == [] then []
    else Attempts(links[..|links| - 1], data) + [(links[|links| - 1].id, data)]
  }

  /** `links.retain(|link| link.id() != link_id)`. */
  function Retain(links: seq<TcpLinkHandle>, linkId: u64): (r: seq<TcpLinkHandle>)
    ensures |r| <= |links|
    ensures forall l :: l in r <==> l in links && l.id != linkId
  {
    if links == [] then []
    else
      var rest := Retain(links[1..], linkId);
      if links[0].id != linkId then [links[0]] + rest else rest
  }

  /** Retaining distributes over concatenation, so the kept links stay in their order. */
  lemma {:induction false} RetainConcat(a: seq<TcpLinkHandle>, b: seq<TcpLinkHandle>, linkId: u64)
    ensures Retain(a + b, linkId) == Retain(a, linkId) + Retain(b, linkId)
    decreases |a|
  {
    if a == [] {
      assert a + b == b;
    } else {
      var ab := a + b;
      assert ab[0] == a[0] && ab[1..] == a[1..] + b;
      RetainConcat(a[1..], b, linkId);
      if a[0].id != linkId {
        calc {
          Retain(ab, linkId);
          [a[0]] + Retain(a[1..] + b, linkId);
          [a[0]] + (Retain(a[1..], linkId) + Retain(b, linkId));
          ([a[0]] + Retain(a[1..], linkId)) + Retain(b, linkId);
        }
      }
    }
  }

  /** Without a link of that id, nothing is removed. */
  lemma {:induction false} RetainNoMatch(a: seq<TcpLinkHandle>, linkId: u64)
    requires forall i :: 0 <= i < |a| ==> a[i].id != linkId
    ensures Retain(a, linkId) == a
    decreases |a|
  {
    if a != [] {
      RetainNoMatch(a[1..], linkId);
      assert [a[0]] + a[1..] == a;
    }
  }

  class SlowTcpJunction {
    const localAddr: SocketAddr
    const junctionId: JunctionId
    var links: seq<TcpLinkHandle>
    var junctionMap: map<JunctionId, SocketAddr>
    var receivedPackageCount: nat
    var sentPackageCount: nat
    /** The queue of accepted packages addressed to this junction, oldest first. */
    var receivedPackages: seq<SlowPackage>
    const packageTracker: SlowPackageTracker
    /** Every send attempt on a link: the link id and the data. */
    var transmissions: seq<(u64, Bytes)>

    /** `SlowTcpJunction::new` without the listening task. */
    constructor (addr: SocketAddr, junctionId: JunctionId)
      ensures localAddr == addr && this.junctionId == junctionId
      ensures links == [] && junctionMap == map[] && receivedPackages == [] && transmissions == []
      ensures receivedPackageCount == 0 && sentPackageCount == 0
      ensures fresh(packageTracker) && packageTracker.packetTrackers == map[]
    {
      localAddr := addr;
      this.junctionId := junctionId;
      links := [];
      junctionMap := map[];
      receivedPackageCount := 0;
      sentPackageCount := 0;
      receivedPackages := [];
      packageTracker := new SlowPackageTracker();
      transmissions := [];
    }

    /** `SlowTcpJunction::link_count`. */
    function LinkCount(): nat
      reads this
    {
      |links|
    }

    /** `SlowTcpJunction::waiting_package_count`. */
    function WaitingPackageCount(): nat
      reads this
    {
      |receivedPackages|
    }

    /** `SlowTcpJunction::add_link`: appended at the end. */
    method AddLink(link: TcpLinkHandle)
      modifies this
      ensures links == old(links) + [link]
      ensures junctionMap == old(junctionMap) && receivedPackages == old(receivedPackages)
      ensures transmissions == old(transmissions)
      ensures receivedPackageCount == old(receivedPackageCount) && sentPackageCount == old(sentPackageCount)
    {
      links := links + [link];
    }

    /** `SlowTcpJunction::remove_link`: every link with that id goes, the others keep their order. */
    method RemoveLink(linkId: u64)
      modifies this
      ensures links == Retain(old(links), linkId)
      ensures junctionMap == old(junctionMap) && receivedPackages == old(receivedPackages)
      ensures transmissions == old(transmissions)
      ensures receivedPackageCount == old(receivedPackageCount) && sentPackageCount == old(sentPackageCount)
    {
      links := Retain(links, linkId);
    }

    /** `SlowTcpJunction::register_junction`: insert or overwrite. */
    method RegisterJunction(junctionId: JunctionId, addr: SocketAddr)
      modifies this
      ensures junctionMap == old(junctionMap)[junctionId := addr]
      ensures links == old(links) && receivedPackages == old(receivedPackages)
      ensures transmissions == old(transmissions)
      ensures receivedPackageCount == old(receivedPackageCount) && sentPackageCount == old(sentPackageCount)
    {
      junctionMap := junctionMap[junctionId := addr];
    }

    /** `SlowTcpJunction::get_junction_addr`. */
    method GetJunctionAddr(junctionId: JunctionId) returns (r: Option<SocketAddr>)
      ensures r.Some? <==> junctionId in junctionMap
      ensures r.Some? ==> r.value == junctionMap[junctionId]
    {
      if junctionId in junctionMap {
        r := Some(junctionMap[junctionId]);
      } else {
        r := None;
      }
    }

    /** `SlowTcpJunction::receive_package`: the oldest queued package, if any. */
    method ReceivePackage() returns (r: Option<SlowPackage>)
      modifies this
      ensures old(receivedPackages) == [] ==> r.None? && receivedPackages == []
      ensures old(receivedPackages) != [] ==>
        r == Some(old(receivedPackages)[0]) && receivedPackages == old(receivedPackages)[1..]
      ensures links == old(links) && junctionMap == old(junctionMap)
      ensures transmissions == old(transmissions)
      ensures receivedPackageCount == old(receivedPackageCount) && sentPackageCount == old(sentPackageCount)
    {
      if receivedPackages == [] {
        r := None;
      } else {
        r := Some(receivedPackages[0]);
        receivedPackages := receivedPackages[1..];
      }
    }

    /**
     * `SlowTcpJunction::send`: try every link in order, whatever earlier
     * links reported; `outcomes[i]` is what link `i` reports.
     */
    method Send(data: Bytes, outcomes: seq<Result<nat, IoError>>) returns (r: Result<nat, IoError>)
      requires |outcomes| == |links|
      modifies this
      ensures r == SendOutcome(outcomes)
      ensures transmissions == old(transmissions) + Attempts(old(links), data)
      ensures links == old(links) && junctionMap == old(junctionMap) && receivedPackages == old(receivedPackages)
      ensures receivedPackageCount == old(receivedPackageCount) && sentPackageCount == old(sentPackageCount)
    {
      if links == [] {
        return Err(NotConnected);
      }
      var lastError: Option<IoError> := None;
      var bytesSent: nat := 0;
      var attempts: seq<(u64, Bytes)> := [];
      var i := 0;
      while i < |links|
        invariant 0 <= i <= |links|
        invariant bytesSent == match FirstNonzero(outcomes[..i]) case Some(n) => n case None => 0
        invariant lastError == LastError(outcomes[..i])
        invariant attempts == Attempts(links[..i], data)
      {
        assert outcomes[..i + 1][..i] == outcomes[..i];
        assert links[..i + 1][..i] == links[..i];
        match outcomes[i] {
          case Ok(sent) =>
            if bytesSent == 0 {
              bytesSent := sent;
            }
          case Err(e) =>
            lastError := Some(e);
        }
        attempts := attempts + [(links[i].id, data)];
        i := i + 1;
      }
      assert outcomes[..i] == outcomes;
      assert links[..i] == links;
      transmissions := transmissions + attempts;
      if bytesSent > 0 {
        r := Ok(bytesSent);
      } else if lastError.Some? {
        r := Err(lastError.value);
      } else {
        r := Err(SendFailed);
      }
    }

    /**
     * `SlowTcpJunction::send_package`: serialize with id `sent_package_count
     * + 1` (as a `u32`), broadcast, and count the package only if the
     * broadcast succeeded.
     */
    method SendPackage(package: SlowPackage, serialize: PackageSerializer, outcomes: seq<Result<nat, IoError>>)
      returns (r: Result<nat, IoError>)
      requires |outcomes| == |links|
      modifies this
      ensures r == SendOutcome(outcomes)
      ensures var packageId := WrappingIncU32(TruncU32(old(sentPackageCount)));
        transmissions == old(transmissions) + Attempts(old(links), serialize(package, packageId))
      ensures sentPackageCount == old(sentPackageCount) + (if r.Ok? then 1 else 0)
      ensures links == old(links) && junctionMap == old(junctionMap) && receivedPackages == old(receivedPackages)
      ensures receivedPackageCount == old(receivedPackageCount)
    {
      var packageId := WrappingIncU32(TruncU32(sentPackageCount));
      var data := serialize(package, packageId);
      r := Send(data, outcomes);
      if r.Ok? {
        sentPackageCount := sentPackageCount + 1;
      }
    }

    /**
     * `SlowTcpJunction::close`: close every link of a copy of the list
     * (`outcomes[i]` is link `i`'s answer) and clear the copy: the
     * junction's own list is unchanged. The last failure, if any, is the
     * result.
     */
    method Close(outcomes: seq<Result<(), IoError>>) returns (r: Result<(), IoError>)
      requires |outcomes| == |links|
      ensures r.Err? <==> exists i :: 0 <= i < |outcomes| && outcomes[i].Err?
      ensures r.Err? ==> Some(r.error) == LastError(outcomes)
    {
      var copy := links;
      var lastError: Option<IoError> := None;
      var i := 0;
      while i < |copy|
        invariant 0 <= i <= |copy|
        invariant lastError == LastError(outcomes[..i])
      {
        assert outcomes[..i + 1][..i] == outcomes[..i];
        if outcomes[i].Err? {
          lastError := Some(outcomes[i].error);
        }
        i := i + 1;
      }
      assert outcomes[..i] == outcomes;
      copy := [];
      LastErrorIsLast(outcomes);
      if lastError.Some? {
        r := Err(lastError.value);
      } else {
        r := Ok(());
      }
    }

    /**
     * `SlowTcpJunction::process`: decode the data; a package the tracker
     * accepts is counted and, when addressed to this junction, queued. A
     * package for another junction is not forwarded, and nothing is sent.
     */
    method Process(data: Bytes, unpack: PackageDeserializer)
      modifies this, packageTracker
      ensures unpack(data).None? ==>
        && packageTracker.packetTrackers == old(packageTracker.packetTrackers)
        && receivedPackageCount == old(receivedPackageCount)
        && receivedPackages == old(receivedPackages)
      ensures unpack(data).Some? ==>
        var package := unpack(data).value;
        var step := TrackersUpdate(old(packageTracker.packetTrackers), package.header.senderId, package.header.packageId);
        && packageTracker.packetTrackers == step.0
        && receivedPackageCount == old(receivedPackageCount) + (if step.1 == Success then 1 else 0)
        && receivedPackages == old(receivedPackages)
             + (if step.1 == Success && package.header.recipientId == junctionId then [package] else [])
      ensures transmissions == old(transmissions) && links == old(links)
      ensures junctionMap == old(junctionMap) && sentPackageCount == old(sentPackageCount)
    {
      var decoded := unpack(data);
      if decoded.None? {
        return;
      }
      var package := decoded.value;
      var verdict := packageTracker.Update(package);
      if verdict != Success {
        return;
      }
      receivedPackageCount := receivedPackageCount + 1;
      if package.header.recipientId == junctionId {
        receivedPackages := receivedPackages + [package];
      }
    }
  }

  /**
   * The same bytes arriving twice at a fresh junction: a package for it with
   * a non-zero id is queued once and counted once.
   */
  method ProcessTwice(addr: SocketAddr, id: JunctionId, data: Bytes, unpack: PackageDeserializer)
    returns (received: nat, waiting: nat)
    requires unpack(data).Some? && unpack(data).value.header.recipientId == id
    requires unpack(data).value.header.packageId > 0
    ensures received == 1 && waiting == 1
  {
    var junction := new SlowTcpJunction(addr, id);
    var package := unpack(data).value;
    NewerSlides(Fresh, package.header.packageId);
    junction.Process(data, unpack);
    RepeatFromSameSender(map[], package.header.senderId, package.header.packageId);
    junction.Process(data, unpack);
    received := junction.receivedPackageCount;
    waiting := junction.WaitingPackageCount();
  }

  /** Packages are received in the order they were queued. */
  method ReceiveInOrder(addr: SocketAddr, id: JunctionId, first: Bytes, second: Bytes, unpack: PackageDeserializer)
    returns (a: Option<SlowPackage>, b: Option<SlowPackage>, c: Option<SlowPackage>)
    requires unpack(first).Some? && unpack(first).value.header.recipientId == id
    requires unpack(second).Some? && unpack(second).value.header.recipientId == id
    requires unpack(first).value.header.senderId != unpack(second).value.header.senderId
    requires unpack(first).value.header.packageId > 0 && unpack(second).value.header.packageId > 0
    ensures a == unpack(first) && b == unpack(second) && c.None?
  {
    var junction := new SlowTcpJunction(addr, id);
    var p := unpack(first).value;
    var q := unpack(second).value;
    SameIdFromTwoSenders(map[], p.header.senderId, q.header.senderId, p.header.packageId);
    NewerSlides(Fresh, p.header.packageId);
    NewerSlides(Fresh, q.header.packageId);
    junction.Process(first, unpack);
    junction.Process(second, unpack);
    a := junction.ReceivePackage();
    b := junction.ReceivePackage();
    c := junction.ReceivePackage();
  }
}
