/**
 * `PacketTracker`: sliding-window duplicate detection over 64-bit packet
 * ids. The tracker keeps the highest id seen and a 64-bit window in which
 * bit k stands for id `highest - k`.
 *
 * The `u64` bitfield is modelled as its 64 bits, `window[k]` being bit k;
 * `BitsValue` gives back the `u64` the getter returns. The signed
 * difference `packet_id as i64 - highest as i64` is computed with `i64`
 * wrap-around (`WrappingDiff`).
 */
module Tracker {
  import opened Common

  datatype UpdateResult = Success | Duplicate | Old

  /** The 64 bits of the `u64` window, bit 0 first. */
  type Window = w: seq<bool> | |w| == 64 witness Clear(64)

  /** `n` clear bits. */
  function Clear(n: nat): (r: seq<bool>)
    ensures |r| == n && forall k :: 0 <= k < n ==> !r[k]
  {
    if n == 0 then [] else Clear(n - 1) + [false]
  }

  /** The value of a tracker: its two fields. */
  datatype TrackerState = TrackerState(highestPacketId: u64, window: Window)

  const EmptyWindow: Window := Clear(64)

  /** `PacketTracker::new()`: highest id 0, bitfield 0. */
  const Fresh := TrackerState(0, EmptyWindow)

  /**
   * `a as i64 - b as i64` with `i64` wrap-around. Both casts and the
   * subtraction agree with the difference modulo 2^64; the result is its
   * representative in [-2^63, 2^63).
   */
  function WrappingDiff(a: u64, b: u64): (r: int)
    ensures -0x8000_0000_0000_0000 <= r < 0x8000_0000_0000_0000
    ensures (r - (a - b)) % 0x1_0000_0000_0000_0000 == 0
  {
    var d := a - b;
    if d >= 0x8000_0000_0000_0000 then d - 0x1_0000_0000_0000_0000
    else if d < -0x8000_0000_0000_0000 then d + 0x1_0000_0000_0000_0000
    else d
  }

  /**
   * `bitfield <<= n` on a bitfield of `|w|` bits: bit k of the result is
   * bit k - n of the argument, the low n bits are clear and the high n
   * bits fall off.
   */
  function ShiftLeft(w: seq<bool>, n: nat): (r: seq<bool>)
    ensures |r| == |w|
    ensures forall k :: 0 <= k < |w| ==> r[k] == (k >= n && w[k - n])
  {
    seq(|w|, i requires 0 <= i < |w| => i >= n && w[i - n])
  }

  /** The number whose binary digits, least significant first, are `w`. */
  function BitsValue(w: seq<bool>): (r: nat)
    ensures r < Pow2(|w|)
  {
    if w == [] then 0 else (if w[0] then 1 else 0) + 2 * BitsValue(w[1..])
  }

  /** Bit `k` of `BitsValue(w)` is `w[k]`: the window is the bitfield, bit for bit. */
  lemma {:induction false} BitsValueBit(w: seq<bool>, k: nat)
    requires k < |w|
    ensures (BitsValue(w) / Pow2(k)) % 2 == (if w[k] then 1 else 0)
  {
    if k == 0 {
      ParityOfBit(if w[0] then 1 else 0, BitsValue(w[1..]));
    } else {
      BitsValueBit(w[1..], k - 1);
      DivStep(if w[0] then 1 else 0, BitsValue(w[1..]), Pow2(k - 1));
    }
  }

  /** A window's value fits in a `u64`, and its binary digits are the window. */
  lemma WindowValue(w: Window)
    ensures BitsValue(w) < 0x1_0000_0000_0000_0000
    ensures forall k: nat :: k < 64 ==> ((BitsValue(w) / Pow2(k)) % 2 == 1 <==> w[k])
  {
    Pow2Of64();
    forall k: nat | k < 64
      ensures (BitsValue(w) / Pow2(k)) % 2 == 1 <==> w[k]
    {
      BitsValueBit(w, k);
    }
  }

  lemma Pow2Of64()
    ensures Pow2(64) == 0x1_0000_0000_0000_0000
  {
    Pow2Of32();
    Pow2Add(32, 32);
  }

  lemma Pow2Of32()
    ensures Pow2(32) == 0x1_0000_0000
  {
    Pow2Of16();
    Pow2Add(16, 16);
  }

  lemma Pow2Of16()
    ensures Pow2(16) == 0x1_0000
  {
    assert Pow2(8) == 0x100;
    Pow2Add(8, 8);
  }

  lemma ParityOfBit(b: int, v: int)
    requires 0 <= b <= 1
    ensures ((b + 2 * v) / 1) % 2 == b
  {
  }

  /** `(b + 2v) / 2p == v / p` for a bit `b`. */
  lemma DivStep(b: int, v: nat, p: nat)
    requires 0 <= b <= 1 && p > 0
    ensures (b + 2 * v) / (2 * p) == v / p
  {
    var q := v / p;
    var m := v % p;
    assert v == q * p + m;
    assert b + 2 * v == q * (2 * p) + (2 * m + b);
    DivUnique(b + 2 * v, 2 * p, q, 2 * m + b);
  }

  /** Division is determined by any quotient and remainder in range. */
  lemma DivUnique(x: int, d: int, q: int, r: int)
    requires d > 0 && x == q * d + r && 0 <= r < d
    ensures x / d == q
  {
    var q' := x / d;
    var r' := x % d;
    assert (q - q') * d == r' - r;
    if q > q' {
      MulAtLeast(q - q', d);
    } else if q < q' {
      MulAtLeast(q' - q, d);
    }
  }

  lemma MulAtLeast(a: int, d: int)
    requires a >= 1 && d > 0
    ensures a * d >= d
  {
  }

  lemma {:induction false} Pow2Add(a: nat, b: nat)
    ensures Pow2(a + b) == Pow2(a) * Pow2(b)
  {
    if a > 0 {
      Pow2Add(a - 1, b);
    }
  }

  /**
   * `PacketTracker::update` as a function of the tracker's value: the new
   * value and the verdict.
   */
  function Step(s: TrackerState, packetId: u64): (TrackerState, UpdateResult)
  {
    var shift := WrappingDiff(packetId, s.highestPacketId);
    if shift == 0 then (s, Duplicate)
    else if shift < -63 then (s, Old)
    else if shift < 0 then
      if s.window[-shift] then (s, Duplicate)
      else (s.(window := s.window[-shift := true]), Success)
    else if shift > 63 then (TrackerState(packetId, EmptyWindow[0 := true]), Success)
    else (TrackerState(packetId, ShiftLeft(s.window, shift)[0 := true]), Success)
  }

  /** A tracker object, updated in place. */
  class PacketTracker {
    var highestPacketId: u64
    var packetBitfield: Window

    function State(): TrackerState
      reads this
    {
      TrackerState(highestPacketId, packetBitfield)
    }

    /** `PacketTracker::new`. */
    constructor ()
      ensures State() == Fresh
    {
      highestPacketId := 0;
      packetBitfield := EmptyWindow;
    }

    /** `PacketTracker::update`: classify `packetId` and record it. */
    method Update(packetId: u64) returns (r: UpdateResult)
      modifies this
      ensures (State(), r) == Step(old(State()), packetId)
    {
      var shift := WrappingDiff(packetId, highestPacketId);
      if shift == 0 {
        return Duplicate;
      }
      if shift < -63 {
        return Old;
      }
      if shift < 0 {
        if packetBitfield[-shift] {
          return Duplicate;
        }
        packetBitfield := packetBitfield[-shift := true];
        return Success;
      }
      if shift > 63 {
        packetBitfield := EmptyWindow;
        packetBitfield := packetBitfield[0 := true];
      } else {
        packetBitfield := ShiftLeft(packetBitfield, shift);
        packetBitfield := packetBitfield[0 := true];
      }
      highestPacketId := packetId;
      return Success;
    }

    /** `PacketTracker::highest_packet_id`. */
    function HighestPacketId(): (r: u64)
      reads this
      ensures r == State().highestPacketId
    {
      highestPacketId
    }

    /** `PacketTracker::packet_bitfield`: the window as a `u64`. */
    function PacketBitfield(): (r: u64)
      reads this
      ensures forall k: nat :: k < 64 ==> ((r / Pow2(k)) % 2 == 1 <==> State().window[k])
    {
      WindowValue(packetBitfield);
      BitsValue(packetBitfield)
    }
  }

  // ---------------------------------------------------------------------
  // The verdicts
  // ---------------------------------------------------------------------

  /** The current highest id is a duplicate. */
  lemma HighestIsDuplicate(s: TrackerState)
    ensures Step(s, s.highestPacketId) == (s, Duplicate)
  {
  }

  /** A fresh tracker reports id 0 as a duplicate, although it never received it. */
  lemma FreshZeroIsDuplicate()
    ensures Step(Fresh, 0) == (Fresh, Duplicate)
  {
    HighestIsDuplicate(Fresh);
  }

  /**
   * An older id inside the window: the highest id stays; the verdict is a
   * duplicate iff bit `highest - id` was already set; afterwards exactly
   * that bit has been added.
   */
  lemma OlderInWindow(s: TrackerState, packetId: u64)
    requires -63 <= WrappingDiff(packetId, s.highestPacketId) < 0
    ensures WrappingDiff(s.highestPacketId, packetId) == -WrappingDiff(packetId, s.highestPacketId)
    ensures Step(s, packetId).0.highestPacketId == s.highestPacketId
    ensures Step(s, packetId).1 ==
      if s.window[WrappingDiff(s.highestPacketId, packetId)] then Duplicate else Success
    ensures Step(s, packetId).0.window == s.window[WrappingDiff(s.highestPacketId, packetId) := true]
  {
    WrappingDiffAntisymmetric(packetId, s.highestPacketId);
    var k := WrappingDiff(s.highestPacketId, packetId);
    if s.window[k] {
      assert s.window[k := true] == s.window;
    }
  }

  /**
   * A newer id becomes the highest; the window slides up by the
   * difference (so it is emptied when the difference exceeds 63) and bit 0
   * is set.
   */
  lemma NewerSlides(s: TrackerState, packetId: u64)
    requires WrappingDiff(packetId, s.highestPacketId) > 0
    ensures Step(s, packetId).1 == Success
    ensures Step(s, packetId).0.highestPacketId == packetId
    ensures forall k :: 0 <= k < 64 ==>
      Step(s, packetId).0.window[k] ==
        (k == 0 || (k >= WrappingDiff(packetId, s.highestPacketId)
                    && s.window[k - WrappingDiff(packetId, s.highestPacketId)]))
  {
  }

  /** A packet that is not accepted leaves the tracker exactly as it was. */
  lemma RejectedLeavesUnchanged(s: TrackerState, packetId: u64)
    requires Step(s, packetId).1 != Success
    ensures Step(s, packetId).0 == s
  {
  }

  /** `x` lies in the window of 64 ids that ends at `highest`. */
  predicate InWindow(highest: u64, x: u64)
  {
    0 <= WrappingDiff(highest, x) < 64
  }

  /** The tracker has recorded `x`: it is in the window and its bit is set. */
  predicate Seen(s: TrackerState, x: u64)
  {
    var k := WrappingDiff(s.highestPacketId, x);
    0 <= k < 64 && s.window[k]
  }

  /**
   * Bit 0 records the highest id itself. A fresh tracker does not have it
   * (highest id 0 was never received, yet it counts as a duplicate); every
   * tracker that has accepted a newer id does.
   */
  predicate WellFormed(s: TrackerState)
  {
    s.window[0]
  }

  /** The difference from `h` to `x` and from `x` to `h` are opposite, except at -2^63. */
  lemma WrappingDiffAntisymmetric(a: u64, b: u64)
    requires WrappingDiff(a, b) != -0x8000_0000_0000_0000
    ensures WrappingDiff(b, a) == -WrappingDiff(a, b)
  {
  }

  /**
   * The verdict on a well-formed tracker is the window's: a duplicate
   * exactly when already seen; old exactly when more than 63 below the
   * highest id; a success otherwise.
   */
  lemma VerdictMatchesWindow(s: TrackerState, packetId: u64)
    requires WellFormed(s)
    ensures Step(s, packetId).1 == Duplicate <==> Seen(s, packetId)
    ensures Step(s, packetId).1 == Old <==> WrappingDiff(packetId, s.highestPacketId) < -63
  {
    var shift := WrappingDiff(packetId, s.highestPacketId);
    if shift != -0x8000_0000_0000_0000 {
      WrappingDiffAntisymmetric(packetId, s.highestPacketId);
    }
  }

  /** Accepting a newer id makes it the highest and records it. */
  lemma NewerEstablishesWellFormed(s: TrackerState, packetId: u64)
    requires WrappingDiff(packetId, s.highestPacketId) > 0
    ensures Step(s, packetId).1 == Success
    ensures Step(s, packetId).0.highestPacketId == packetId
    ensures WellFormed(Step(s, packetId).0)
  {
  }

  lemma StepPreservesWellFormed(s: TrackerState, packetId: u64)
    requires WellFormed(s)
    ensures WellFormed(Step(s, packetId).0)
  {
  }

  /**
   * The sliding-window law, for a well-formed tracker: after a step the
   * ids seen are the id just submitted (unless it was old) and the ids
   * seen before that still fall inside the new window.
   */
  lemma SeenAfterStep(s: TrackerState, packetId: u64, x: u64)
    requires WellFormed(s)
    ensures Seen(Step(s, packetId).0, x) <==>
      ((x == packetId && Step(s, packetId).1 != Old)
       || (Seen(s, x) && InWindow(Step(s, packetId).0.highestPacketId, x)))
  {
    var h := s.highestPacketId;
    var shift := WrappingDiff(packetId, h);
    var t := Step(s, packetId).0;
    var k := WrappingDiff(h, x);
    var k' := WrappingDiff(t.highestPacketId, x);
    if shift == 0 {
    } else if shift < -63 {
    } else if shift < 0 {
      WrappingDiffAntisymmetric(packetId, h);
    } else {
      assert k' == WrappingDiff(packetId, x);
      if 0 <= k' < 64 && 0 <= k < 64 {
        assert k' == k + shift;
      }
    }
  }

  /**
   * The highest id only moves forward in wrapping (serial number) order;
   * among ids below 2^63 it never decreases.
   */
  lemma HighestNeverDecreases(s: TrackerState, packetId: u64)
    ensures WrappingDiff(Step(s, packetId).0.highestPacketId, s.highestPacketId) >= 0
    ensures s.highestPacketId < 0x8000_0000_0000_0000 && packetId < 0x8000_0000_0000_0000 ==>
      s.highestPacketId <= Step(s, packetId).0.highestPacketId
  {
  }

  /** An id just accepted is a duplicate when submitted again straight away. */
  lemma ResubmitIsDuplicate(s: TrackerState, packetId: u64)
    requires Step(s, packetId).1 == Success
    ensures Step(Step(s, packetId).0, packetId) == (Step(s, packetId).0, Duplicate)
  {
    var shift := WrappingDiff(packetId, s.highestPacketId);
    if shift < 0 {
      WrappingDiffAntisymmetric(packetId, s.highestPacketId);
    }
  }

  // ---------------------------------------------------------------------
  // The tracker test, replayed
  // ---------------------------------------------------------------------

  /**
   * The sequence 5, 3, 3, 5, 64, 5, 100, 1 from a fresh tracker: the
   * verdicts and the highest id after each step.
   */
  lemma TrackerTestSequence()
    ensures var s1 := Step(Fresh, 5).0;
      var s2 := Step(s1, 3).0;
      var s3 := Step(s2, 64).0;
      var s4 := Step(s3, 100).0;
      && Step(Fresh, 5).1 == Success && s1.highestPacketId == 5
      && Step(s1, 3).1 == Success && s2.highestPacketId == 5
      && Step(s2, 3) == (s2, Duplicate)
      && Step(s2, 5) == (s2, Duplicate)
      && Step(s2, 64).1 == Success && s3.highestPacketId == 64
      && Step(s3, 5) == (s3, Duplicate)
      && Step(s3, 100).1 == Success && s4.highestPacketId == 100
      && Step(s4, 1) == (s4, Old)
  {
    var s1 := Step(Fresh, 5).0;
    var s2 := Step(s1, 3).0;
    assert s2.window[0] && s2.window[2];
    var s3 := Step(s2, 64).0;
    assert s3.window[59];
  }
}
