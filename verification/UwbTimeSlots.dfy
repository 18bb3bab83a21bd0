/** Time slots for the shared UWB channel (src/Master/src/uwb/UwbTimeslotmanager.cpp). */
module UwbTimeSlots {
  import opened Basics

  const SLOT_DURATION_MS := 500
  const TRANSMISSION_WINDOW_MS := 400
  const GUARD_INTERVAL_MS := 100
  const MAX_NODES := 3
  const GLOBAL_EPOCH_MS := 1704067200000

  /** A reading of system_clock, in milliseconds since 1970. */
  type Clock = x: int | -0x8000_0000_0000_0000 <= x < 0x8000_0000_0000_0000

  /** The subtraction is unsigned, so a clock before the epoch wraps around. */
  function Elapsed(now: Clock): uint64 {
    (now - GLOBAL_EPOCH_MS) % U64
  }

  function CurrentSlot(now: Clock): uint32 {
    Elapsed(now) / SLOT_DURATION_MS % U32
  }

  function TimeInSlot(now: Clock): (t: uint32)
    ensures t < SLOT_DURATION_MS
  {
    Elapsed(now) % SLOT_DURATION_MS
  }

  /** Node 0 compares against -1 converted to unsigned, which no slot equals. */
  function OwnResidue(id: Byte): uint32 {
    if id == 0 then U32 - 1 else (id - 1) % MAX_NODES
  }

  predicate IsMySlot(id: Byte, now: Clock) {
    CurrentSlot(now) % MAX_NODES == OwnResidue(id)
  }

  predicate InWindow(id: Byte, now: Clock) {
    IsMySlot(id, now) && TimeInSlot(now) < TRANSMISSION_WINDOW_MS
  }

  predicate CanTransmit(id: Byte, now: Clock) {
    IsMySlot(id, now) && InWindow(id, now)
  }

  /* ---- mutual exclusion ---- */

  predicate Within(c: Clock, d: Clock, skew: int) {
    -skew <= c - d <= skew
  }

  predicate Collide(a: Byte, c: Clock, b: Byte, d: Clock) {
    CanTransmit(a, c) && CanTransmit(b, d)
  }

  lemma ElapsedFrom(now: Clock)
    ensures now >= GLOBAL_EPOCH_MS ==> Elapsed(now) == now - GLOBAL_EPOCH_MS
    ensures now < GLOBAL_EPOCH_MS ==> Elapsed(now) == now - GLOBAL_EPOCH_MS + U64
  {
    var x := now - GLOBAL_EPOCH_MS;
    if x < 0 {
      assert x % U64 == x + U64;
    } else {
      assert x % U64 == x;
    }
  }

  /** Two moments in the transmission window that are at most a guard interval apart lie in one
      slot. */
  lemma WindowsApart(x: int, y: int)
    requires 0 <= x <= y <= x + GUARD_INTERVAL_MS
    requires x % SLOT_DURATION_MS < TRANSMISSION_WINDOW_MS && y % SLOT_DURATION_MS < TRANSMISSION_WINDOW_MS
    ensures x / SLOT_DURATION_MS == y / SLOT_DURATION_MS
  {
  }

  /** The slots on both sides of the epoch belong to node 1, although the slot number jumps. */
  lemma EpochEdge(now: Clock)
    requires -GUARD_INTERVAL_MS <= now - GLOBAL_EPOCH_MS < GUARD_INTERVAL_MS
    ensures CurrentSlot(now) % MAX_NODES == 0
  {
    ElapsedFrom(now);
    var x := now - GLOBAL_EPOCH_MS;
    if x < 0 {
      assert U64 == 500 * 36893488147419103 + 116;
      assert (x + U64) / 500 == 36893488147419103;
      assert 36893488147419103 % U32 == 2542620639 && 2542620639 % 3 == 0;
    }
  }

  /** The owner of the slot is the same for two clocks that are close and both in the window. */
  lemma SameOwnerNearby(c: Clock, d: Clock)
    requires c <= d <= c + GUARD_INTERVAL_MS
    requires TimeInSlot(c) < TRANSMISSION_WINDOW_MS && TimeInSlot(d) < TRANSMISSION_WINDOW_MS
    ensures CurrentSlot(c) % MAX_NODES == CurrentSlot(d) % MAX_NODES
  {
    if c < GLOBAL_EPOCH_MS <= d {
      EpochEdge(c);
      EpochEdge(d);
    } else {
      ElapsedFrom(c);
      ElapsedFrom(d);
      WindowsApart(Elapsed(c), Elapsed(d));
    }
  }

  lemma NoCollision(a: Byte, c: Clock, b: Byte, d: Clock)
    requires Within(c, d, GUARD_INTERVAL_MS) && OwnResidue(a) != OwnResidue(b)
    ensures !Collide(a, c, b, d)
  {
    if Collide(a, c, b, d) {
      if c <= d {
        SameOwnerNearby(c, d);
      } else {
        SameOwnerNearby(d, c);
      }
    }
  }

  lemma SlotAt(k: nat, t: nat, now: Clock)
    requires k < 6 && t < SLOT_DURATION_MS && now == GLOBAL_EPOCH_MS + SLOT_DURATION_MS * k + t
    ensures CurrentSlot(now) == k && TimeInSlot(now) == t
  {
    ElapsedFrom(now);
  }

  /** One millisecond more than the guard interval suffices for a collision: the last moment of
      one window and the first of the next. */
  lemma NextSlotCollides(a: Byte, b: Byte) returns (c: Clock, d: Clock)
    requires a != 0 && b != 0 && OwnResidue(b) == (OwnResidue(a) + 1) % MAX_NODES
    ensures d == c + GUARD_INTERVAL_MS + 1 && Collide(a, c, b, d)
  {
    var k := OwnResidue(a);
    c := GLOBAL_EPOCH_MS + SLOT_DURATION_MS * k + 399;
    d := c + 101;
    SlotAt(k, 399, c);
    SlotAt(k + 1, 0, d);
  }

  lemma SameSlotCollides(a: Byte, b: Byte) returns (c: Clock)
    requires a != 0 && b != 0 && OwnResidue(b) == OwnResidue(a)
    ensures Collide(a, c, b, c)
  {
    c := GLOBAL_EPOCH_MS + SLOT_DURATION_MS * OwnResidue(a);
    SlotAt(OwnResidue(a), 0, c);
  }

  ghost predicate Exclusive(a: Byte, b: Byte, skew: nat) {
    forall c: Clock, d: Clock :: Within(c, d, skew) ==> !Collide(a, c, b, d)
  }

  /** Two nodes are kept apart under a clock skew exactly when they own different slots and the
      skew does not exceed the guard interval. */
  lemma TransmissionExclusion(a: Byte, b: Byte, skew: nat)
    requires a != 0 && b != 0
    ensures Exclusive(a, b, skew) <==> OwnResidue(a) != OwnResidue(b) && skew <= GUARD_INTERVAL_MS
  {
    if OwnResidue(a) == OwnResidue(b) {
      var c := SameSlotCollides(a, b);
      assert Within(c, c, skew);
    } else if skew <= GUARD_INTERVAL_MS {
      forall c: Clock, d: Clock | Within(c, d, skew) ensures !Collide(a, c, b, d) {
        NoCollision(a, c, b, d);
      }
    } else if OwnResidue(b) == (OwnResidue(a) + 1) % MAX_NODES {
      var c, d := NextSlotCollides(a, b);
      assert Within(c, d, skew);
    } else {
      var d, c := NextSlotCollides(b, a);
      assert Within(c, d, skew);
    }
  }

  /** The three nodes of the deployment own different slots. */
  lemma ThreeNodesExclusive(a: Byte, b: Byte)
    requires 1 <= a <= MAX_NODES && 1 <= b <= MAX_NODES && a != b
    ensures Exclusive(a, b, GUARD_INTERVAL_MS)
  {
    TransmissionExclusion(a, b, GUARD_INTERVAL_MS);
  }

  /** From the first millisecond of 2024 on, for 68 years: slots last half a second, and node i of 1 to
      3 owns every third of them, counted from its own number. */
  lemma SlotOwner(i: Byte, now: Clock, slot: int)
    requires 1 <= i <= 3 && now >= 1704067200000 && slot == (now - 1704067200000) / 500 && slot < 0x1_0000_0000
    ensures IsMySlot(i, now) <==> slot % 3 == i - 1
    ensures TimeInSlot(now) == now - 1704067200000 - slot * 500
    ensures CanTransmit(i, now) <==> slot % 3 == i - 1 && now - 1704067200000 - slot * 500 < 400
  {
    ElapsedFrom(now);
    SmallSlot(slot);
  }

  /** Node 0 owns no slot at any time. */
  lemma NodeZero(now: Clock)
    ensures !IsMySlot(0, now)
  {
  }

  /* ---- the monitor ---- */

  /** The readings of the clock in one turn of monitor_thread: for the slot number, for the owner of
      the slot, and for the time in the slot. The last two are taken only when they are needed. */
  datatype Reading = Reading(slot: Clock, owner: Clock, time: Clock)

  /** What one turn decides, given the slot remembered from the last turn. */
  predicate Fires(id: Byte, lastSlot: uint32, r: Reading) {
    && CurrentSlot(r.slot) != lastSlot
    && IsMySlot(id, r.owner) && TimeInSlot(r.time) < TRANSMISSION_WINDOW_MS
  }

  const NO_SLOT: uint32 := 0xFFFFFFFF

  function LastSlotBefore(rs: seq<Reading>, i: nat): uint32
    requires i <= |rs|
  {
    if i == 0 then NO_SLOT else CurrentSlot(rs[i - 1].slot)
  }

  /** The callback runs in turn i. */
  predicate CallsBack(id: Byte, rs: seq<Reading>, i: nat)
    requires i < |rs|
  {
    Fires(id, LastSlotBefore(rs, i), rs[i])
  }

  class SlotManager {
    const nodeId: Byte
    var lastSlot: uint32
    var callbacks: nat

    constructor (nodeId: Byte)
      ensures this.nodeId == nodeId && lastSlot == NO_SLOT && callbacks == 0
    {
      this.nodeId, lastSlot, callbacks := nodeId, NO_SLOT, 0;
    }

    /** One turn of the loop. */
    method Tick(r: Reading) returns (fired: bool)
      modifies this
      ensures lastSlot == CurrentSlot(r.slot)
      ensures fired == Fires(nodeId, old(lastSlot), r)
      ensures callbacks == old(callbacks) + if fired then 1 else 0
    {
      fired := false;
      var currentSlot := CurrentSlot(r.slot);
      if currentSlot != lastSlot {
        lastSlot := currentSlot;
        if IsMySlot(nodeId, r.owner) {
          var timeInSlot := TimeInSlot(r.time);
          if timeInSlot < TRANSMISSION_WINDOW_MS {
            callbacks := callbacks + 1;
            fired := true;
          }
        }
      }
    }

    /** The loop of monitor_thread over the clock readings of a whole run. */
    method Monitor(rs: seq<Reading>) returns (fired: seq<bool>)
      requires lastSlot == NO_SLOT
      modifies this
      ensures |fired| == |rs|
      ensures forall i :: 0 <= i < |rs| ==> fired[i] == CallsBack(nodeId, rs, i)
    {
      fired := [];
      for i := 0 to |rs|
        invariant |fired| == i && lastSlot == LastSlotBefore(rs, i)
        invariant forall j :: 0 <= j < i ==> fired[j] == CallsBack(nodeId, rs, j)
      {
        var f := Tick(rs[i]);
        fired := fired + [f];
      }
    }
  }

  /** The slot number before it is cut to 32 bits. */
  function AbsoluteSlot(now: Clock): int {
    (now - GLOBAL_EPOCH_MS) / SLOT_DURATION_MS
  }

  /** The readings of a turn lie in one slot, after the epoch. */
  predicate Steady(r: Reading) {
    && r.slot >= GLOBAL_EPOCH_MS && r.owner >= GLOBAL_EPOCH_MS && r.time >= GLOBAL_EPOCH_MS
    && AbsoluteSlot(r.slot) == AbsoluteSlot(r.owner) == AbsoluteSlot(r.time)
  }

  predicate AllSteady(rs: seq<Reading>) {
    forall i :: 0 <= i < |rs| ==> Steady(rs[i])
  }

  lemma SlotNumber(now: Clock)
    requires now >= GLOBAL_EPOCH_MS
    ensures CurrentSlot(now) == AbsoluteSlot(now) % U32
    ensures AbsoluteSlot(now) >= 0
  {
    ElapsedFrom(now);
  }

  lemma SmallSlot(slot: int)
    requires 0 <= slot < U32
    ensures slot % U32 == slot
  {
  }

  /** Before the slot number wraps, 68 years after the epoch. */
  predicate Unwrapped(rs: seq<Reading>) {
    forall i :: 0 <= i < |rs| ==> AbsoluteSlot(rs[i].slot) < NO_SLOT
  }

  /** In turn i the clock enters the slot, inside its window. */
  predicate Enters(rs: seq<Reading>, i: nat, slot: int)
    requires i < |rs|
  {
    && AbsoluteSlot(rs[i].slot) == slot && (i > 0 ==> AbsoluteSlot(rs[i - 1].slot) != slot)
    && TimeInSlot(rs[i].time) < TRANSMISSION_WINDOW_MS
  }

  predicate Owns(id: Byte, slot: int) {
    slot % MAX_NODES == OwnResidue(id)
  }

  /** The callback runs exactly when the clock enters an own slot inside its window. */
  lemma CallsBackIff(id: Byte, rs: seq<Reading>, i: nat)
    requires AllSteady(rs) && Unwrapped(rs) && i < |rs|
    ensures CallsBack(id, rs, i) <==> Owns(id, AbsoluteSlot(rs[i].slot)) && Enters(rs, i, AbsoluteSlot(rs[i].slot))
  {
    assert Steady(rs[i]);
    SlotNumber(rs[i].slot);
    SmallSlot(AbsoluteSlot(rs[i].slot));
    SlotNumber(rs[i].owner);
    if i > 0 {
      assert Steady(rs[i - 1]);
      SlotNumber(rs[i - 1].slot);
      SmallSlot(AbsoluteSlot(rs[i - 1].slot));
    }
  }

  /** The callback runs in turns i and j, both in the slot. */
  predicate Repeats(id: Byte, rs: seq<Reading>, slot: int, i: nat, j: nat) {
    && i < j < |rs| && CallsBack(id, rs, i) && CallsBack(id, rs, j)
    && AbsoluteSlot(rs[i].slot) == slot == AbsoluteSlot(rs[j].slot)
  }

  /** The clock enters the slot inside its window in turn i and again in turn j. */
  predicate EntersTwice(rs: seq<Reading>, slot: int, i: nat, j: nat) {
    i < j < |rs| && Enters(rs, i, slot) && Enters(rs, j, slot)
  }

  /** To enter a slot again the clock has to be seen outside it in between. */
  lemma LeavesBetween(rs: seq<Reading>, slot: int, i: nat, j: nat) returns (k: nat)
    requires EntersTwice(rs, slot, i, j)
    ensures i < k < j && AbsoluteSlot(rs[k].slot) != slot
  {
    k := j - 1;
  }

  /** A slot gets two callbacks exactly when it belongs to the node and the clock enters it twice
      inside its window. */
  lemma TwiceIff(id: Byte, rs: seq<Reading>, slot: int)
    requires AllSteady(rs) && Unwrapped(rs)
    ensures (exists i: nat, j: nat :: Repeats(id, rs, slot, i, j))
       <==> Owns(id, slot) && exists i: nat, j: nat :: EntersTwice(rs, slot, i, j)
  {
    if i: nat, j: nat :| Repeats(id, rs, slot, i, j) {
      CallsBackIff(id, rs, i);
      CallsBackIff(id, rs, j);
      assert EntersTwice(rs, slot, i, j);
    }
    if i: nat, j: nat :| EntersTwice(rs, slot, i, j) {
      CallsBackIff(id, rs, i);
      CallsBackIff(id, rs, j);
      assert Owns(id, slot) ==> Repeats(id, rs, slot, i, j);
    }
  }

  predicate Forward(rs: seq<Reading>) {
    forall i, j :: 0 <= i <= j < |rs| ==> rs[i].slot <= rs[j].slot
  }

  lemma DivMonotone(x: int, y: int)
    requires x <= y
    ensures x / SLOT_DURATION_MS <= y / SLOT_DURATION_MS
  {
  }

  /** A clock that does not go back never enters a slot again, so the callback runs at most once in a
      slot, also when the slot number wraps. */
  lemma AtMostOncePerSlot(id: Byte, rs: seq<Reading>, i: nat, j: nat)
    requires AllSteady(rs) && Forward(rs) && i < j < |rs| && CallsBack(id, rs, i) && CallsBack(id, rs, j)
    ensures AbsoluteSlot(rs[i].slot) < AbsoluteSlot(rs[j].slot)
  {
    var before := rs[j - 1].slot;
    DivMonotone(rs[i].slot - GLOBAL_EPOCH_MS, before - GLOBAL_EPOCH_MS);
    DivMonotone(before - GLOBAL_EPOCH_MS, rs[j].slot - GLOBAL_EPOCH_MS);
    assert Steady(rs[j - 1]) && Steady(rs[j]);
    SlotNumber(before);
    SlotNumber(rs[j].slot);
  }

  /** A concrete case: a clock that is set back by one slot. */
  lemma SetBackFiresTwice() returns (rs: seq<Reading>)
    ensures AllSteady(rs) && Unwrapped(rs) && Repeats(1, rs, 0, 0, 2)
  {
    var a, b := GLOBAL_EPOCH_MS, GLOBAL_EPOCH_MS + SLOT_DURATION_MS;
    rs := [Reading(a, a, a), Reading(b, b, b), Reading(a, a, a)];
    SlotAt(0, 0, a);
    SlotAt(1, 0, b);
    CallsBackIff(1, rs, 0);
    CallsBackIff(1, rs, 2);
  }
}
