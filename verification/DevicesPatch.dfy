/** The first pass of an apply: every slot on its own, and what is queued
    afterwards. */
module DevicesPatch {
  import opened Bytes
  import opened Devices
  import opened DevicesTables

  lemma {:induction false} PatchPointwise(t: Table, devs: seq<Config>, s: nat)
    requires s <= |t.slots|
    ensures var u := Patch(t, devs, s);
      && u.contexts == t.contexts && u.closed == t.closed
      && forall i :: 0 <= i < |t.slots| ==>
           u.slots[i] == if i < s then PatchedSlot(t.slots[i], devs) else t.slots[i]
  {
    if s > 0 {
      PatchPointwise(t, devs, s - 1);
    }
  }

  /** The slot goes on under the config. */
  predicate GoesOn(d: Slot, devs: seq<Config>) {
    var want := Wanted(devs, d.uuid);
    d.inUse && want.Some? && want.value.enabled && !IdentityChanged(d, want.value)
  }

  /** The slot's device is stopped to come back with a new identity. */
  predicate Changing(d: Slot, devs: seq<Config>, e: Config) {
    d.inUse && Wanted(devs, d.uuid) == Some(e) && e.enabled && IdentityChanged(d, e)
  }

  predicate ChangingBefore(slots: seq<Slot>, devs: seq<Config>, s: nat, e: Config)
    requires s <= |slots|
  {
    exists k :: 0 <= k < s && Changing(slots[k], devs, e)
  }

  /** No slot of this uuid is told to stop. */
  predicate Spared(slots: seq<Slot>, devs: seq<Config>, s: nat, uuid: string)
    requires s <= |slots|
  {
    forall k :: 0 <= k < s && slots[k].inUse && slots[k].uuid == uuid ==> GoesOn(slots[k], devs)
  }

  /** What is queued after s slots: the devices that change identity, and what
      was queued before under a uuid that no slot gave up. */
  ghost predicate QueuedAfter(pend: seq<Pending>, t: Table, devs: seq<Config>, s: nat)
    requires s <= |t.slots|
  {
    && PendDistinct(pend)
    && forall e :: Queued(pend, e) <==>
         ChangingBefore(t.slots, devs, s, e) || (Queued(t.pend, e) && Spared(t.slots, devs, s, e.uuid))
  }

  lemma {:induction false} SparedMore(slots: seq<Slot>, devs: seq<Config>, s: nat, uuid: string)
    requires s < |slots|
    ensures Spared(slots, devs, s + 1, uuid) <==>
      Spared(slots, devs, s, uuid) && (slots[s].inUse && slots[s].uuid == uuid ==> GoesOn(slots[s], devs))
  {}

  lemma {:induction false} ChangingMore(slots: seq<Slot>, devs: seq<Config>, s: nat, e: Config)
    requires s < |slots|
    ensures ChangingBefore(slots, devs, s + 1, e) <==> ChangingBefore(slots, devs, s, e) || Changing(slots[s], devs, e)
  {
    if ChangingBefore(slots, devs, s, e) {
      var k :| 0 <= k < s && Changing(slots[k], devs, e);
      assert Changing(slots[k], devs, e);
    }
  }

  /** A changing device has a uuid no other slot has. */
  lemma {:induction false} ChangingApart(slots: seq<Slot>, devs: seq<Config>, s: nat, e: Config)
    requires s < |slots| && UuidsDistinct(slots) && slots[s].inUse && ChangingBefore(slots, devs, s, e)
    ensures e.uuid != slots[s].uuid
  {
    var k :| 0 <= k < s && Changing(slots[k], devs, e);
    assert slots[k].uuid != slots[s].uuid;
  }

  lemma {:induction false} QueuedNext(p: seq<Pending>, t: Table, devs: seq<Config>, s: nat)
    requires s < |t.slots| && QueuedAfter(p, t, devs, s) && UuidsDistinct(t.slots) && UsedCount(p) < |p|
    requires forall x :: Queued(p, x) ==> x.uuid != ""
    ensures var q := PatchedPend(p, t.slots[s], devs);
      && QueuedAfter(q, t, devs, s + 1)
      && UsedCount(q) <= UsedCount(p) + if Dying(PatchedSlot(t.slots[s], devs)) then 1 else 0
  {
    hide UsedCount, Queue, Cancel, Queued, UuidsDistinct, PendDistinct, ChangingBefore, Spared, IdentityChanged, Wanted;
    var d := t.slots[s];
    var q, want := PatchedPend(p, d, devs), Wanted(devs, d.uuid);
    if d.inUse && (want.None? || !want.value.enabled) {
      CancelEffect(p, d.uuid);
    } else if d.inUse && IdentityChanged(d, want.value) {
      QueueEffect(p, want.value);
    }
    forall e ensures Queued(q, e) <==>
      ChangingBefore(t.slots, devs, s + 1, e) || (Queued(t.pend, e) && Spared(t.slots, devs, s + 1, e.uuid))
    {
      SparedMore(t.slots, devs, s, e.uuid);
      ChangingMore(t.slots, devs, s, e);
      if d.inUse && ChangingBefore(t.slots, devs, s, e) {
        ChangingApart(t.slots, devs, s, e);
      }
    }
  }

  lemma {:induction false} QueuedAtStart(t: Table, devs: seq<Config>)
    requires PendDistinct(t.pend)
    ensures QueuedAfter(t.pend, t, devs, 0)
  {
    hide Queued;
  }

  /** How many of the first s slots are stopping after the pass. */
  function Stopped(slots: seq<Slot>, devs: seq<Config>, s: nat): nat
    requires s <= |slots|
  {
    if s == 0 then 0 else Stopped(slots, devs, s - 1) + if Dying(PatchedSlot(slots[s - 1], devs)) then 1 else 0
  }

  lemma {:induction false} StoppedAre(slots: seq<Slot>, b: seq<Slot>, devs: seq<Config>, s: nat)
    requires s <= |slots| == |b| && forall i :: 0 <= i < |slots| ==> b[i] == PatchedSlot(slots[i], devs)
    ensures Stopped(slots, devs, s) == DyingCount(b[..s]) && Stopped(slots, devs, s) <= InUseCount(slots[..s])
  {
    hide InUseCount, DyingCount;
    if s > 0 {
      StoppedAre(slots, b, devs, s - 1);
      CountLast(slots, s);
      CountLast(b, s);
    } else {
      EmptyCounts();
      assert b[..0] == [] && slots[..0] == [];
    }
  }

  lemma {:induction false} EmptyCounts()
    ensures DyingCount([]) == 0 && InUseCount([]) == 0
  {}

  predicate UuidsGiven(devs: seq<Config>) {
    forall k :: 0 <= k < |devs| ==> devs[k].uuid != ""
  }

  lemma {:induction false} QueuedGiven(p: seq<Pending>, t: Table, devs: seq<Config>, s: nat)
    requires s <= |t.slots| && QueuedAfter(p, t, devs, s) && UuidsGiven(devs)
    requires forall x :: Queued(t.pend, x) ==> x.uuid != ""
    ensures forall x :: Queued(p, x) ==> x.uuid != ""
  {
    hide Queued, PendDistinct, Spared;
    forall x | ChangingBefore(t.slots, devs, s, x) ensures x.uuid != "" {
      var k :| 0 <= k < s && Changing(t.slots[k], devs, x);
      assert x in devs;
    }
  }

  /** After the first pass exactly these are queued: the devices that change
      identity, and the entries queued before whose device, if there is one,
      goes on. */
  lemma {:induction false} PatchPending(t: Table, devs: seq<Config>, s: nat)
    requires s <= |t.slots| && UuidsDistinct(t.slots) && PendDistinct(t.pend) && UuidsGiven(devs)
    requires forall x :: Queued(t.pend, x) ==> x.uuid != ""
    requires InUseCount(t.slots) + UsedCount(t.pend) < |t.pend|
    ensures var u := Patch(t, devs, s);
      QueuedAfter(u.pend, t, devs, s) && UsedCount(u.pend) <= UsedCount(t.pend) + Stopped(t.slots, devs, s)
  {
    hide UsedCount, InUseCount, PatchedPend, PatchedSlot, QueuedAfter, Queued, UuidsDistinct, PendDistinct, UuidsGiven;
    if s == 0 {
      QueuedAtStart(t, devs);
    } else {
      PatchPending(t, devs, s - 1);
      PatchPointwise(t, devs, s - 1);
      QueuedGiven(Patch(t, devs, s - 1).pend, t, devs, s - 1);
      StoppedFit(t.slots, devs, s - 1);
      QueuedNext(Patch(t, devs, s - 1).pend, t, devs, s - 1);
    }
  }

  lemma {:induction false} StoppedFit(slots: seq<Slot>, devs: seq<Config>, s: nat)
    requires s <= |slots|
    ensures Stopped(slots, devs, s) <= InUseCount(slots)
  {
    StoppedAre(slots, seq(|slots|, i requires 0 <= i < |slots| => PatchedSlot(slots[i], devs)), devs, s);
    CountPrefix(slots, s);
  }

  /** At the end of the pass no more are queued than were, and are stopping. */
  lemma {:induction false} PatchedCounts(t: Table, devs: seq<Config>)
    requires UuidsDistinct(t.slots) && PendDistinct(t.pend) && UuidsGiven(devs)
    requires forall x :: Queued(t.pend, x) ==> x.uuid != ""
    requires InUseCount(t.slots) + UsedCount(t.pend) < |t.pend|
    ensures var u := Patch(t, devs, |t.slots|);
      && InUseCount(u.slots) == InUseCount(t.slots)
      && UsedCount(u.pend) <= UsedCount(t.pend) + DyingCount(u.slots)
  {
    hide UsedCount, InUseCount, QueuedAfter, Queued, UuidsDistinct, PendDistinct, UuidsGiven, DyingCount, Patch;
    var u := Patch(t, devs, |t.slots|);
    PatchPending(t, devs, |t.slots|);
    PatchPointwise(t, devs, |t.slots|);
    CountKept(u.slots, t.slots);
    StoppedAre(t.slots, u.slots, devs, |t.slots|);
    assert u.slots[..|t.slots|] == u.slots;
  }
}
