/** A reached config applied again. */
module DevicesAgain {
  import opened Bytes
  import opened Devices
  import opened DevicesConverge
  import opened DevicesExact
  import opened DevicesPatch
  import opened DevicesTables

  // ----- Applying it again -----

  function Weight(t: Table): nat {
    InUseCount(t.slots) + UsedCount(t.pend)
  }

  predicate AllInUse(slots: seq<Slot>, devs: seq<Config>, n: nat)
    requires n <= |devs|
  {
    forall k :: 0 <= k < n && devs[k].enabled ==> UuidInUse(slots, devs[k].uuid)
  }

  /** Every entry still to be opened would open. */
  predicate RestOpens(slots: seq<Slot>, reg: Registry, devs: seq<Config>, opens: Config -> bool) {
    reg.loaded ==> forall k :: 0 <= k < |devs| && devs[k].enabled && !UuidInUse(slots, devs[k].uuid) ==> opens(devs[k])
  }

  lemma {:induction false} QueueWeight(pend: seq<Pending>, e: Config)
    ensures UsedCount(pend) <= UsedCount(Queue(pend, e))
    ensures NothingPending(pend) && |pend| > 0 ==> UsedCount(Queue(pend, e)) == UsedCount(pend) + 1
  {
    var at, free := QueuedAt(pend, e.uuid), FirstUnused(pend);
    if at < |pend| {
      CountPend(pend, at, pend[at].(dev := e));
    } else if free < |pend| {
      CountPend(pend, free, Pending(true, e));
    }
  }

  lemma {:induction false} WantedWeight(t: Table, reg: Registry, e: Config, opens: Config -> bool)
    requires EntryOk(reg, e)
    ensures var u := AddWanted(t, reg, e, opens);
      && Weight(u) >= Weight(t)
      && (NothingPending(t.pend) && |t.pend| > 0 && InUseCount(t.slots) < |t.slots| && Weight(u) == Weight(t) ==>
            !e.enabled || UuidInUse(t.slots, e.uuid) || (reg.loaded && !opens(e)))
  {
    AddWeight(t, reg, e, opens(e));
    QueueWeight(t.pend, e);
    if e.enabled && !UuidInUse(t.slots, e.uuid) && InUseCount(t.slots) < |t.slots| {
      AddOutcome(t, reg, e, opens(e));
    }
    hide InUseCount, UsedCount, Add, Queue, Filled, UuidInUse, NameTaken;
  }

  /** The second pass does nothing only if every enabled entry was in use. */
  lemma {:induction false} AddAllWeight(t: Table, reg: Registry, devs: seq<Config>, opens: Config -> bool, n: nat)
    requires n <= |devs| && ValidConfig(reg, devs) && RestOpens(t.slots, reg, devs, opens)
    requires NothingPending(t.pend) && |t.pend| > 0 && InUseCount(t.slots) < |t.slots|
    ensures var u := AddAll(t, reg, devs, opens, n);
      && Weight(u) >= Weight(t)
      && (Weight(u) == Weight(t) ==> u == t && AllInUse(t.slots, devs, n))
      && (AllInUse(t.slots, devs, n) ==> u == t)
  {
    if n > 0 {
      assert EntryOk(reg, devs[n - 1]);
      hide Weight, Add, Queue, NothingPending, InUseCount, UuidInUse, ValidConfig, EntryOk;
      AddAllWeight(t, reg, devs, opens, n - 1);
      WantedWeight(AddAll(t, reg, devs, opens, n - 1), reg, devs[n - 1], opens);
    }
  }

  lemma {:induction false} PatchKeeps(t: Table, devs: seq<Config>, s: nat)
    requires s <= |t.slots| && NoneDying(t.slots)
    requires forall i :: 0 <= i < |t.slots| ==> PatchedSlot(t.slots[i], devs) == t.slots[i]
    ensures Patch(t, devs, s) == t
  {
    if s > 0 {
      PatchKeeps(t, devs, s - 1);
      assert !Dying(t.slots[s - 1]) && PatchedSlot(t.slots[s - 1], devs) == t.slots[s - 1];
      assert Patch(t, devs, s).slots == t.slots;
    }
  }

  /** The config is reached exactly when nothing is under way, nothing is missed
      and apply has nothing to do. */
  lemma {:induction false} ApplyIsIdleExactlyWhen(t: Table, reg: Registry, devs: seq<Config>, opens: Config -> bool)
    requires Startable(t, reg) && ValidConfig(reg, devs)
    ensures Converged(t, devs)
       <==> !StillPending(t) && NoneMissed(t, reg, opens, devs) && Apply(t, reg, devs, opens) == t
    ensures Converged(t, devs) ==> Accepted(t, reg, devs)
  {
    assert |t.slots| == |t.pend| == SLOTS && InUseCount(t.slots) <= MAX_DEVICES;
    hide Startable, ValidConfig, Converged, Apply, StillPending, NoneMissed, NoConflict;
    if Converged(t, devs) {
      ConvergedRests(t, devs);
      ConvergedMissesNone(t, reg, devs, opens);
      ConvergedIsIdle(t, reg, devs, opens);
    } else if !StillPending(t) && NoneMissed(t, reg, opens, devs) && Apply(t, reg, devs, opens) == t {
      IdleIsConverged(t, reg, devs, opens);
    }
  }

  lemma {:induction false} ConvergedMissesNone(t: Table, reg: Registry, devs: seq<Config>, opens: Config -> bool)
    requires Converged(t, devs)
    ensures NoneMissed(t, reg, opens, devs)
  {
    ConvergedRests(t, devs);
    forall k | 0 <= k < |devs| && devs[k].enabled ensures Goes(t.slots, devs[k]) && !Lost(t, devs[k]) {
      var s :| 0 <= s < |t.slots| && Matches(t.slots[s], devs[k]);
      assert Live(t.slots[s]) && !IdentityChanged(t.slots[s], devs[k]);
      forall i | 0 <= i < |t.slots| ensures !Dying(t.slots[i]) {}
    }
  }

  /** A reached config finds every slot as it wants it. */
  lemma {:induction false} ConvergedSlots(t: Table, reg: Registry, devs: seq<Config>, s: nat)
    requires Converged(t, devs) && ValidConfig(reg, devs) && s < |t.slots|
    ensures PatchedSlot(t.slots[s], devs) == t.slots[s]
    ensures t.slots[s].inUse ==> Wanted(devs, t.slots[s].uuid).Some? && t.slots[s].uuid != ""
  {
    hide Settled, UuidsDistinct, NothingPending;
    if t.slots[s].inUse {
      assert IsEntry(t.slots[s], devs);
      var k :| 0 <= k < |devs| && devs[k].enabled && Matches(t.slots[s], devs[k]);
      WantedIs(devs, k);
    }
  }

  lemma {:induction false} ConvergedIsIdle(t: Table, reg: Registry, devs: seq<Config>, opens: Config -> bool)
    requires |t.slots| == |t.pend| == SLOTS && InUseCount(t.slots) <= MAX_DEVICES && ValidConfig(reg, devs)
    requires Converged(t, devs)
    ensures Apply(t, reg, devs, opens) == t && Accepted(t, reg, devs)
  {
    ConvergedRests(t, devs);
    hide PatchedSlot, Wanted, IsEntry, ValidConfig, EntryOk, PairOk;
    forall s | 0 <= s < |t.slots|
      ensures PatchedSlot(t.slots[s], devs) == t.slots[s]
      ensures t.slots[s].inUse ==> Wanted(devs, t.slots[s].uuid).Some? && t.slots[s].uuid != ""
    {
      ConvergedSlots(t, reg, devs, s);
    }
    PatchKeeps(t, devs, |t.slots|);
    forall k | 0 <= k < |devs| && devs[k].enabled ensures UuidInUse(t.slots, devs[k].uuid) {
      SettledIsInUse(t, reg, devs, k);
    }
    AddAllWeight(t, reg, devs, opens, |devs|);
  }

  lemma {:induction false} SettledIsInUse(t: Table, reg: Registry, devs: seq<Config>, k: nat)
    requires ValidConfig(reg, devs) && k < |devs| && Settled(t.slots, devs[k])
    ensures UuidInUse(t.slots, devs[k].uuid)
  {
    var s :| 0 <= s < |t.slots| && Matches(t.slots[s], devs[k]);
    assert EntryOk(reg, devs[k]);
  }

  lemma {:induction false} NoneMissedOpens(t: Table, reg: Registry, devs: seq<Config>, opens: Config -> bool)
    requires NoneMissed(t, reg, opens, devs) && ValidConfig(reg, devs)
    ensures RestOpens(t.slots, reg, devs, opens)
  {
    hide Goes, UuidInUse, Lost;
    forall k | 0 <= k < |devs| && devs[k].enabled && !UuidInUse(t.slots, devs[k].uuid) && reg.loaded
      ensures opens(devs[k])
    {
      assert EntryOk(reg, devs[k]);
      NotInUseNotGoing(t.slots, devs[k]);
    }
  }

  lemma {:induction false} IdleIsConverged(t: Table, reg: Registry, devs: seq<Config>, opens: Config -> bool)
    requires Startable(t, reg) && !StillPending(t) && ValidConfig(reg, devs) && NoneMissed(t, reg, opens, devs)
    requires Apply(t, reg, devs, opens) == t
    ensures Converged(t, devs)
  {
    PatchIsIdle(t, reg, devs, opens);
    NoneMissedOpens(t, reg, devs, opens);
    AddAllWeight(t, reg, devs, opens, |devs|);
    hide Patch, AddAll, PatchedSlot, InUseCount, UsedCount, NoneMissed, RestOpens, Weight;
    forall s | 0 <= s < |t.slots| && t.slots[s].inUse ensures IsEntry(t.slots[s], devs) {
      assert !Dying(t.slots[s]);
      PatchedIsEntry(t.slots[s], reg, devs);
    }
    forall k | 0 <= k < |devs| && devs[k].enabled ensures Settled(t.slots, devs[k]) {
      assert UuidInUse(t.slots, devs[k].uuid);
      EntryIsSettled(t.slots, reg, devs, k);
    }
  }

  lemma {:induction false} EntryIsSettled(slots: seq<Slot>, reg: Registry, devs: seq<Config>, k: nat)
    requires ValidConfig(reg, devs) && k < |devs| && UuidInUse(slots, devs[k].uuid)
    requires forall s :: 0 <= s < |slots| && slots[s].inUse ==> IsEntry(slots[s], devs)
    ensures Settled(slots, devs[k])
  {
    ValidApart(reg, devs);
    hide ValidConfig;
    var s :| 0 <= s < |slots| && slots[s].inUse && slots[s].uuid == devs[k].uuid;
    assert IsEntry(slots[s], devs);
    var j :| 0 <= j < |devs| && devs[j].enabled && Matches(slots[s], devs[j]);
    SameEntry(devs, j, k);
  }

  lemma {:induction false} SameEntry(devs: seq<Config>, j: nat, k: nat)
    requires AllApart(devs) && j < |devs| && k < |devs| && devs[j].uuid == devs[k].uuid
    ensures j == k
  {}

  /** Only an idle first pass lets apply give back its table. */
  lemma {:induction false} PatchIsIdle(t: Table, reg: Registry, devs: seq<Config>, opens: Config -> bool)
    requires NoneDying(t.slots) && Apply(t, reg, devs, opens) == t
    ensures Patch(t, devs, |t.slots|) == t
    ensures forall s :: 0 <= s < |t.slots| ==> PatchedSlot(t.slots[s], devs) == t.slots[s]
  {
    var p := Patch(t, devs, |t.slots|);
    PatchPointwise(t, devs, |t.slots|);
    AddAllKeeps(p, reg, devs, opens, |devs|);
    forall s | 0 <= s < |t.slots| ensures PatchedSlot(t.slots[s], devs) == t.slots[s] {
      if t.slots[s].inUse {
        assert p.slots[s] == PatchedSlot(t.slots[s], devs) && p.slots[s].inUse;
      }
    }
    PatchKeeps(t, devs, |t.slots|);
  }

  /** Applying the reached config again stops and adds nothing. */
  lemma {:induction false} ApplyTwice(t: Table, reg: Registry, devs: seq<Config>, opens: Config -> bool)
    requires Startable(t, reg) && Accepted(t, reg, devs) && |devs| <= MAX_DEVICES
    requires AllFit(devs) && QueueTakenUp(t, devs) && NoneMissed(t, reg, opens, devs)
    ensures var u := Reconfigure(t, reg, devs, opens);
      Converged(u, devs) && Accepted(u, reg, devs) && Apply(u, reg, devs, opens) == u
  {
    var u := Reconfigure(t, reg, devs, opens);
    ReconfigureSettles(t, reg, devs, opens);
    assert |u.slots| == |t.slots| && |u.pend| == |t.pend|;
    hide Reconfigure, Settled, Missed, UuidsDistinct, IsEntry, ValidConfig;
    NoMoreThanEntries(u, devs);
    ConvergedIsIdle(u, reg, devs, opens);
  }

  /** An entry whose kind, driver or uuid is longer than its slot's is stopped
      by every apply, whatever the slot holds. */
  lemma {:induction false} MisfitIsStopped(d: Slot, devs: seq<Config>)
    requires d.inUse && Bounded([d])
    requires forall k :: 0 <= k < |devs| && Cut(devs[k].uuid, UUID_MAX) == d.uuid ==> !Fits(devs[k])
    ensures PatchedSlot(d, devs).stop
  {
    assert Bounded([d]) && [d][0] == d;
    var want := Wanted(devs, d.uuid);
    if want.Some? {
      var k :| 0 <= k < |devs| && devs[k] == want.value;
    }
  }

  // ----- The first config -----

  lemma {:induction false} InitialStarts(reg: Registry, devs: seq<Config>, opens: Config -> bool)
    ensures Startable(INITIAL, reg) && Bounded(INITIAL.slots) && QueueTakenUp(INITIAL, devs)
    ensures StraysOpen(INITIAL, reg, devs, opens) && (ValidConfig(reg, devs) ==> Accepted(INITIAL, reg, devs))
    ensures forall e :: Missed(INITIAL, reg, opens, e) <==> reg.loaded && !opens(e)
  {
    NoneInUse(INITIAL.slots);
    NoneUsed(INITIAL.pend);
    forall p ensures !Queued(INITIAL.pend, p) {}
  }

  /** From the table the daemon starts with, a valid config is reached exactly
      when its enabled entries fit and open. */
  lemma {:induction false} FirstConfigIsReached(reg: Registry, devs: seq<Config>, opens: Config -> bool)
    requires ValidConfig(reg, devs) && |devs| <= MAX_DEVICES
    ensures Converged(Reconfigure(INITIAL, reg, devs, opens), devs)
       <==> AllFit(devs) && (reg.loaded ==> forall k :: 0 <= k < |devs| && devs[k].enabled ==> opens(devs[k]))
  {
    InitialStarts(reg, devs, opens);
    hide ValidConfig, AllFit, Reconfigure, Converged, Startable, Bounded, QueueTakenUp, StraysOpen, Accepted, Missed;
    ConvergesExactlyWhen(INITIAL, reg, devs, opens);
  }
}
