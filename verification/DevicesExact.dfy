/** Exactly when a reconfiguration converges, and what apply's answer tells. */
module DevicesExact {
  import opened Bytes
  import opened Devices
  import opened DevicesConverge
  import opened DevicesMissed
  import opened DevicesPatch
  import opened DevicesQueue
  import opened DevicesTables

  // ----- What a slot can hold -----

  predicate Bounded(slots: seq<Slot>) {
    forall s :: 0 <= s < |slots| ==>
      |slots[s].uuid| <= 36 && |slots[s].kind| <= 15 && |slots[s].driver| <= 15
  }

  lemma {:induction false} AddBounded(t: Table, reg: Registry, dev: Config, opens: bool)
    requires Bounded(t.slots)
    ensures Bounded(Add(t, reg, dev, "", opens).0.slots)
  {}

  lemma {:induction false} AddAllBounded(t: Table, reg: Registry, devs: seq<Config>, opens: Config -> bool, n: nat)
    requires n <= |devs| && Bounded(t.slots)
    ensures Bounded(AddAll(t, reg, devs, opens, n).slots)
  {
    if n > 0 {
      AddAllBounded(t, reg, devs, opens, n - 1);
      AddBounded(AddAll(t, reg, devs, opens, n - 1), reg, devs[n - 1], opens(devs[n - 1]));
    }
  }

  lemma {:induction false} ReopenAllBounded(t: Table, reg: Registry, opens: Config -> bool, n: nat)
    requires n <= |t.pend| && Bounded(t.slots)
    ensures Bounded(ReopenAll(t, reg, opens, n).slots)
  {
    if n > 0 {
      ReopenAllBounded(t, reg, opens, n - 1);
      var u := ReopenAll(t, reg, opens, n - 1);
      AddBounded(u, reg, u.pend[n - 1].dev, opens(u.pend[n - 1].dev));
    }
  }

  lemma {:induction false} ReconfigureBounded(t: Table, reg: Registry, devs: seq<Config>, opens: Config -> bool)
    requires Bounded(t.slots)
    ensures Bounded(Reconfigure(t, reg, devs, opens).slots)
  {
    var patched := Patch(t, devs, |t.slots|);
    PatchPointwise(t, devs, |t.slots|);
    AddAllBounded(patched, reg, devs, opens, |devs|);
    var applied := Apply(t, reg, devs, opens);
    ExitPointwise(applied, |applied.slots|);
    var exited := ExitDying(applied, |applied.slots|);
    ReopenAllBounded(exited, reg, opens, |exited.pend|);
  }

  /** An entry that does not fit is nowhere settled. */
  lemma {:induction false} MisfitNotSettled(slots: seq<Slot>, e: Config)
    requires Bounded(slots) && !Fits(e)
    ensures !Settled(slots, e)
  {}

  // ----- Exactly when -----

  /** A queued entry that the config does not want and that cannot be opened: it
      is dropped when its turn comes. */
  predicate Failing(t: Table, reg: Registry, devs: seq<Config>, opens: Config -> bool, p: Config) {
    Stray(t.slots, devs, p) && reg.loaded && !opens(p)
  }

  /** Opening what is queued and not in the config would succeed. */
  ghost predicate StraysOpen(t: Table, reg: Registry, devs: seq<Config>, opens: Config -> bool) {
    forall p :: Queued(t.pend, p) ==> !Failing(t, reg, devs, opens, p)
  }

  /** Only a config whose entries fit, none of them missed, is reached. */
  lemma {:induction false} ConvergedFits(t: Table, reg: Registry, devs: seq<Config>, opens: Config -> bool)
    requires Startable(t, reg) && Bounded(t.slots) && ValidConfig(reg, devs)
    ensures Converged(Reconfigure(t, reg, devs, opens), devs) ==> AllFit(devs) && NoneMissed(t, reg, opens, devs)
  {
    var u := Reconfigure(t, reg, devs, opens);
    hide Reconfigure, Startable, Bounded, ValidConfig, Settled, Missed, Fits, IsEntry;
    if !AllFit(devs) {
      ReconfigureBounded(t, reg, devs, opens);
      var k :| 0 <= k < |devs| && devs[k].enabled && !Fits(devs[k]);
      MisfitNotSettled(u.slots, devs[k]);
    } else if !NoneMissed(t, reg, opens, devs) {
      var k :| 0 <= k < |devs| && devs[k].enabled && Missed(t, reg, opens, devs[k]);
      MissedIsDead(t, reg, devs, opens, k);
      DeadStays(t, reg, devs, opens, devs[k]);
    }
  }

  /** A queued entry the config does not take up keeps it from converging. */
  lemma {:induction false} NotTakenUp(t: Table, reg: Registry, devs: seq<Config>, opens: Config -> bool, p: Config)
    requires Startable(t, reg) && Bounded(t.slots) && ValidConfig(reg, devs) && |devs| <= MAX_DEVICES
    requires Queued(t.pend, p) && !TakenUp(t.slots, devs, p) && !Failing(t, reg, devs, opens, p)
    ensures !Converged(Reconfigure(t, reg, devs, opens), devs)
  {
    hide Reconfigure, Startable, Bounded, ValidConfig, Missed, TakenUp, Failing, Fits, Queued;
    if Converged(Reconfigure(t, reg, devs, opens), devs) {
      ConvergedFits(t, reg, devs, opens);
    }
    if AllFit(devs) && NoneMissed(t, reg, opens, devs) {
      NotTakenUpFits(t, reg, devs, opens, p);
    }
  }

  lemma {:induction false} NotTakenUpFits(t: Table, reg: Registry, devs: seq<Config>, opens: Config -> bool, p: Config)
    requires Startable(t, reg) && ValidConfig(reg, devs) && |devs| <= MAX_DEVICES && AllFit(devs)
    requires NoneMissed(t, reg, opens, devs)
    requires Queued(t.pend, p) && !TakenUp(t.slots, devs, p) && !Failing(t, reg, devs, opens, p)
    ensures !Converged(Reconfigure(t, reg, devs, opens), devs)
  {
    var u := Reconfigure(t, reg, devs, opens);
    if UuidInUse(t.slots, p.uuid) {
      var s :| 0 <= s < |t.slots| && t.slots[s].inUse && t.slots[s].uuid == p.uuid
        && GoesOn(t.slots[s], devs) && (!t.slots[s].stop || Wanted(devs, p.uuid) != Some(p));
      NotTakenUpInUse(t, reg, devs, opens, p, s);
    } else if Stray(t.slots, devs, p) {
      hide Reconfigure, ValidConfig, AllFit, NoneMissed, UuidInUse;
      StrayStays(t, reg, devs, opens, p);
      LingersNotConverged(u, devs, p);
    } else {
      var k :| 0 <= k < |devs| && devs[k].enabled && devs[k].uuid == p.uuid;
      NotTakenUpAdded(t, reg, devs, opens, p, k);
    }
  }

  lemma {:induction false} StillQueued(u: Table, devs: seq<Config>, uuid: string)
    requires PendUuid(u.pend, uuid)
    ensures !Converged(u, devs)
  {
    var i :| 0 <= i < |u.pend| && u.pend[i].used && u.pend[i].dev.uuid == uuid;
    assert u.pend[i].used;
  }

  lemma {:induction false} NotTakenUpInUse(
      t: Table, reg: Registry, devs: seq<Config>, opens: Config -> bool, p: Config, s: nat)
    requires Startable(t, reg) && ValidConfig(reg, devs) && |devs| <= MAX_DEVICES && AllFit(devs)
    requires Queued(t.pend, p) && s < |t.slots| && t.slots[s].inUse && t.slots[s].uuid == p.uuid
    requires GoesOn(t.slots[s], devs) && (!t.slots[s].stop || Wanted(devs, p.uuid) != Some(p))
    ensures !Converged(Reconfigure(t, reg, devs, opens), devs)
  {
    var u := Reconfigure(t, reg, devs, opens);
    assert EntryOk(reg, p);
    if !t.slots[s].stop {
      hide Reconfigure, Stuck, ValidConfig, AllFit, GoesOn, UsedCount, InUseCount;
      RunningIsStuck(t, reg, devs, opens, s, p);
      StuckStays(t, reg, devs, opens, p.uuid);
      StillQueued(u, devs, p.uuid);
    } else {
      var e := Wanted(devs, p.uuid).value;
      var k :| 0 <= k < |devs| && devs[k] == e;
      ValidApart(reg, devs);
      WantedIs(devs, k);
      StartPatched(t, reg, devs);
      PatchIs(t, devs);
      OutdatedIsDead(t, Patch(t, devs, |t.slots|), devs, s, p, e);
      hide Reconfigure, ValidConfig, AllFit, Patch, UsedCount, InUseCount, DyingCount, QueuedAfter, Patched;
      DeadStays(t, reg, devs, opens, e);
    }
  }

  lemma {:induction false} NotTakenUpAdded(
      t: Table, reg: Registry, devs: seq<Config>, opens: Config -> bool, p: Config, k: nat)
    requires Startable(t, reg) && ValidConfig(reg, devs) && |devs| <= MAX_DEVICES && AllFit(devs)
    requires NoneMissed(t, reg, opens, devs) && k < |devs| && devs[k].enabled && devs[k].uuid == p.uuid
    requires Queued(t.pend, p) && !UuidInUse(t.slots, p.uuid) && !TakenUp(t.slots, devs, p)
    ensures !Converged(Reconfigure(t, reg, devs, opens), devs)
  {
    var v := Patch(t, devs, |t.slots|);
    assert EntryOk(reg, p) && EntryOk(reg, devs[k]);
    ValidApart(reg, devs);
    WantedIs(devs, k);
    StartPatched(t, reg, devs);
    PatchIs(t, devs);
    PatchedUses(v.slots, t.slots, devs, p.uuid);
    NotHeldIsFree(v.slots, t.slots, devs, devs[k].name);
    QueuedHasUuid(v.pend, p);
    NotInUseNotGoing(t.slots, devs[k]);
    assert Spared(t.slots, devs, |t.slots|, p.uuid);
    assert Queued(v.pend, p);
    hide Patch, ValidConfig, AllFit, InUseCount, UsedCount, DyingCount, QueuedAfter, Patched, Wanted, UuidInUse,
      NameTaken, NameHeld, EntryOk;
    assert Stuck(Apply(t, reg, devs, opens), p.uuid) by {
      AddedIsStuck(v, reg, devs, opens, k);
    }
    hide Stuck, Apply, Reconfigure;
    StuckStays(t, reg, devs, opens, p.uuid);
    StillQueued(Reconfigure(t, reg, devs, opens), devs, p.uuid);
  }

  lemma {:induction false} NotInUseNotGoing(slots: seq<Slot>, e: Config)
    requires !UuidInUse(slots, e.uuid) && e.uuid != ""
    ensures !Goes(slots, e)
  {}

  lemma {:induction false} NotHeldIsFree(slots: seq<Slot>, start: seq<Slot>, devs: seq<Config>, name: string)
    requires Patched(slots, start, devs) && !NameHeld(start, devs, name)
    ensures !NameTaken(slots, name, -1)
  {
    hide Wanted, IdentityChanged;
    forall s | 0 <= s < |slots| && slots[s].inUse ensures slots[s].name != name {
      assert slots[s] == PatchedSlot(start[s], devs);
    }
  }

  /** What a reconfiguration reaches when the queue is taken up: nothing is
      pending or stopping, only entries are live, and exactly the enabled entries
      that were not missed. */
  lemma {:induction false} ReconfigureSettles(t: Table, reg: Registry, devs: seq<Config>, opens: Config -> bool)
    requires Startable(t, reg) && Accepted(t, reg, devs) && |devs| <= MAX_DEVICES
    requires AllFit(devs) && QueueTakenUp(t, devs)
    ensures var u := Reconfigure(t, reg, devs, opens);
      && NothingPending(u.pend) && UuidsDistinct(u.slots)
      && (forall s :: 0 <= s < |u.slots| && u.slots[s].inUse ==> IsEntry(u.slots[s], devs))
      && (forall k :: 0 <= k < |devs| && devs[k].enabled ==>
            (Settled(u.slots, devs[k]) <==> !Missed(t, reg, opens, devs[k])))
  {
    hide Reconfigure, Startable, ValidConfig, AllFit, QueueTakenUp, Settled, Missed;
    ReconfigureRests(t, reg, devs, opens);
    forall k | 0 <= k < |devs| && devs[k].enabled && Missed(t, reg, opens, devs[k])
      ensures !Settled(Reconfigure(t, reg, devs, opens).slots, devs[k])
    {
      MissedIsDead(t, reg, devs, opens, k);
      DeadStays(t, reg, devs, opens, devs[k]);
    }
  }

  /** The config is reached exactly when its entries fit a slot, what is queued
      is taken up, and no entry is missed; an entry that is dropped when its turn
      comes is the one thing that may be queued besides. */
  lemma {:induction false} ConvergesExactlyWhen(t: Table, reg: Registry, devs: seq<Config>, opens: Config -> bool)
    requires Startable(t, reg) && Bounded(t.slots) && Accepted(t, reg, devs) && |devs| <= MAX_DEVICES
    ensures AllFit(devs) && QueueTakenUp(t, devs) && NoneMissed(t, reg, opens, devs) ==>
      Converged(Reconfigure(t, reg, devs, opens), devs)
    ensures Converged(Reconfigure(t, reg, devs, opens), devs) ==>
      && AllFit(devs) && NoneMissed(t, reg, opens, devs)
      && forall p :: Queued(t.pend, p) ==> TakenUp(t.slots, devs, p) || Failing(t, reg, devs, opens, p)
    ensures StraysOpen(t, reg, devs, opens) ==>
      (Converged(Reconfigure(t, reg, devs, opens), devs)
       <==> AllFit(devs) && QueueTakenUp(t, devs) && NoneMissed(t, reg, opens, devs))
  {
    var u := Reconfigure(t, reg, devs, opens);
    hide Reconfigure, Startable, Bounded, ValidConfig, NoConflict, Settled, Missed, TakenUp, Failing, Fits, IsEntry;
    ConvergedFits(t, reg, devs, opens);
    forall p | Queued(t.pend, p) && !TakenUp(t.slots, devs, p) && !Failing(t, reg, devs, opens, p)
      ensures !Converged(u, devs)
    {
      NotTakenUp(t, reg, devs, opens, p);
    }
    if AllFit(devs) && QueueTakenUp(t, devs) && NoneMissed(t, reg, opens, devs) {
      ReconfigureSettles(t, reg, devs, opens);
    }
  }

  // ----- What apply answers -----

  /** Whether anything is still to come. */
  predicate StillPending(t: Table) {
    !NoneDying(t.slots) || !NothingPending(t.pend)
  }

  /** What is queued and not taken up stays queued. */
  lemma {:induction false} NotTakenUpPends(t: Table, reg: Registry, devs: seq<Config>, opens: Config -> bool, p: Config)
    requires Startable(t, reg) && ValidConfig(reg, devs) && Queued(t.pend, p) && !TakenUp(t.slots, devs, p)
    ensures StillPending(Apply(t, reg, devs, opens))
  {
    var v := Patch(t, devs, |t.slots|);
    StartPatched(t, reg, devs);
    assert Spared(t.slots, devs, |t.slots|, p.uuid) by {
      SparedUnlessTakenUp(t.slots, devs, p, reg);
    }
    assert Queued(v.pend, p);
    hide Patch, AddAll, ValidConfig, InUseCount, UsedCount, DyingCount, QueuedAfter, Queued, Spared, UuidsDistinct,
      PendDistinct;
    QueuedHasUuid(v.pend, p);
    AddAllKeepsUuid(v, reg, devs, opens, |devs|, p.uuid);
    var a := Apply(t, reg, devs, opens);
    var i :| 0 <= i < |a.pend| && a.pend[i].used && a.pend[i].dev.uuid == p.uuid;
    assert a.pend[i].used;
  }

  lemma {:induction false} SparedUnlessTakenUp(slots: seq<Slot>, devs: seq<Config>, p: Config, reg: Registry)
    requires UuidsDistinct(slots) && !TakenUp(slots, devs, p) && EntryOk(reg, p)
    ensures Spared(slots, devs, |slots|, p.uuid)
  {
    hide GoesOn, NameHeld, Wanted;
    if UuidInUse(slots, p.uuid) {
      var s :| 0 <= s < |slots| && slots[s].inUse && slots[s].uuid == p.uuid
        && GoesOn(slots[s], devs) && (!slots[s].stop || Wanted(devs, p.uuid) != Some(p));
      forall k | 0 <= k < |slots| && slots[k].inUse && slots[k].uuid == p.uuid ensures GoesOn(slots[k], devs) {
        assert k == s;
      }
    }
  }

  lemma {:induction false} MidwayIsConverged(
      u: Table, start: Table, reg: Registry, opens: Config -> bool, devs: seq<Config>)
    requires Midway(u, start, reg, opens, devs, |devs|) && !StillPending(u) && NoneMissed(start, reg, opens, devs)
    ensures Converged(u, devs)
  {
    RestingInUse(u, devs);
    hide InUseCount, UsedCount, IsEntry, Missed, Settled, UuidInUse, LiveUuid, Known, Going, PendDistinct;
    forall k | 0 <= k < |devs| && devs[k].enabled ensures Settled(u.slots, devs[k]) {
      assert Handled(u, devs[k]);
    }
  }

  lemma {:induction false} ConvergedRests(u: Table, devs: seq<Config>)
    requires Converged(u, devs)
    ensures !StillPending(u)
  {
    forall s | 0 <= s < |u.slots| ensures !Dying(u.slots[s]) {
      if u.slots[s].inUse {
        assert IsEntry(u.slots[s], devs);
      }
    }
  }

  lemma {:induction false} ApplyBounded(t: Table, reg: Registry, devs: seq<Config>, opens: Config -> bool)
    requires Bounded(t.slots)
    ensures Bounded(Apply(t, reg, devs, opens).slots)
  {
    PatchPointwise(t, devs, |t.slots|);
    AddAllBounded(Patch(t, devs, |t.slots|), reg, devs, opens, |devs|);
  }

  /** Apply's answer that nothing is to come means that the config is reached if
      and only if its entries fit and none is missed; and it answers so whenever
      the config is reached. */
  lemma {:induction false} NothingToComeExactlyWhen(t: Table, reg: Registry, devs: seq<Config>, opens: Config -> bool)
    requires Startable(t, reg) && Bounded(t.slots) && Accepted(t, reg, devs) && |devs| <= MAX_DEVICES
    ensures Converged(Apply(t, reg, devs, opens), devs)
       <==> !StillPending(Apply(t, reg, devs, opens)) && AllFit(devs) && NoneMissed(t, reg, opens, devs)
  {
    var u := Apply(t, reg, devs, opens);
    hide Apply, Startable, Bounded, ValidConfig, NoConflict, Settled, Missed, TakenUp, Fits, Midway, StillPending,
      IsEntry;
    if !AllFit(devs) {
      ApplyBounded(t, reg, devs, opens);
      var k :| 0 <= k < |devs| && devs[k].enabled && !Fits(devs[k]);
      MisfitNotSettled(u.slots, devs[k]);
    } else if !NoneMissed(t, reg, opens, devs) {
      var k :| 0 <= k < |devs| && devs[k].enabled && Missed(t, reg, opens, devs[k]);
      MissedIsDead(t, reg, devs, opens, k);
      DeadStays(t, reg, devs, opens, devs[k]);
    } else {
      if !QueueTakenUp(t, devs) {
        var p :| Queued(t.pend, p) && !TakenUp(t.slots, devs, p);
        NotTakenUpPends(t, reg, devs, opens, p);
      } else {
        ApplyMidway(t, reg, opens, devs);
      }
      AnswerIsRight(t, u, reg, opens, devs);
    }
  }

  lemma {:induction false} AnswerIsRight(t: Table, u: Table, reg: Registry, opens: Config -> bool, devs: seq<Config>)
    requires StillPending(u) || Midway(u, t, reg, opens, devs, |devs|)
    requires NoneMissed(t, reg, opens, devs)
    ensures Converged(u, devs) <==> !StillPending(u)
  {
    hide StillPending, Converged, Midway, NoneMissed;
    if Converged(u, devs) {
      ConvergedRests(u, devs);
    } else if !StillPending(u) {
      MidwayIsConverged(u, t, reg, opens, devs);
    }
  }
}
