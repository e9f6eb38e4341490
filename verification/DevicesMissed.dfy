/** An entry that is missed by a reconfiguration, and stays without a running
    device to its end. */
module DevicesMissed {
  import opened Bytes
  import opened Devices
  import opened DevicesConverge
  import opened DevicesPatch
  import opened DevicesTables

  // ----- An entry that gets no running device -----

  /** Not running, and not to be: it will not come out of the queue. */
  predicate Doomed(t: Table, reg: Registry, opens: Config -> bool, e: Config) {
    !Settled(t.slots, e) && (Queued(t.pend, e) ==> reg.loaded && !opens(e))
  }

  /** ... nor will the second pass add it. */
  predicate Dead(t: Table, reg: Registry, opens: Config -> bool, e: Config) {
    && !Settled(t.slots, e)
    && ((UuidInUse(t.slots, e.uuid) && !Queued(t.pend, e)) || (reg.loaded && !opens(e)))
  }

  /** Queued entries are enabled and survive a slot. */
  ghost predicate QueueFits(pend: seq<Pending>) {
    forall p :: Queued(pend, p) ==> Fits(p) && p.enabled
  }

  /** A slot made for one entry matches only that entry. */
  lemma {:induction false} MadeForOne(p: Config, e: Config, ctx: Option<nat>)
    requires Fits(p) && p.enabled && e.enabled && Matches(NewSlot(p, p.uuid, ctx), e)
    ensures p == e
  {}

  lemma {:induction false} QueueAdds(pend: seq<Pending>, x: Config, e: Config)
    requires Queued(Queue(pend, x), e)
    ensures e == x || Queued(pend, e)
  {
    var q := Queue(pend, x);
    var i :| 0 <= i < |q| && q[i] == Pending(true, e);
    if e != x {
      assert pend[i] == q[i];
    }
  }

  lemma {:induction false} QueueKeepsFits(pend: seq<Pending>, x: Config)
    requires QueueFits(pend) && Fits(x) && x.enabled
    ensures QueueFits(Queue(pend, x))
  {
    hide Queued, Queue;
    forall p | Queued(Queue(pend, x), p) ensures Fits(p) && p.enabled {
      QueueAdds(pend, x, p);
    }
  }

  /** Adding a device settles no other entry. */
  lemma {:induction false} AddSettles(t: Table, reg: Registry, p: Config, opens: bool, e: Config)
    requires Fits(p) && p.enabled && e.enabled && p.uuid != "" && !Settled(t.slots, e)
    requires p == e ==> reg.loaded && !opens
    ensures !Settled(Add(t, reg, p, "", opens).0.slots, e)
  {
    var u := Add(t, reg, p, "", opens).0;
    var k := FirstFree(t.slots);
    forall s | 0 <= s < |u.slots| ensures !Matches(u.slots[s], e) {
      if s != k || !u.slots[s].inUse {
        assert u.slots[s] == t.slots[s] || !u.slots[s].inUse;
      } else if Matches(u.slots[s], e) {
        MadeForOne(p, e, u.slots[s].ctx);
      }
    }
  }

  lemma {:induction false} AddKeepsUse(t: Table, reg: Registry, p: Config, opens: bool, uuid: string)
    requires UuidInUse(t.slots, uuid)
    ensures UuidInUse(Add(t, reg, p, "", opens).0.slots, uuid) && Add(t, reg, p, "", opens).0.pend == t.pend
  {
    var u := Add(t, reg, p, "", opens).0;
    var s :| 0 <= s < |t.slots| && t.slots[s].inUse && t.slots[s].uuid == uuid;
    assert u.slots[s] == t.slots[s];
  }

  lemma {:induction false} AddWantedDead(
      t: Table, reg: Registry, devs: seq<Config>, opens: Config -> bool, e: Config, x: Config)
    requires Dead(t, reg, opens, e) && e.enabled && x.uuid != "" && (x.enabled ==> Fits(x))
      && (x.uuid == e.uuid ==> x == e)
    ensures Dead(AddWanted(t, reg, x, opens), reg, opens, e)
  {
    hide Add, Queue, Fits, Settled, UuidInUse, Queued;
    if x.enabled && !UuidInUse(t.slots, x.uuid) {
      var u := Add(t, reg, x, "", opens(x)).0;
      AddSettles(t, reg, x, opens(x), e);
      AddWeight(t, reg, x, opens(x));
      if UuidInUse(t.slots, e.uuid) {
        AddKeepsUse(t, reg, x, opens(x), e.uuid);
      }
      if Queued(Queue(u.pend, x), e) {
        QueueAdds(u.pend, x, e);
      }
    }
  }

  lemma {:induction false} AddAllDead(
      t: Table, reg: Registry, devs: seq<Config>, opens: Config -> bool, e: Config, n: nat)
    requires n <= |devs| && ValidConfig(reg, devs) && AllFit(devs) && e in devs && e.enabled
    requires Dead(t, reg, opens, e)
    ensures Dead(AddAll(t, reg, devs, opens, n), reg, opens, e)
  {
    hide Dead, AddWanted;
    if n > 0 {
      AddAllDead(t, reg, devs, opens, e, n - 1);
      var x := devs[n - 1];
      var k :| 0 <= k < |devs| && devs[k] == e;
      assert EntryOk(reg, x);
      assert k != n - 1 ==> devs[if k < n - 1 then k else n - 1].uuid != devs[if k < n - 1 then n - 1 else k].uuid;
      AddWantedDead(AddAll(t, reg, devs, opens, n - 1), reg, devs, opens, e, x);
    }
  }

  lemma {:induction false} AddAllFits(t: Table, reg: Registry, devs: seq<Config>, opens: Config -> bool, n: nat)
    requires n <= |devs| && AllFit(devs) && QueueFits(t.pend)
    ensures QueueFits(AddAll(t, reg, devs, opens, n).pend)
  {
    hide Add, Queue, QueueFits, Fits;
    if n > 0 {
      var u, x := AddAll(t, reg, devs, opens, n - 1), devs[n - 1];
      AddAllFits(t, reg, devs, opens, n - 1);
      AddWeight(u, reg, x, opens(x));
      if x.enabled {
        QueueKeepsFits(u.pend, x);
      }
    }
  }

  lemma {:induction false} DeadIsDoomed(t: Table, reg: Registry, opens: Config -> bool, e: Config)
    requires Dead(t, reg, opens, e)
    ensures Doomed(t, reg, opens, e)
  {}

  lemma {:induction false} ExitDoomed(t: Table, reg: Registry, opens: Config -> bool, e: Config)
    requires Doomed(t, reg, opens, e)
    ensures Doomed(ExitDying(t, |t.slots|), reg, opens, e)
  {
    ExitIs(t);
    GoneSame(ExitDying(t, |t.slots|).slots, t.slots);
    hide Settled, Queued, Gone;
  }

  lemma {:induction false} UnqueueLess(pend: seq<Pending>, i: nat, e: Config)
    requires i < |pend| && Queued(pend[i := pend[i].(used := false)], e)
    ensures Queued(pend, e)
  {
    var r := pend[i := pend[i].(used := false)];
    var j :| 0 <= j < |r| && r[j] == Pending(true, e);
    assert j != i && pend[j] == r[j];
  }

  lemma {:induction false} ReopenDoomed(t: Table, reg: Registry, opens: Config -> bool, i: nat, e: Config)
    requires i < |t.pend| && Doomed(t, reg, opens, e) && QueueFits(t.pend) && QueueGiven(t.pend) && e.enabled
    ensures Doomed(Reopen(t, reg, opens, i), reg, opens, e)
    ensures QueueFits(Reopen(t, reg, opens, i).pend) && QueueGiven(Reopen(t, reg, opens, i).pend)
  {
    var p := t.pend[i];
    if p.used {
      QueuedIs(t.pend, i);
      hide Add, Settled, Fits, Queued, UuidInUse;
      AddSettles(t, reg, p.dev, opens(p.dev), e);
      AddWeight(t, reg, p.dev, opens(p.dev));
      forall x | Queued(t.pend[i := p.(used := false)], x) ensures Queued(t.pend, x) {
        UnqueueLess(t.pend, i, x);
      }
    }
  }

  ghost predicate QueueGiven(pend: seq<Pending>) {
    forall p :: Queued(pend, p) ==> p.uuid != ""
  }

  lemma {:induction false} ReopenAllDoomed(t: Table, reg: Registry, opens: Config -> bool, n: nat, e: Config)
    requires n <= |t.pend| && Doomed(t, reg, opens, e) && QueueFits(t.pend) && QueueGiven(t.pend) && e.enabled
    ensures var u := ReopenAll(t, reg, opens, n); Doomed(u, reg, opens, e) && QueueFits(u.pend) && QueueGiven(u.pend)
  {
    hide Doomed, QueueFits, QueueGiven, Reopen;
    if n > 0 {
      ReopenAllDoomed(t, reg, opens, n - 1, e);
      ReopenDoomed(ReopenAll(t, reg, opens, n - 1), reg, opens, n - 1, e);
    }
  }

  lemma {:induction false} QueuedHasUuid(pend: seq<Pending>, e: Config)
    ensures Queued(pend, e) ==> PendUuid(pend, e.uuid)
  {}

  lemma {:induction false} QueuedAlone(pend: seq<Pending>, p: Config, e: Config)
    requires PendDistinct(pend) && Queued(pend, p) && p.uuid == e.uuid && p != e
    ensures !Queued(pend, e)
  {
    var i :| 0 <= i < |pend| && pend[i] == Pending(true, p);
    forall j | 0 <= j < |pend| ensures pend[j] != Pending(true, e) {
      assert j != i && pend[j].used ==> pend[if i < j then i else j].dev.uuid != pend[if i < j then j else i].dev.uuid;
    }
  }

  // ----- From the start -----

  lemma {:induction false} PatchedFits(t: Table, reg: Registry, devs: seq<Config>)
    requires Startable(t, reg) && ValidConfig(reg, devs) && AllFit(devs)
    ensures QueueFits(Patch(t, devs, |t.slots|).pend) && QueueGiven(Patch(t, devs, |t.slots|).pend)
  {
    StartPatched(t, reg, devs);
    hide Patch, Queued, Spared, PendDistinct, InUseCount, UsedCount, DyingCount;
    var u := Patch(t, devs, |t.slots|);
    forall p | Queued(u.pend, p) ensures Fits(p) && p.enabled {
      if ChangingBefore(t.slots, devs, |t.slots|, p) {
        var k :| 0 <= k < |t.slots| && Changing(t.slots[k], devs, p);
        var j :| 0 <= j < |devs| && devs[j] == p;
      }
    }
  }

  /** An entry that is missed is dead after the first pass. */
  lemma {:induction false} MissedIsDead(t: Table, reg: Registry, devs: seq<Config>, opens: Config -> bool, k: nat)
    requires Startable(t, reg) && ValidConfig(reg, devs) && k < |devs| && devs[k].enabled
      && Missed(t, reg, opens, devs[k])
    ensures Dead(Patch(t, devs, |t.slots|), reg, opens, devs[k])
  {
    var u, e := Patch(t, devs, |t.slots|), devs[k];
    StartPatched(t, reg, devs);
    PatchIs(t, devs);
    ValidApart(reg, devs);
    WantedIs(devs, k);
    assert EntryOk(reg, e);
    hide Patch, ValidConfig, InUseCount, UsedCount, DyingCount, Wanted, EntryOk;
    if Lost(t, e) {
      LostIsDead(t, u, devs, e);
    } else {
      NotGoingNotSettled(t.slots, u.slots, devs, e);
    }
  }

  lemma {:induction false} NotGoingNotSettled(start: seq<Slot>, slots: seq<Slot>, devs: seq<Config>, e: Config)
    requires Patched(slots, start, devs) && Wanted(devs, e.uuid) == Some(e) && !Goes(start, e)
    ensures !Settled(slots, e)
  {
    hide Wanted, IdentityChanged;
    forall s | 0 <= s < |slots| ensures !Matches(slots[s], e) {
      assert slots[s] == PatchedSlot(start[s], devs);
    }
  }

  lemma {:induction false} LostIsDead(t: Table, u: Table, devs: seq<Config>, e: Config)
    requires Patched(u.slots, t.slots, devs) && UuidsDistinct(t.slots) && e.uuid != "" && Lost(t, e)
    requires QueuedAfter(u.pend, t, devs, |t.slots|) && Wanted(devs, e.uuid) == Some(e)
    ensures !Settled(u.slots, e) && UuidInUse(u.slots, e.uuid) && !Queued(u.pend, e)
  {
    hide Wanted, PendDistinct, IdentityChanged;
    var s :| 0 <= s < |t.slots| && Dying(t.slots[s]) && t.slots[s].uuid == e.uuid && !IdentityChanged(t.slots[s], e);
    assert u.slots[s] == PatchedSlot(t.slots[s], devs);
    assert u.slots[s].inUse && u.slots[s].uuid == e.uuid;
    forall i | 0 <= i < |u.slots| ensures !Matches(u.slots[i], e) {
      assert u.slots[i] == PatchedSlot(t.slots[i], devs);
    }
    forall i | 0 <= i < |t.slots| ensures !Changing(t.slots[i], devs, e) {}
    hide Patched, UuidsDistinct;
    QueuedHasUuid(t.pend, e);
  }

  /** A stopping device whose entry is queued in an older version. */
  lemma {:induction false} OutdatedIsDead(t: Table, u: Table, devs: seq<Config>, s: nat, p: Config, e: Config)
    requires Patched(u.slots, t.slots, devs) && UuidsDistinct(t.slots) && PendDistinct(t.pend) && e.uuid != ""
    requires QueuedAfter(u.pend, t, devs, |t.slots|) && Wanted(devs, e.uuid) == Some(e)
    requires s < |t.slots| && Dying(t.slots[s]) && t.slots[s].uuid == e.uuid && GoesOn(t.slots[s], devs)
    requires Queued(t.pend, p) && p.uuid == e.uuid && p != e
    ensures !Settled(u.slots, e) && UuidInUse(u.slots, e.uuid) && !Queued(u.pend, e)
  {
    hide Wanted, IdentityChanged;
    assert u.slots[s] == PatchedSlot(t.slots[s], devs);
    assert u.slots[s].inUse && u.slots[s].uuid == e.uuid;
    forall i | 0 <= i < |u.slots| ensures !Matches(u.slots[i], e) {
      assert u.slots[i] == PatchedSlot(t.slots[i], devs);
    }
    forall i | 0 <= i < |t.slots| ensures !Changing(t.slots[i], devs, e) {}
    hide Patched, UuidsDistinct;
    QueuedAlone(t.pend, p, e);
  }

  /** What is dead after the first pass is not running at the end. */
  lemma {:induction false} DeadStays(t: Table, reg: Registry, devs: seq<Config>, opens: Config -> bool, e: Config)
    requires Startable(t, reg) && ValidConfig(reg, devs) && AllFit(devs) && e in devs && e.enabled
    requires Dead(Patch(t, devs, |t.slots|), reg, opens, e)
    ensures !Settled(Reconfigure(t, reg, devs, opens).slots, e)
    ensures !Settled(Apply(t, reg, devs, opens).slots, e)
  {
    hide Startable, ValidConfig, AllFit, Dead, QueueFits, QueueGiven, AddAll, Patch, ExitDying, ReopenAll;
    var p := Patch(t, devs, |t.slots|);
    PatchedFits(t, reg, devs);
    AddAllDead(p, reg, devs, opens, e, |devs|);
    AddAllFits(p, reg, devs, opens, |devs|);
    AddAllGiven(p, reg, devs, opens, |devs|);
    var a := Apply(t, reg, devs, opens);
    DeadIsDoomed(a, reg, opens, e);
    ExitDoomed(a, reg, opens, e);
    ExitIs(a);
    var x := ExitDying(a, |a.slots|);
    ReopenAllDoomed(x, reg, opens, |x.pend|, e);
  }

  lemma {:induction false} AddAllGiven(t: Table, reg: Registry, devs: seq<Config>, opens: Config -> bool, n: nat)
    requires n <= |devs| && ValidConfig(reg, devs) && QueueGiven(t.pend)
    ensures QueueGiven(AddAll(t, reg, devs, opens, n).pend)
  {
    hide Add, Queue, PairOk;
    if n > 0 {
      var u, x := AddAll(t, reg, devs, opens, n - 1), devs[n - 1];
      AddAllGiven(t, reg, devs, opens, n - 1);
      AddWeight(u, reg, x, opens(x));
      assert EntryOk(reg, x);
      hide Queued;
      forall p | Queued(Queue(u.pend, x), p) ensures p.uuid != "" {
        QueueAdds(u.pend, x, p);
      }
    }
  }
}
