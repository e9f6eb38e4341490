/** What is queued when an apply begins, and the config does not take up: it
    stays queued behind a running device, or comes up as one the config does not
    want. */
module DevicesQueue {
  import opened Bytes
  import opened Devices
  import opened DevicesConverge
  import opened DevicesMissed
  import opened DevicesPatch
  import opened DevicesTables

  // ----- A queued entry that stays queued -----

  lemma {:induction false} QueueKeepsUuid(pend: seq<Pending>, x: Config, uuid: string)
    requires PendUuid(pend, uuid)
    ensures PendUuid(Queue(pend, x), uuid)
  {
    var i :| 0 <= i < |pend| && pend[i].used && pend[i].dev.uuid == uuid;
    var q := Queue(pend, x);
    assert q[i].used && q[i].dev.uuid == uuid;
  }

  lemma {:induction false} AddAllKeepsUuid(
      t: Table, reg: Registry, devs: seq<Config>, opens: Config -> bool, n: nat, uuid: string)
    requires n <= |devs| && PendUuid(t.pend, uuid)
    ensures PendUuid(AddAll(t, reg, devs, opens, n).pend, uuid)
  {
    hide Add, Queue, PendUuid;
    if n > 0 {
      var u, x := AddAll(t, reg, devs, opens, n - 1), devs[n - 1];
      AddAllKeepsUuid(t, reg, devs, opens, n - 1, uuid);
      AddWeight(u, reg, x, opens(x));
      QueueKeepsUuid(u.pend, x, uuid);
    }
  }

  /** Its uuid is running: it is never opened. */
  predicate Stuck(t: Table, uuid: string) {
    LiveUuid(t.slots, uuid) && PendUuid(t.pend, uuid)
  }

  lemma {:induction false} AddKeepsLive(t: Table, reg: Registry, p: Config, opens: bool, uuid: string)
    requires LiveUuid(t.slots, uuid)
    ensures LiveUuid(Add(t, reg, p, "", opens).0.slots, uuid)
  {
    var u := Add(t, reg, p, "", opens).0;
    var s :| 0 <= s < |t.slots| && Live(t.slots[s]) && t.slots[s].uuid == uuid;
    assert u.slots[s] == t.slots[s];
  }

  lemma {:induction false} AddAllLive(
      t: Table, reg: Registry, devs: seq<Config>, opens: Config -> bool, m: nat, n: nat, uuid: string)
    requires m <= n <= |devs| && LiveUuid(AddAll(t, reg, devs, opens, m).slots, uuid)
    ensures LiveUuid(AddAll(t, reg, devs, opens, n).slots, uuid)
    decreases n
  {
    hide Add, Queue, LiveUuid;
    if n > m {
      var u, x := AddAll(t, reg, devs, opens, n - 1), devs[n - 1];
      AddAllLive(t, reg, devs, opens, m, n - 1, uuid);
      AddKeepsLive(u, reg, x, opens(x), uuid);
    }
  }

  lemma {:induction false} UnqueueOther(pend: seq<Pending>, i: nat, uuid: string)
    requires i < |pend| && PendUuid(pend, uuid) && pend[i].dev.uuid != uuid
    ensures PendUuid(pend[i := pend[i].(used := false)], uuid)
  {
    var j :| 0 <= j < |pend| && pend[j].used && pend[j].dev.uuid == uuid;
    assert pend[i := pend[i].(used := false)][j] == pend[j];
  }

  lemma {:induction false} LiveIsInUse(slots: seq<Slot>, uuid: string)
    requires LiveUuid(slots, uuid) && uuid != ""
    ensures UuidInUse(slots, uuid)
  {}

  lemma {:induction false} ReopenStuck(t: Table, reg: Registry, opens: Config -> bool, i: nat, uuid: string)
    requires i < |t.pend| && Stuck(t, uuid) && uuid != ""
    ensures Stuck(Reopen(t, reg, opens, i), uuid)
  {
    hide Add, LiveUuid, PendUuid, UuidInUse;
    var p := t.pend[i];
    LiveIsInUse(t.slots, uuid);
    if p.used && p.dev.uuid != uuid {
      AddKeepsLive(t, reg, p.dev, opens(p.dev), uuid);
      AddWeight(t, reg, p.dev, opens(p.dev));
      UnqueueOther(t.pend, i, uuid);
    }
  }

  lemma {:induction false} ReopenAllStuck(t: Table, reg: Registry, opens: Config -> bool, n: nat, uuid: string)
    requires n <= |t.pend| && Stuck(t, uuid) && uuid != ""
    ensures Stuck(ReopenAll(t, reg, opens, n), uuid)
  {
    hide Stuck, Reopen;
    if n > 0 {
      ReopenAllStuck(t, reg, opens, n - 1, uuid);
      ReopenStuck(ReopenAll(t, reg, opens, n - 1), reg, opens, n - 1, uuid);
    }
  }

  /** What is stuck after the apply is queued at the end. */
  lemma {:induction false} StuckStays(t: Table, reg: Registry, devs: seq<Config>, opens: Config -> bool, uuid: string)
    requires Stuck(Apply(t, reg, devs, opens), uuid) && uuid != ""
    ensures PendUuid(Reconfigure(t, reg, devs, opens).pend, uuid)
  {
    var a := Apply(t, reg, devs, opens);
    ExitIs(a);
    var x := ExitDying(a, |a.slots|);
    GoneSame(x.slots, a.slots);
    hide Apply, ExitDying, LiveUuid, PendUuid, ReopenAll, Settled;
    ReopenAllStuck(x, reg, opens, |x.pend|, uuid);
  }

  /** A queued entry whose running device goes on. */
  lemma {:induction false} RunningIsStuck(
      t: Table, reg: Registry, devs: seq<Config>, opens: Config -> bool, s: nat, p: Config)
    requires Startable(t, reg) && ValidConfig(reg, devs) && Queued(t.pend, p)
    requires s < |t.slots| && Live(t.slots[s]) && t.slots[s].uuid == p.uuid && GoesOn(t.slots[s], devs)
    ensures Stuck(Apply(t, reg, devs, opens), p.uuid)
  {
    var u := Patch(t, devs, |t.slots|);
    StartPatched(t, reg, devs);
    PatchIs(t, devs);
    hide InUseCount, UsedCount, DyingCount, ValidConfig, Wanted, Patch, PendDistinct;
    assert Live(u.slots[s]) && u.slots[s].uuid == p.uuid;
    assert Spared(t.slots, devs, |t.slots|, p.uuid);
    assert Queued(u.pend, p);
    QueuedHasUuid(u.pend, p);
    AddAllKeepsUuid(u, reg, devs, opens, |devs|, p.uuid);
    assert AddAll(u, reg, devs, opens, 0) == u;
    hide AddAll;
    AddAllLive(u, reg, devs, opens, 0, |devs|, p.uuid);
  }

  // ----- An entry added while an old version of it is queued -----

  /** Not in use, and with its name free. */
  predicate Open(slots: seq<Slot>, e: Config) {
    !UuidInUse(slots, e.uuid) && !NameTaken(slots, e.name, -1)
  }

  lemma {:induction false} AddOther(t: Table, reg: Registry, x: Config, opens: bool, e: Config)
    requires Open(t.slots, e) && Fits(x) && x.uuid != "" && e.uuid != "" && x.uuid != e.uuid && x.name != e.name
    ensures Open(Add(t, reg, x, "", opens).0.slots, e)
  {
    var u := Add(t, reg, x, "", opens).0;
    var k := FirstFree(t.slots);
    forall s | 0 <= s < |u.slots| && u.slots[s].inUse ensures u.slots[s].uuid != e.uuid && u.slots[s].name != e.name {
      if s != k {
        assert u.slots[s] == t.slots[s];
      }
    }
  }

  lemma {:induction false} AddAllCount(t: Table, reg: Registry, devs: seq<Config>, opens: Config -> bool, n: nat)
    requires n <= |devs|
    ensures var u := AddAll(t, reg, devs, opens, n);
      && InUseCount(u.slots) <= InUseCount(t.slots) + n
      && InUseCount(u.slots) + UsedCount(u.pend) <= InUseCount(t.slots) + UsedCount(t.pend) + n
      && DyingCount(u.slots) == DyingCount(t.slots)
  {
    hide Add, Queue, InUseCount, UsedCount, DyingCount;
    if n > 0 {
      var u, x := AddAll(t, reg, devs, opens, n - 1), devs[n - 1];
      AddAllCount(t, reg, devs, opens, n - 1);
      AddWeight(u, reg, x, opens(x));
      QueueCounts(u.pend, x);
    }
  }

  lemma {:induction false} QueueCounts(pend: seq<Pending>, x: Config)
    ensures UsedCount(Queue(pend, x)) <= UsedCount(pend) + 1
  {
    var at, free := QueuedAt(pend, x.uuid), FirstUnused(pend);
    if at < |pend| {
      CountPend(pend, at, pend[at].(dev := x));
    } else if free < |pend| {
      CountPend(pend, free, Pending(true, x));
    }
  }

  lemma {:induction false} StaysOpen(t: Table, reg: Registry, devs: seq<Config>, opens: Config -> bool, k: nat, n: nat)
    requires n <= k < |devs| && ValidConfig(reg, devs) && AllFit(devs) && devs[k].enabled && Open(t.slots, devs[k])
    ensures Open(AddAll(t, reg, devs, opens, n).slots, devs[k])
    decreases n
  {
    hide Add, Queue, Open;
    if n > 0 {
      var u, x := AddAll(t, reg, devs, opens, n - 1), devs[n - 1];
      StaysOpen(t, reg, devs, opens, k, n - 1);
      assert EntryOk(reg, x) && EntryOk(reg, devs[k]) && PairOk(x, devs[k]);
      if x.enabled {
        AddOther(u, reg, x, opens(x), devs[k]);
      }
    }
  }

  /** The entry is added and what was queued under its uuid stays queued. */
  lemma {:induction false} AddedIsStuck(t: Table, reg: Registry, devs: seq<Config>, opens: Config -> bool, k: nat)
    requires ValidConfig(reg, devs) && AllFit(devs) && k < |devs| <= MAX_DEVICES && devs[k].enabled
    requires |t.slots| == SLOTS && InUseCount(t.slots) <= MAX_DEVICES
    requires Open(t.slots, devs[k]) && PendUuid(t.pend, devs[k].uuid) && (reg.loaded ==> opens(devs[k]))
    ensures Stuck(AddAll(t, reg, devs, opens, |devs|), devs[k].uuid)
  {
    var u, e := AddAll(t, reg, devs, opens, k), devs[k];
    assert EntryOk(reg, e) && Fits(e);
    StaysOpen(t, reg, devs, opens, k, k);
    AddAllCount(t, reg, devs, opens, k);
    hide ValidConfig, AllFit, Add, InUseCount, UsedCount, DyingCount, PendUuid;
    AddOutcome(u, reg, e, opens(e));
    var v := Add(u, reg, e, "", opens(e)).0;
    assert v.slots[FirstFree(u.slots)].uuid == e.uuid && Live(v.slots[FirstFree(u.slots)]);
    assert AddAll(t, reg, devs, opens, k + 1) == v;
    hide AddAll;
    AddAllLive(t, reg, devs, opens, k + 1, |devs|, e.uuid);
    AddAllKeepsUuid(t, reg, devs, opens, |devs|, e.uuid);
  }

  // ----- A queued entry the config does not want -----

  /** It is queued, and its uuid is neither in use nor an enabled entry's. */
  predicate Stray(slots: seq<Slot>, devs: seq<Config>, p: Config) {
    && !UuidInUse(slots, p.uuid)
    && forall k :: 0 <= k < |devs| && devs[k].enabled ==> devs[k].uuid != p.uuid
  }

  lemma {:induction false} AddOtherUuid(t: Table, reg: Registry, x: Config, opens: bool, uuid: string)
    requires !UuidInUse(t.slots, uuid) && Fits(x) && x.uuid != "" && x.uuid != uuid
    ensures !UuidInUse(Add(t, reg, x, "", opens).0.slots, uuid)
  {
    var u := Add(t, reg, x, "", opens).0;
    var k := FirstFree(t.slots);
    if uuid != "" {
      forall s | 0 <= s < |u.slots| && u.slots[s].inUse ensures u.slots[s].uuid != uuid {
        if s != k {
          assert u.slots[s] == t.slots[s];
        }
      }
    }
  }

  lemma {:induction false} QueueKeepsOther(pend: seq<Pending>, x: Config, p: Config)
    requires Queued(pend, p) && x.uuid != p.uuid
    ensures Queued(Queue(pend, x), p)
  {
    var i :| 0 <= i < |pend| && pend[i] == Pending(true, p);
    assert Queue(pend, x)[i] == pend[i];
  }

  lemma {:induction false} AddAllStray(
      t: Table, reg: Registry, devs: seq<Config>, opens: Config -> bool, n: nat, p: Config)
    requires n <= |devs| && ValidConfig(reg, devs) && AllFit(devs) && Stray(t.slots, devs, p) && Queued(t.pend, p)
    ensures var u := AddAll(t, reg, devs, opens, n); Stray(u.slots, devs, p) && Queued(u.pend, p)
  {
    hide Add, Queue, Queued, UuidInUse, PairOk;
    if n > 0 {
      var u, x := AddAll(t, reg, devs, opens, n - 1), devs[n - 1];
      AddAllStray(t, reg, devs, opens, n - 1, p);
      assert EntryOk(reg, x);
      if x.enabled {
        AddOtherUuid(u, reg, x, opens(x), p.uuid);
        AddWeight(u, reg, x, opens(x));
        QueueKeepsOther(u.pend, x, p);
      }
    }
  }

  lemma {:induction false} AddAllDistinct(t: Table, reg: Registry, devs: seq<Config>, opens: Config -> bool, n: nat)
    requires n <= |devs| && PendDistinct(t.pend)
    ensures PendDistinct(AddAll(t, reg, devs, opens, n).pend)
  {
    hide Add, Queue, PendDistinct;
    if n > 0 {
      var u, x := AddAll(t, reg, devs, opens, n - 1), devs[n - 1];
      AddAllDistinct(t, reg, devs, opens, n - 1);
      AddWeight(u, reg, x, opens(x));
      QueueDistinct(u.pend, x);
    }
  }

  lemma {:induction false} QueueDistinct(pend: seq<Pending>, x: Config)
    requires PendDistinct(pend)
    ensures PendDistinct(Queue(pend, x))
  {
    var q, at, free := Queue(pend, x), QueuedAt(pend, x.uuid), FirstUnused(pend);
    forall i, j | 0 <= i < j < |q| && q[i].used && q[j].used ensures q[i].dev.uuid != q[j].dev.uuid {
      assert i != at && i != free ==> q[i] == pend[i];
      assert j != at && j != free ==> q[j] == pend[j];
    }
  }

  /** Waiting still, or opened. */
  predicate Lingers(t: Table, p: Config) {
    (Queued(t.pend, p) && PendDistinct(t.pend)) || UuidInUse(t.slots, p.uuid)
  }

  /** One apply_pending moves at most one place's entry to a slot. */
  lemma {:induction false} ReopenCounts(t: Table, reg: Registry, opens: Config -> bool, i: nat)
    requires i < |t.pend|
    ensures var u := Reopen(t, reg, opens, i);
      InUseCount(u.slots) + UsedCount(u.pend) <= InUseCount(t.slots) + UsedCount(t.pend)
  {
    var p := t.pend[i];
    AddWeight(t, reg, p.dev, opens(p.dev));
    CountPend(t.pend, i, p.(used := false));
    hide Add, InUseCount, UsedCount, DyingCount;
  }

  lemma {:induction false} SomeUsed(pend: seq<Pending>, i: nat)
    requires i < |pend| && pend[i].used
    ensures UsedCount(pend) > 0
  {
    CountPend(pend, i, Pending(false, pend[i].dev));
  }

  lemma {:induction false} ReopenLingers(t: Table, reg: Registry, opens: Config -> bool, i: nat, p: Config)
    requires i < |t.pend| && |t.slots| == SLOTS && Lingers(t, p) && p.uuid != ""
    requires EntryOk(reg, p) && p.enabled && Fits(p) && (reg.loaded ==> opens(p))
    requires InUseCount(t.slots) + UsedCount(t.pend) <= SLOTS
    ensures Lingers(Reopen(t, reg, opens, i), p)
  {
    var q := t.pend[i];
    if UuidInUse(t.slots, p.uuid) {
      AddKeepsUse(t, reg, q.dev, opens(q.dev), p.uuid);
      hide Add, Queued, PendDistinct, UuidInUse;
    } else if q.used {
      AddWeight(t, reg, q.dev, opens(q.dev));
      if q.dev.uuid == p.uuid {
        QueuedOnce(t.pend, i, p);
        SomeUsed(t.pend, i);
        hide InUseCount, UsedCount, Add, Queued, PendDistinct;
        AddOutcome(t, reg, p, opens(p));
        OpenedIsInUse(t, reg, p, opens(p));
      } else {
        OtherUnqueued(t.pend, i, p);
      }
    }
  }

  lemma {:induction false} OpenedIsInUse(t: Table, reg: Registry, p: Config, opens: bool)
    requires Fits(p) && p.uuid != ""
    ensures Add(t, reg, p, "", opens).1 == Added ==> UuidInUse(Add(t, reg, p, "", opens).0.slots, p.uuid)
  {
    var u, k := Add(t, reg, p, "", opens).0, FirstFree(t.slots);
    if Add(t, reg, p, "", opens).1 == Added {
      assert u.slots[k].inUse && u.slots[k].uuid == p.uuid;
    }
  }

  lemma {:induction false} OtherUnqueued(pend: seq<Pending>, i: nat, p: Config)
    requires i < |pend| && PendDistinct(pend) && Queued(pend, p) && pend[i].dev.uuid != p.uuid
    ensures var r := pend[i := pend[i].(used := false)]; PendDistinct(r) && Queued(r, p)
  {
    var j :| 0 <= j < |pend| && pend[j] == Pending(true, p);
    assert pend[i := pend[i].(used := false)][j] == pend[j];
  }

  lemma {:induction false} ReopenAllLingers(t: Table, reg: Registry, opens: Config -> bool, n: nat, p: Config)
    requires n <= |t.pend| && |t.slots| == SLOTS && Lingers(t, p) && p.uuid != ""
    requires EntryOk(reg, p) && p.enabled && Fits(p) && (reg.loaded ==> opens(p))
    requires InUseCount(t.slots) + UsedCount(t.pend) <= SLOTS
    ensures var u := ReopenAll(t, reg, opens, n);
      Lingers(u, p) && InUseCount(u.slots) + UsedCount(u.pend) <= SLOTS
  {
    hide Lingers, EntryOk, Fits, Reopen, InUseCount, UsedCount;
    if n > 0 {
      var u := ReopenAll(t, reg, opens, n - 1);
      ReopenAllLingers(t, reg, opens, n - 1, p);
      ReopenLingers(u, reg, opens, n - 1, p);
      ReopenCounts(u, reg, opens, n - 1);
    }
  }

  /** After the exits no more are in use or queued than there are slots. */
  lemma {:induction false} ExitCounts(t: Table, reg: Registry, devs: seq<Config>, opens: Config -> bool)
    requires Startable(t, reg) && ValidConfig(reg, devs) && |devs| <= MAX_DEVICES
    ensures var a := Apply(t, reg, devs, opens); var x := ExitDying(a, |a.slots|);
      InUseCount(x.slots) + UsedCount(x.pend) <= SLOTS
  {
    var p := Patch(t, devs, |t.slots|);
    StartPatched(t, reg, devs);
    AddAllCount(p, reg, devs, opens, |devs|);
    var a := Apply(t, reg, devs, opens);
    ExitIs(a);
    hide InUseCount, UsedCount, DyingCount, Patch, AddAll, ExitDying, QueuedAfter, Queued, PendDistinct, UuidsDistinct;
    CountGone(a.slots, ExitDying(a, |a.slots|).slots);
  }

  lemma {:induction false} StrayStays(t: Table, reg: Registry, devs: seq<Config>, opens: Config -> bool, p: Config)
    requires Startable(t, reg) && ValidConfig(reg, devs) && |devs| <= MAX_DEVICES && AllFit(devs)
    requires Queued(t.pend, p) && Stray(t.slots, devs, p) && (reg.loaded ==> opens(p))
    ensures Lingers(Reconfigure(t, reg, devs, opens), p)
  {
    var u := Patch(t, devs, |t.slots|);
    PatchIs(t, devs);
    StartPatched(t, reg, devs);
    PatchedUses(u.slots, t.slots, devs, p.uuid);
    ExitCounts(t, reg, devs, opens);
    StrayIsSpared(t.slots, devs, p);
    hide Patch, AddAll, InUseCount, UsedCount, DyingCount, UuidInUse, LiveUuid, Patched, Queued, ValidConfig, AllFit,
      Fits, EntryOk;
    AddAllStray(u, reg, devs, opens, |devs|, p);
    AddAllDistinct(u, reg, devs, opens, |devs|);
    var a := Apply(t, reg, devs, opens);
    ExitIs(a);
    var x := ExitDying(a, |a.slots|);
    hide ExitDying, PendDistinct, ReopenAll, Stray;
    ReopenAllLingers(x, reg, opens, |x.pend|, p);
  }

  lemma {:induction false} StrayIsSpared(slots: seq<Slot>, devs: seq<Config>, p: Config)
    requires Stray(slots, devs, p) && p.uuid != ""
    ensures Spared(slots, devs, |slots|, p.uuid)
  {}

  lemma {:induction false} LingersNotConverged(u: Table, devs: seq<Config>, p: Config)
    requires Lingers(u, p) && forall k :: 0 <= k < |devs| && devs[k].enabled ==> devs[k].uuid != p.uuid
    ensures !Converged(u, devs)
  {
    if Queued(u.pend, p) {
      var i :| 0 <= i < |u.pend| && u.pend[i] == Pending(true, p);
      assert u.pend[i].used;
    } else {
      var s :| 0 <= s < |u.slots| && u.slots[s].inUse && u.slots[s].uuid == p.uuid;
      assert !IsEntry(u.slots[s], devs);
    }
  }
}
