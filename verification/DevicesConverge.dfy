/** Reconfiguration settles: after an accepted apply, the stopped devices
    exiting and one apply_pending, the live devices are the enabled entries of
    the config but those that were missed, from any table whose queue the
    config takes up. */
module DevicesConverge {
  import opened Bytes
  import opened Devices
  import opened DevicesPatch
  import opened DevicesTables

  // ----- What is to be reached -----

  /** The entry survives the slot's shorter strings. */
  predicate Fits(e: Config) {
    |e.uuid| <= 36 && |e.kind| <= 15 && |e.driver| <= 15
  }

  predicate AllFit(devs: seq<Config>) {
    forall k :: 0 <= k < |devs| && devs[k].enabled ==> Fits(devs[k])
  }

  /** A live slot with the entry's identity. */
  predicate Matches(d: Slot, e: Config) {
    && Live(d) && d.uuid == e.uuid && d.name == e.name && d.kind == e.kind && d.driver == e.driver
    && d.bus == e.bus && d.endpoint == e.endpoint && d.active == e.active
  }

  predicate Settled(slots: seq<Slot>, e: Config) {
    exists s :: 0 <= s < |slots| && Matches(slots[s], e)
  }

  predicate IsEntry(d: Slot, devs: seq<Config>) {
    exists k :: 0 <= k < |devs| && devs[k].enabled && Matches(d, devs[k])
  }

  /** The live set is exactly the enabled entries, and nothing else is under
      way. */
  predicate Converged(t: Table, devs: seq<Config>) {
    && (forall k :: 0 <= k < |devs| && devs[k].enabled ==> Settled(t.slots, devs[k]))
    && (forall s :: 0 <= s < |t.slots| && t.slots[s].inUse ==> IsEntry(t.slots[s], devs))
    && UuidsDistinct(t.slots) && NothingPending(t.pend)
  }

  // ----- What can go wrong -----

  /** The entry's device is running as the entry has it, names aside. */
  predicate Goes(slots: seq<Slot>, e: Config) {
    exists s :: 0 <= s < |slots| && Live(slots[s]) && slots[s].uuid == e.uuid && !IdentityChanged(slots[s], e)
  }

  /** A device that is already stopping, whose entry has not changed and which
      is not queued: apply patches it and does not queue it again. */
  predicate Lost(t: Table, e: Config) {
    && !PendUuid(t.pend, e.uuid)
    && exists s :: 0 <= s < |t.slots| &&
         Dying(t.slots[s]) && t.slots[s].uuid == e.uuid && !IdentityChanged(t.slots[s], e)
  }

  /** The entry gets no running device: it is lost, or is to be opened and that fails. */
  predicate Missed(t: Table, reg: Registry, opens: Config -> bool, e: Config) {
    Lost(t, e) || (!Goes(t.slots, e) && reg.loaded && !opens(e))
  }

  predicate NoneMissed(t: Table, reg: Registry, opens: Config -> bool, devs: seq<Config>) {
    forall k :: 0 <= k < |devs| && devs[k].enabled ==> !Missed(t, reg, opens, devs[k])
  }

  /** After the first pass some slot in use has this name. */
  predicate NameHeld(slots: seq<Slot>, devs: seq<Config>, name: string) {
    exists s :: 0 <= s < |slots| && slots[s].inUse && PatchedSlot(slots[s], devs).name == name
  }

  /** A queued entry the config takes up: its device is told to stop, which
      cancels or replaces it; or is stopping, to come back just as the entry
      has it; or the second pass finds the entry's name held and queues it anew. */
  predicate TakenUp(slots: seq<Slot>, devs: seq<Config>, p: Config) {
    var want := Wanted(devs, p.uuid);
    if UuidInUse(slots, p.uuid) then
      forall s :: 0 <= s < |slots| && slots[s].inUse && slots[s].uuid == p.uuid ==>
        !GoesOn(slots[s], devs) || (slots[s].stop && want == Some(p))
    else
      want.Some? && want.value.enabled && NameHeld(slots, devs, want.value.name)
  }

  ghost predicate QueueTakenUp(t: Table, devs: seq<Config>) {
    forall p :: Queued(t.pend, p) ==> TakenUp(t.slots, devs, p)
  }

  /** Where a reconfiguration may start: at most 16 devices in use or queued, and
      what is queued was enabled in a config, and fits. */
  ghost predicate Startable(t: Table, reg: Registry) {
    && |t.slots| == 32 && |t.pend| == 32
    && UuidsDistinct(t.slots) && PendDistinct(t.pend)
    && (forall p :: Queued(t.pend, p) ==> EntryOk(reg, p) && p.enabled && Fits(p))
    && InUseCount(t.slots) + UsedCount(t.pend) <= 16
  }

  // ----- Between the passes and after -----

  predicate IsEnabled(e: Config, devs: seq<Config>, n: nat)
    requires n <= |devs|
  {
    exists k :: 0 <= k < n && devs[k] == e && e.enabled
  }

  /** Live slots and queued entries have one uuid each, none in both; what is
      live is an enabled entry. */
  ghost predicate Entries(t: Table, devs: seq<Config>) {
    && UuidsDistinct(t.slots) && PendDistinct(t.pend)
    && (forall s :: 0 <= s < |t.slots| && Live(t.slots[s]) ==> IsEntry(t.slots[s], devs))
    && (forall p :: Queued(t.pend, p) ==> !LiveUuid(t.slots, p.uuid))
  }

  /** An old version of an entry the second pass will come to and queue anew. */
  predicate Awaits(slots: seq<Slot>, devs: seq<Config>, n: nat, p: Config) {
    exists k :: n <= k < |devs| && devs[k].enabled && devs[k].uuid == p.uuid
      && !UuidInUse(slots, p.uuid) && NameTaken(slots, devs[k].name, -1)
  }

  predicate Ours(slots: seq<Slot>, devs: seq<Config>, n: nat, p: Config)
    requires n <= |devs|
  {
    || (IsEnabled(p, devs, |devs|) && (UuidInUse(slots, p.uuid) || IsEnabled(p, devs, n)))
    || Awaits(slots, devs, n, p)
  }

  ghost predicate Known(t: Table, devs: seq<Config>, n: nat)
    requires n <= |devs|
  {
    forall p :: Queued(t.pend, p) ==> Ours(t.slots, devs, n, p)
  }

  /** Taken care of: running, or queued to be. */
  predicate Handled(t: Table, e: Config) {
    Settled(t.slots, e) || Queued(t.pend, e)
  }

  predicate Progress(t: Table, start: Table, reg: Registry, opens: Config -> bool, devs: seq<Config>, n: nat) {
    forall k :: 0 <= k < |devs| && devs[k].enabled && (k < n || UuidInUse(t.slots, devs[k].uuid)) ==>
      Handled(t, devs[k]) || Missed(start, reg, opens, devs[k])
  }

  /** What ran at the start and goes on is running. */
  predicate Going(slots: seq<Slot>, start: seq<Slot>, devs: seq<Config>) {
    forall k :: 0 <= k < |devs| && devs[k].enabled && Goes(start, devs[k]) ==> LiveUuid(slots, devs[k].uuid)
  }

  /** Where the second pass stands after n entries of an apply on `start`. */
  ghost predicate Midway(t: Table, start: Table, reg: Registry, opens: Config -> bool, devs: seq<Config>, n: nat)
    requires n <= |devs|
  {
    && |t.slots| == 32 && |t.pend| == 32
    && Entries(t, devs) && Known(t, devs, n) && Progress(t, start, reg, opens, devs, n)
      && Going(t.slots, start.slots, devs)
    && InUseCount(t.slots) <= MAX_DEVICES + n && UsedCount(t.pend) <= MAX_DEVICES + n
  }

  // ----- After the first pass -----

  predicate AllApart(devs: seq<Config>) {
    forall i, j :: 0 <= i < j < |devs| ==> devs[i].uuid != devs[j].uuid
  }

  /** A device the first pass leaves live has become its entry. */
  lemma {:induction false} PatchedIsEntry(d: Slot, reg: Registry, devs: seq<Config>)
    requires ValidConfig(reg, devs) && Live(PatchedSlot(d, devs))
    ensures IsEntry(PatchedSlot(d, devs), devs)
  {
    var want := Wanted(devs, d.uuid).value;
    var k :| 0 <= k < |devs| && devs[k] == want;
    assert EntryOk(reg, devs[k]);
    assert Matches(PatchedSlot(d, devs), devs[k]);
  }

  predicate Patched(slots: seq<Slot>, start: seq<Slot>, devs: seq<Config>) {
    |slots| == |start| && forall i :: 0 <= i < |start| ==> slots[i] == PatchedSlot(start[i], devs)
  }

  lemma {:induction false} PatchIs(t: Table, devs: seq<Config>)
    ensures Patched(Patch(t, devs, |t.slots|).slots, t.slots, devs)
  {
    PatchPointwise(t, devs, |t.slots|);
  }

  /** The pass keeps who is in use; live after it is who went on. */
  lemma {:induction false} PatchedUses(slots: seq<Slot>, start: seq<Slot>, devs: seq<Config>, uuid: string)
    requires Patched(slots, start, devs)
    ensures UuidInUse(slots, uuid) <==> UuidInUse(start, uuid)
    ensures LiveUuid(slots, uuid) ==>
      exists s :: 0 <= s < |start| && Live(start[s]) && start[s].uuid == uuid && GoesOn(start[s], devs)
  {
    hide Wanted;
    if UuidInUse(start, uuid) {
      var s :| 0 <= s < |start| && start[s].inUse && start[s].uuid == uuid;
      assert slots[s].inUse && slots[s].uuid == uuid;
    }
    if LiveUuid(slots, uuid) {
      var s :| 0 <= s < |slots| && Live(slots[s]) && slots[s].uuid == uuid;
      assert Live(start[s]) && GoesOn(start[s], devs);
    }
  }

  /** A device that is queued after the pass, and in use, is stopping. */
  lemma {:induction false} QueuedStops(
      slots: seq<Slot>, t: Table, devs: seq<Config>, pend: seq<Pending>, p: Config, s: nat)
    requires Patched(slots, t.slots, devs) && UuidsDistinct(t.slots) && QueueTakenUp(t, devs)
    requires QueuedAfter(pend, t, devs, |t.slots|) && Queued(pend, p) && p.uuid != ""
    requires s < |t.slots| && t.slots[s].inUse && t.slots[s].uuid == p.uuid
    ensures slots[s].stop
  {
    hide IdentityChanged, Wanted, PendDistinct;
    if ChangingBefore(t.slots, devs, |t.slots|, p) {
      var k :| 0 <= k < |t.slots| && Changing(t.slots[k], devs, p);
      assert k == s;
    } else {
      assert TakenUp(t.slots, devs, p);
      assert UuidInUse(t.slots, p.uuid);
    }
  }

  lemma {:induction false} QueuedNotLive(slots: seq<Slot>, t: Table, devs: seq<Config>, pend: seq<Pending>, p: Config)
    requires Patched(slots, t.slots, devs) && UuidsDistinct(t.slots) && QueueTakenUp(t, devs)
    requires QueuedAfter(pend, t, devs, |t.slots|) && Queued(pend, p) && p.uuid != ""
    ensures !LiveUuid(slots, p.uuid)
  {
    hide QueuedAfter, QueueTakenUp, Wanted, IdentityChanged, Queued;
    forall s | 0 <= s < |slots| && slots[s].inUse && slots[s].uuid == p.uuid ensures slots[s].stop {
      QueuedStops(slots, t, devs, pend, p, s);
    }
  }

  lemma {:induction false} QueuedIsOurs(slots: seq<Slot>, t: Table, devs: seq<Config>, pend: seq<Pending>, p: Config)
    requires Patched(slots, t.slots, devs) && UuidsDistinct(t.slots) && QueueTakenUp(t, devs)
    requires QueuedAfter(pend, t, devs, |t.slots|) && Queued(pend, p) && p.uuid != ""
    ensures Ours(slots, devs, 0, p)
  {
    PatchedUses(slots, t.slots, devs, p.uuid);
    if ChangingBefore(t.slots, devs, |t.slots|, p) {
      var k :| 0 <= k < |t.slots| && Changing(t.slots[k], devs, p);
      assert UuidInUse(t.slots, p.uuid);
      WantedIn(devs, p);
    } else {
      assert TakenUp(t.slots, devs, p);
      if UuidInUse(t.slots, p.uuid) {
        var s :| 0 <= s < |t.slots| && t.slots[s].inUse && t.slots[s].uuid == p.uuid;
        assert GoesOn(t.slots[s], devs);
        WantedIn(devs, p);
      } else {
        var want := Wanted(devs, p.uuid).value;
        var k :| 0 <= k < |devs| && devs[k] == want;
        var s :| 0 <= s < |t.slots| && t.slots[s].inUse && PatchedSlot(t.slots[s], devs).name == want.name;
        assert slots[s].inUse && slots[s].name == want.name;
        assert NameTaken(slots, devs[k].name, -1);
      }
    }
  }

  lemma {:induction false} WantedIn(devs: seq<Config>, p: Config)
    requires Wanted(devs, p.uuid) == Some(p) && p.enabled
    ensures IsEnabled(p, devs, |devs|)
  {
    var k :| 0 <= k < |devs| && devs[k] == p;
    assert devs[k] == p && p.enabled;
  }

  lemma {:induction false} PatchEntries(t: Table, reg: Registry, devs: seq<Config>)
    requires Startable(t, reg) && ValidConfig(reg, devs) && QueueTakenUp(t, devs)
    ensures Entries(Patch(t, devs, |t.slots|), devs) && Known(Patch(t, devs, |t.slots|), devs, 0)
  {
    var u := Patch(t, devs, |t.slots|);
    PatchIs(t, devs);
    StartPatched(t, reg, devs);
    hide UsedCount, InUseCount, Patch, IsEntry, LiveUuid, UuidInUse, QueuedAfter, Queued, Ours, QueueTakenUp;
    forall s | 0 <= s < |u.slots| && Live(u.slots[s]) ensures IsEntry(u.slots[s], devs) {
      PatchedIsEntry(t.slots[s], reg, devs);
    }
    forall p | Queued(u.pend, p) ensures !LiveUuid(u.slots, p.uuid) && Ours(u.slots, devs, 0, p) {
      QueuedNotLive(u.slots, t, devs, u.pend, p);
      QueuedIsOurs(u.slots, t, devs, u.pend, p);
    }
    assert PendDistinct(u.pend) by { AfterIsDistinct(u.pend, t, devs); }
  }

  lemma {:induction false} AfterIsDistinct(pend: seq<Pending>, t: Table, devs: seq<Config>)
    requires QueuedAfter(pend, t, devs, |t.slots|)
    ensures PendDistinct(pend)
  {}

  /** The first pass on a table a reconfiguration may start from. */
  lemma {:induction false} StartPatched(t: Table, reg: Registry, devs: seq<Config>)
    requires Startable(t, reg) && ValidConfig(reg, devs)
    ensures var u := Patch(t, devs, |t.slots|);
      && QueuedAfter(u.pend, t, devs, |t.slots|) && (forall p :: Queued(u.pend, p) ==> p.uuid != "")
      && InUseCount(u.slots) == InUseCount(t.slots)
      && UsedCount(u.pend) <= UsedCount(t.pend) + DyingCount(u.slots)
  {
    hide UsedCount, InUseCount, DyingCount, QueuedAfter, Queued, UuidsDistinct, PendDistinct, Patch, PairOk, Fits;
    assert UuidsGiven(devs) by {
      forall k | 0 <= k < |devs| ensures devs[k].uuid != "" {
        assert EntryOk(reg, devs[k]);
      }
    }
    PatchPending(t, devs, |t.slots|);
    PatchedCounts(t, devs);
    QueuedGiven(Patch(t, devs, |t.slots|).pend, t, devs, |t.slots|);
  }

  /** What the first pass makes of the slot of an enabled entry. */
  lemma {:induction false} PatchedProgress(
      t: Table, u: Table, reg: Registry, opens: Config -> bool, devs: seq<Config>, s: nat, e: Config)
    requires |u.slots| == |t.slots| && s < |t.slots| && t.slots[s].inUse && t.slots[s].uuid == e.uuid
    requires u.slots[s] == PatchedSlot(t.slots[s], devs) && Wanted(devs, e.uuid) == Some(e) && e.enabled
    requires |e.name| <= NAME_MAX && QueuedAfter(u.pend, t, devs, |t.slots|) && UuidsDistinct(t.slots)
    requires QueueTakenUp(t, devs) && e.uuid != ""
    ensures Handled(u, e) || Missed(t, reg, opens, e)
  {
    hide Wanted, Goes, PendDistinct;
    if IdentityChanged(t.slots[s], e) {
      hide IdentityChanged;
      assert Changing(t.slots[s], devs, e);
      assert ChangingBefore(t.slots, devs, |t.slots|, e);
    } else if !t.slots[s].stop {
      hide QueuedAfter;
      assert Matches(u.slots[s], e);
    } else if PendUuid(t.pend, e.uuid) {
      StoppingComesBack(t, devs, s, e);
    }
  }

  /** It is stopping and queued as it is: it stays so. */
  lemma {:induction false} StoppingComesBack(t: Table, devs: seq<Config>, s: nat, e: Config)
    requires s < |t.slots| && Dying(t.slots[s]) && t.slots[s].uuid == e.uuid && e.uuid != "" && UuidsDistinct(t.slots)
    requires Wanted(devs, e.uuid) == Some(e) && e.enabled && !IdentityChanged(t.slots[s], e)
    requires QueueTakenUp(t, devs) && PendUuid(t.pend, e.uuid)
    ensures Queued(t.pend, e) && Spared(t.slots, devs, |t.slots|, e.uuid)
  {
    hide Wanted, IdentityChanged;
    var i :| 0 <= i < |t.pend| && t.pend[i].used && t.pend[i].dev.uuid == e.uuid;
    var p := t.pend[i].dev;
    QueuedIs(t.pend, i);
    assert TakenUp(t.slots, devs, p);
    assert UuidInUse(t.slots, p.uuid);
    assert GoesOn(t.slots[s], devs);
    assert p == e;
    forall k | 0 <= k < |t.slots| && t.slots[k].inUse && t.slots[k].uuid == e.uuid ensures GoesOn(t.slots[k], devs) {
      assert k == s;
    }
  }

  lemma {:induction false} PatchProgress(t: Table, reg: Registry, opens: Config -> bool, devs: seq<Config>)
    requires Startable(t, reg) && ValidConfig(reg, devs) && QueueTakenUp(t, devs)
    ensures Progress(Patch(t, devs, |t.slots|), t, reg, opens, devs, 0)
  {
    var u := Patch(t, devs, |t.slots|);
    PatchIs(t, devs);
    StartPatched(t, reg, devs);
    ValidApart(reg, devs);
    hide Patch, Handled, Missed, QueuedAfter, QueueTakenUp, UsedCount, InUseCount, Fits, PairOk, Queued, PatchedSlot;
    forall k | 0 <= k < |devs| && devs[k].enabled && UuidInUse(u.slots, devs[k].uuid)
      ensures Handled(u, devs[k]) || Missed(t, reg, opens, devs[k])
    {
      var s :| 0 <= s < |u.slots| && u.slots[s].inUse && u.slots[s].uuid == devs[k].uuid;
      WantedIs(devs, k);
      PatchedProgress(t, u, reg, opens, devs, s, devs[k]);
    }
  }

  lemma {:induction false} ValidApart(reg: Registry, devs: seq<Config>)
    requires ValidConfig(reg, devs)
    ensures AllApart(devs)
  {
    forall i, j | 0 <= i < j < |devs| ensures devs[i].uuid != devs[j].uuid {
      assert PairOk(devs[i], devs[j]);
    }
  }

  lemma {:induction false} PatchGoing(t: Table, reg: Registry, devs: seq<Config>)
    requires ValidConfig(reg, devs)
    ensures Going(Patch(t, devs, |t.slots|).slots, t.slots, devs)
  {
    var u := Patch(t, devs, |t.slots|);
    PatchIs(t, devs);
    hide Patch;
    forall k | 0 <= k < |devs| && devs[k].enabled && Goes(t.slots, devs[k]) ensures LiveUuid(u.slots, devs[k].uuid) {
      var s :| 0 <= s < |t.slots| && Live(t.slots[s]) && t.slots[s].uuid == devs[k].uuid
        && !IdentityChanged(t.slots[s], devs[k]);
      WantedIs(devs, k);
      assert Live(u.slots[s]) && u.slots[s].uuid == devs[k].uuid;
    }
  }

  lemma {:induction false} DyingAreInUse(slots: seq<Slot>)
    ensures DyingCount(slots) <= InUseCount(slots)
  {
    if slots != [] {
      DyingAreInUse(slots[1..]);
    }
  }

  lemma {:induction false} PatchMidway(t: Table, reg: Registry, opens: Config -> bool, devs: seq<Config>)
    requires Startable(t, reg) && ValidConfig(reg, devs) && QueueTakenUp(t, devs)
    ensures Midway(Patch(t, devs, |t.slots|), t, reg, opens, devs, 0)
  {
    hide Entries, Known, Progress, Going, UsedCount, InUseCount, DyingCount, QueuedAfter, Patch, ValidConfig;
    PatchEntries(t, reg, devs);
    PatchProgress(t, reg, opens, devs);
    PatchGoing(t, reg, devs);
    StartPatched(t, reg, devs);
    DyingAreInUse(Patch(t, devs, |t.slots|).slots);
  }

  // ----- The second pass -----

  lemma {:induction false} FillLive(slots: seq<Slot>, k: nat, d: Slot, x: string)
    requires k < |slots| && !slots[k].inUse && Live(d)
    ensures LiveUuid(slots[k := d], x) <==> LiveUuid(slots, x) || x == d.uuid
  {
    var u := slots[k := d];
    if LiveUuid(slots, x) {
      var s :| 0 <= s < |slots| && Live(slots[s]) && slots[s].uuid == x;
      assert u[s] == slots[s];
    }
    if LiveUuid(u, x) {
      var s :| 0 <= s < |u| && Live(u[s]) && u[s].uuid == x;
      assert s != k ==> slots[s] == u[s];
    }
    assert u[k] == d;
  }

  lemma {:induction false} FillUse(slots: seq<Slot>, k: nat, d: Slot, x: string)
    requires k < |slots| && !slots[k].inUse
    ensures UuidInUse(slots[k := d], x) <==> UuidInUse(slots, x) || (d.inUse && x == d.uuid && x != "")
  {
    var u := slots[k := d];
    assert u[k] == d;
    if UuidInUse(slots, x) {
      var s :| 0 <= s < |slots| && slots[s].inUse && slots[s].uuid == x;
      assert u[s] == slots[s];
    }
    if UuidInUse(u, x) {
      var s :| 0 <= s < |u| && u[s].inUse && u[s].uuid == x;
      assert s != k ==> slots[s] == u[s];
    }
  }

  lemma {:induction false} FillSettled(slots: seq<Slot>, k: nat, d: Slot, e: Config)
    requires k < |slots| && !slots[k].inUse && Settled(slots, e)
    ensures Settled(slots[k := d], e)
  {
    var s :| 0 <= s < |slots| && Matches(slots[s], e);
    assert slots[k := d][s] == slots[s];
  }

  lemma {:induction false} FillName(slots: seq<Slot>, k: nat, d: Slot, name: string)
    requires k < |slots| && !slots[k].inUse && NameTaken(slots, name, -1)
    ensures NameTaken(slots[k := d], name, -1)
  {
    var s :| 0 <= s < |slots| && slots[s].inUse && slots[s].name == name;
    assert slots[k := d][s] == slots[s];
  }

  /** A slot that was free is filled for an entry, or left empty by an open that
      failed. */
  predicate Filled(t: Table, u: Table, k: nat, e: Config, ok: bool) {
    && k < |t.slots| == |u.slots| && !t.slots[k].inUse && u.pend == t.pend && u.slots == t.slots[k := u.slots[k]]
    && u.slots[k] == if ok then NewSlot(e, e.uuid, u.slots[k].ctx) else EMPTY
  }

  /** What adding an entry does when its uuid is free: its name is still taken,
      or a slot is filled, or the open fails. */
  lemma {:induction false} AddOutcome(t: Table, reg: Registry, dev: Config, opens: bool)
    requires dev.name != "" && dev.kind != "" && dev.driver != "" && |dev.name| <= NAME_MAX
    requires dev.uuid != "" && !UuidInUse(t.slots, dev.uuid)
    requires reg.loaded ==> reg.known(dev.kind, dev.driver)
    requires InUseCount(t.slots) < |t.slots|
    ensures var (u, rc) := Add(t, reg, dev, "", opens);
      if NameTaken(t.slots, dev.name, -1) then u == t && rc == Collides
      else
        var ok := opens || !reg.loaded;
        Filled(t, u, FirstFree(t.slots), dev, ok) && rc == if ok then Added else OpenFailed
  {
    FreeSlot(t.slots);
    hide InUseCount, NameTaken, UuidInUse;
  }

  /** Adding leaves the slots in use and the queue alone. */
  lemma {:induction false} AddWeight(t: Table, reg: Registry, dev: Config, opens: bool)
    ensures var (u, rc) := Add(t, reg, dev, "", opens);
      && u.pend == t.pend && InUseCount(u.slots) == InUseCount(t.slots) + (if rc == Added then 1 else 0)
      && DyingCount(u.slots) == DyingCount(t.slots)
      && (forall s :: 0 <= s < |t.slots| && t.slots[s].inUse ==> u.slots[s] == t.slots[s])
  {
    var u, k := Add(t, reg, dev, "", opens).0, FirstFree(t.slots);
    if u.slots != t.slots {
      CountSlot(t.slots, k, u.slots[k]);
      DyingSlot(t.slots, k, u.slots[k]);
    }
  }

  lemma {:induction false} AddAllKeeps(t: Table, reg: Registry, devs: seq<Config>, opens: Config -> bool, n: nat)
    requires n <= |devs|
    ensures forall s :: 0 <= s < |t.slots| && t.slots[s].inUse ==> AddAll(t, reg, devs, opens, n).slots[s] == t.slots[s]
  {
    if n > 0 {
      AddAllKeeps(t, reg, devs, opens, n - 1);
      AddWeight(AddAll(t, reg, devs, opens, n - 1), reg, devs[n - 1], opens(devs[n - 1]));
    }
  }

  /** Filling a slot for an entry keeps the entries apart and known. */
  lemma {:induction false} FillEntries(t: Table, u: Table, devs: seq<Config>, k: nat, j: nat)
    requires j < |devs| && Filled(t, u, k, devs[j], true) && devs[j].enabled && Fits(devs[j])
    requires |devs[j].name| <= NAME_MAX && devs[j].uuid != "" && !UuidInUse(t.slots, devs[j].uuid)
    requires Entries(t, devs) && forall p :: Queued(t.pend, p) ==> p.uuid != devs[j].uuid
    ensures Entries(u, devs) && Settled(u.slots, devs[j]) && InUseCount(u.slots) == InUseCount(t.slots) + 1
  {
    var e, d := devs[j], u.slots[k];
    CountSlot(t.slots, k, d);
    assert Matches(d, e) && u.slots == t.slots[k := d];
    hide InUseCount, Queued;
    forall s | 0 <= s < |u.slots| && Live(u.slots[s]) ensures IsEntry(u.slots[s], devs) {
      assert s != k ==> u.slots[s] == t.slots[s];
    }
    forall p | Queued(u.pend, p) ensures !LiveUuid(u.slots, p.uuid) {
      FillLive(t.slots, k, d, p.uuid);
    }
    assert UuidsDistinct(u.slots);
  }

  /** An open that failed changes nothing but a free slot. */
  lemma {:induction false} EmptyEntries(t: Table, u: Table, devs: seq<Config>, k: nat, e: Config)
    requires Filled(t, u, k, e, false) && Entries(t, devs)
    ensures Entries(u, devs) && InUseCount(u.slots) == InUseCount(t.slots)
    ensures forall x :: LiveUuid(t.slots, x) <==> LiveUuid(u.slots, x)
  {
    CountSlot(t.slots, k, EMPTY);
    hide InUseCount, Queued;
    forall s | 0 <= s < |u.slots| && Live(u.slots[s]) ensures u.slots[s] == t.slots[s] {}
    forall x ensures LiveUuid(t.slots, x) <==> LiveUuid(u.slots, x) {
      if LiveUuid(t.slots, x) {
        var s :| 0 <= s < |t.slots| && Live(t.slots[s]) && t.slots[s].uuid == x;
        assert u.slots[s] == t.slots[s];
      }
    }
  }

  /** A queued entry stays known when a slot is filled for another entry. */
  lemma {:induction false} StillOurs(t: Table, u: Table, devs: seq<Config>, n: nat, k: nat, ok: bool, p: Config)
    requires n < |devs| && Filled(t, u, k, devs[n], ok) && Ours(t.slots, devs, n, p) && p.uuid != devs[n].uuid
    requires Fits(devs[n])
    ensures Ours(u.slots, devs, n + 1, p)
  {
    var d := u.slots[k];
    FillUse(t.slots, k, d, p.uuid);
    if Awaits(t.slots, devs, n, p) {
      var j :| n <= j < |devs| && devs[j].enabled && devs[j].uuid == p.uuid
        && !UuidInUse(t.slots, p.uuid) && NameTaken(t.slots, devs[j].name, -1);
      FillName(t.slots, k, d, devs[j].name);
      hide NameTaken, UuidInUse;
      assert j != n;
    } else if IsEnabled(p, devs, n) {
      var j :| 0 <= j < n && devs[j] == p && p.enabled;
      assert devs[j] == p;
    }
  }

  /** An entry still to come, with its name free, is not queued. */
  lemma {:induction false} NotQueued(t: Table, devs: seq<Config>, n: nat, p: Config)
    requires n < |devs| && Known(t, devs, n) && !UuidInUse(t.slots, devs[n].uuid) && AllApart(devs)
    requires !NameTaken(t.slots, devs[n].name, -1) && Queued(t.pend, p)
    ensures p.uuid != devs[n].uuid
  {
    hide UuidInUse, NameTaken, Queued;
    assert Ours(t.slots, devs, n, p);
    if Awaits(t.slots, devs, n, p) {
      var j :| n <= j < |devs| && devs[j].enabled && devs[j].uuid == p.uuid
        && !UuidInUse(t.slots, p.uuid) && NameTaken(t.slots, devs[j].name, -1);
      assert j != n;
      assert devs[n].uuid != devs[j].uuid;
    } else if IsEnabled(p, devs, n) {
      var j :| 0 <= j < n && devs[j] == p && p.enabled;
      assert devs[j].uuid != devs[n].uuid;
    }
  }

  lemma {:induction false} FilledKnown(t: Table, u: Table, devs: seq<Config>, n: nat, k: nat, ok: bool)
    requires n < |devs| && Known(t, devs, n) && !UuidInUse(t.slots, devs[n].uuid) && AllApart(devs) && Fits(devs[n])
    requires !NameTaken(t.slots, devs[n].name, -1) && Filled(t, u, k, devs[n], ok)
    ensures Known(u, devs, n + 1) && forall p :: Queued(t.pend, p) ==> p.uuid != devs[n].uuid
  {
    hide UuidInUse, NameTaken, Queued, Ours, AllApart, Fits;
    forall p | Queued(t.pend, p) ensures Ours(u.slots, devs, n + 1, p) && p.uuid != devs[n].uuid {
      NotQueued(t, devs, n, p);
      StillOurs(t, u, devs, n, k, ok, p);
    }
  }

  lemma {:induction false} FilledGoing(
      t: Table, u: Table, start: seq<Slot>, devs: seq<Config>, k: nat, e: Config, ok: bool)
    requires Filled(t, u, k, e, ok) && Going(t.slots, start, devs)
    ensures Going(u.slots, start, devs)
  {
    forall x | LiveUuid(t.slots, x) ensures LiveUuid(u.slots, x) {
      var s :| 0 <= s < |t.slots| && Live(t.slots[s]) && t.slots[s].uuid == x;
      assert u.slots[s] == t.slots[s];
    }
    hide Goes, LiveUuid;
  }

  /** The entry's turn has come and it is handled or missed. */
  lemma {:induction false} FilledProgress(
      t: Table, u: Table, start: Table, reg: Registry, opens: Config -> bool, devs: seq<Config>, n: nat, k: nat,
      ok: bool)
    requires n < |devs| && Filled(t, u, k, devs[n], ok) && Fits(devs[n])
    requires Progress(t, start, reg, opens, devs, n) && Going(t.slots, start.slots, devs) && AllApart(devs)
    requires devs[n].enabled && !UuidInUse(t.slots, devs[n].uuid) && devs[n].uuid != ""
    requires if ok then Settled(u.slots, devs[n]) else reg.loaded && !opens(devs[n])
    ensures Progress(u, start, reg, opens, devs, n + 1)
  {
    var d := u.slots[k];
    hide Matches;
    forall i | 0 <= i < |devs| && devs[i].enabled && (i < n + 1 || UuidInUse(u.slots, devs[i].uuid))
      ensures Handled(u, devs[i]) || Missed(start, reg, opens, devs[i])
    {
      if i == n {
        NotGoing(t.slots, start.slots, devs, n);
      } else {
        assert devs[i].uuid != devs[n].uuid;
        FillUse(t.slots, k, d, devs[i].uuid);
        if Settled(t.slots, devs[i]) {
          FillSettled(t.slots, k, d, devs[i]);
        }
      }
    }
  }

  lemma {:induction false} NotGoing(slots: seq<Slot>, start: seq<Slot>, devs: seq<Config>, n: nat)
    requires n < |devs| && devs[n].enabled && Going(slots, start, devs)
    requires !UuidInUse(slots, devs[n].uuid) && devs[n].uuid != ""
    ensures !Goes(start, devs[n])
  {
    hide Goes;
  }

  lemma {:induction false} FilledStep(
      t: Table, u: Table, start: Table, reg: Registry, opens: Config -> bool, devs: seq<Config>, n: nat, k: nat)
    requires n < |devs| && Midway(t, start, reg, opens, devs, n) && devs[n].enabled && Fits(devs[n]) && AllApart(devs)
    requires |devs[n].name| <= NAME_MAX && devs[n].uuid != "" && !UuidInUse(t.slots, devs[n].uuid)
    requires !NameTaken(t.slots, devs[n].name, -1)
    requires Filled(t, u, k, devs[n], opens(devs[n]) || !reg.loaded)
    ensures Midway(u, start, reg, opens, devs, n + 1)
  {
    hide Entries, Known, Progress, Going, UsedCount, InUseCount, Filled, Settled, NameTaken, UuidInUse, Queued,
      AllApart, Fits;
    var ok := opens(devs[n]) || !reg.loaded;
    FilledKnown(t, u, devs, n, k, ok);
    if ok {
      FillEntries(t, u, devs, k, n);
    } else {
      EmptyEntries(t, u, devs, k, devs[n]);
    }
    FilledProgress(t, u, start, reg, opens, devs, n, k, ok);
    FilledGoing(t, u, start.slots, devs, k, devs[n], ok);
    assert |u.slots| == |t.slots| && u.pend == t.pend by { FilledSizes(t, u, k, devs[n], ok); }
  }

  lemma {:induction false} FilledSizes(t: Table, u: Table, k: nat, e: Config, ok: bool)
    requires Filled(t, u, k, e, ok)
    ensures |u.slots| == |t.slots| && u.pend == t.pend
  {}

  /** An entry whose turn is over, seen from the queue. */
  lemma {:induction false} OursMore(slots: seq<Slot>, devs: seq<Config>, n: nat, p: Config)
    requires n < |devs| && Ours(slots, devs, n, p)
    requires p.uuid != devs[n].uuid || UuidInUse(slots, p.uuid)
    ensures Ours(slots, devs, n + 1, p)
  {
    hide UuidInUse, NameTaken;
    if Awaits(slots, devs, n, p) {
      var j :| n <= j < |devs| && devs[j].enabled && devs[j].uuid == p.uuid
        && !UuidInUse(slots, p.uuid) && NameTaken(slots, devs[j].name, -1);
      assert j != n;
    } else if IsEnabled(p, devs, n) {
      var j :| 0 <= j < n && devs[j] == p && p.enabled;
      assert devs[j] == p;
    }
  }

  lemma {:induction false} SkippedStep(
      t: Table, start: Table, reg: Registry, opens: Config -> bool, devs: seq<Config>, n: nat)
    requires n < |devs| && Midway(t, start, reg, opens, devs, n) && AllApart(devs)
    requires !devs[n].enabled || UuidInUse(t.slots, devs[n].uuid)
    ensures Midway(t, start, reg, opens, devs, n + 1)
  {
    hide Entries, Going, InUseCount, UsedCount, UuidInUse, Handled, Missed, Queued, NameTaken;
    forall p | Queued(t.pend, p) ensures Ours(t.slots, devs, n + 1, p) {
      assert Ours(t.slots, devs, n, p);
      SkippedOurs(t.slots, devs, n, p);
    }
  }

  /** A disabled entry's uuid is nowhere queued unless it is in use. */
  lemma {:induction false} NotOurs(slots: seq<Slot>, devs: seq<Config>, n: nat, p: Config)
    requires n < |devs| && AllApart(devs) && !devs[n].enabled && p.uuid == devs[n].uuid && !UuidInUse(slots, p.uuid)
    ensures !Ours(slots, devs, n, p)
  {
    forall j | n <= j < |devs| && devs[j].enabled ensures devs[j].uuid != p.uuid {
      assert j != n;
    }
    forall j | 0 <= j < n ensures devs[j].uuid != p.uuid {}
  }

  lemma {:induction false} SkippedOurs(slots: seq<Slot>, devs: seq<Config>, n: nat, p: Config)
    requires n < |devs| && AllApart(devs) && (!devs[n].enabled || UuidInUse(slots, devs[n].uuid))
    ensures Ours(slots, devs, n, p) ==> Ours(slots, devs, n + 1, p)
  {
    hide Ours;
    if p.uuid == devs[n].uuid && !UuidInUse(slots, p.uuid) {
      NotOurs(slots, devs, n, p);
    } else if Ours(slots, devs, n, p) {
      OursMore(slots, devs, n, p);
    }
  }

  lemma {:induction false} QueuedStep(
      t: Table, start: Table, reg: Registry, opens: Config -> bool, devs: seq<Config>, n: nat)
    requires n < |devs| <= MAX_DEVICES && Midway(t, start, reg, opens, devs, n) && devs[n].enabled && devs[n].uuid != ""
    requires !UuidInUse(t.slots, devs[n].uuid) && AllApart(devs)
    ensures Midway(t.(pend := Queue(t.pend, devs[n])), start, reg, opens, devs, n + 1)
  {
    hide InUseCount, UsedCount, UuidInUse, NameTaken, Queued, UuidsDistinct, IsEntry, Missed, Ours, Settled, Going,
      Queue, LiveUuid, PendDistinct;
    var e, q := devs[n], Queue(t.pend, devs[n]);
    var u := t.(pend := q);
    QueueEffect(t.pend, e);
    NotInUseNotLive(t.slots, e.uuid);
    EnabledNow(t.slots, devs, n);
    forall p | Queued(q, p) ensures Ours(u.slots, devs, n + 1, p) {
      if p != e {
        OursMore(t.slots, devs, n, p);
      }
    }
    forall i | 0 <= i < |devs| && devs[i].enabled && (i < n + 1 || UuidInUse(u.slots, devs[i].uuid))
      ensures Handled(u, devs[i]) || Missed(start, reg, opens, devs[i])
    {
      if i != n {
        assert devs[i].uuid != e.uuid;
      }
    }
    assert Entries(u, devs) && Known(u, devs, n + 1) && Progress(u, start, reg, opens, devs, n + 1);
  }

  lemma {:induction false} NotInUseNotLive(slots: seq<Slot>, uuid: string)
    requires !UuidInUse(slots, uuid) && uuid != ""
    ensures !LiveUuid(slots, uuid)
  {}

  lemma {:induction false} EnabledNow(slots: seq<Slot>, devs: seq<Config>, n: nat)
    requires n < |devs| && devs[n].enabled
    ensures Ours(slots, devs, n + 1, devs[n])
  {
    assert devs[n] == devs[n] && devs[n].enabled;
  }

  /** One entry of the second pass. */
  lemma {:induction false} AddWantedMidway(
      t: Table, start: Table, reg: Registry, opens: Config -> bool, devs: seq<Config>, n: nat)
    requires n < |devs| <= MAX_DEVICES && Midway(t, start, reg, opens, devs, n) && ValidConfig(reg, devs)
      && AllFit(devs)
    ensures Midway(AddWanted(t, reg, devs[n], opens), start, reg, opens, devs, n + 1)
  {
    var e := devs[n];
    assert EntryOk(reg, e) && (e.enabled ==> Fits(e));
    ValidApart(reg, devs);
    assert InUseCount(t.slots) < |t.slots|;
    hide ValidConfig, AllFit, AllApart, Midway, Fits, Add, Queue, InUseCount, Filled, NameTaken, UuidInUse;
    if !e.enabled || UuidInUse(t.slots, e.uuid) {
      SkippedStep(t, start, reg, opens, devs, n);
    } else {
      AddOutcome(t, reg, e, opens(e));
      if NameTaken(t.slots, e.name, -1) {
        QueuedStep(t, start, reg, opens, devs, n);
      } else {
        FilledStep(t, AddWanted(t, reg, e, opens), start, reg, opens, devs, n, FirstFree(t.slots));
      }
    }
  }

  /** After each entry of the second pass, every entry so far is running, queued
      or missed. */
  lemma {:induction false} AddAllMidway(
      t: Table, start: Table, reg: Registry, opens: Config -> bool, devs: seq<Config>, n: nat)
    requires n <= |devs| <= MAX_DEVICES && Midway(t, start, reg, opens, devs, 0) && ValidConfig(reg, devs)
      && AllFit(devs)
    ensures Midway(AddAll(t, reg, devs, opens, n), start, reg, opens, devs, n)
  {
    hide ValidConfig, AllFit, Midway, AddWanted;
    if n > 0 {
      AddAllMidway(t, start, reg, opens, devs, n - 1);
      AddWantedMidway(AddAll(t, reg, devs, opens, n - 1), start, reg, opens, devs, n - 1);
    }
  }

  lemma {:induction false} ApplyMidway(t: Table, reg: Registry, opens: Config -> bool, devs: seq<Config>)
    requires Startable(t, reg) && ValidConfig(reg, devs) && |devs| <= MAX_DEVICES && AllFit(devs)
      && QueueTakenUp(t, devs)
    ensures Midway(Apply(t, reg, devs, opens), t, reg, opens, devs, |devs|)
  {
    hide Startable, ValidConfig, AllFit, QueueTakenUp, Midway, Patch, AddAll;
    PatchMidway(t, reg, opens, devs);
    AddAllMidway(Patch(t, devs, |t.slots|), t, reg, opens, devs, |devs|);
  }

  // ----- The stopped devices exit -----

  lemma {:induction false} ExitPointwise(t: Table, s: nat)
    requires s <= |t.slots|
    ensures var u := ExitDying(t, s);
      && u.pend == t.pend && |u.slots| == |t.slots|
      && forall i :: 0 <= i < |t.slots| ==>
           u.slots[i] == if i < s && Dying(t.slots[i]) then t.slots[i].(inUse := false, stop := false, ctx := None)
                         else t.slots[i]
  {
    if s > 0 {
      ExitPointwise(t, s - 1);
    }
  }

  predicate Gone(u: seq<Slot>, t: seq<Slot>) {
    && |u| == |t|
    && forall s :: 0 <= s < |t| ==> (u[s].inUse <==> Live(t[s])) && (Live(t[s]) ==> u[s] == t[s])
  }

  lemma {:induction false} ExitIs(t: Table)
    ensures var u := ExitDying(t, |t.slots|); Gone(u.slots, t.slots) && u.pend == t.pend && NoneDying(u.slots)
  {
    ExitPointwise(t, |t.slots|);
  }

  lemma {:induction false} GoneSame(u: seq<Slot>, t: seq<Slot>)
    requires Gone(u, t)
    ensures forall x :: LiveUuid(u, x) <==> LiveUuid(t, x)
    ensures forall e :: Settled(u, e) <==> Settled(t, e)
  {
    forall x ensures LiveUuid(u, x) <==> LiveUuid(t, x) {
      if LiveUuid(t, x) {
        var s :| 0 <= s < |t| && Live(t[s]) && t[s].uuid == x;
        assert u[s] == t[s];
      }
    }
    forall e ensures Settled(u, e) <==> Settled(t, e) {
      if Settled(t, e) {
        var s :| 0 <= s < |t| && Matches(t[s], e);
        assert u[s] == t[s];
      }
      if Settled(u, e) {
        var s :| 0 <= s < |u| && Matches(u[s], e);
        assert u[s] == t[s];
      }
    }
  }

  /** Everything taken care of, nothing dying. */
  ghost predicate Resting(t: Table, start: Table, reg: Registry, opens: Config -> bool, devs: seq<Config>) {
    && |t.slots| == SLOTS && |t.pend| == SLOTS && Entries(t, devs) && NoneDying(t.slots)
    && (forall p :: Queued(t.pend, p) ==> IsEnabled(p, devs, |devs|))
    && (forall k :: 0 <= k < |devs| && devs[k].enabled ==> Handled(t, devs[k]) || Missed(start, reg, opens, devs[k]))
    && Going(t.slots, start.slots, devs)
  }

  lemma {:induction false} ExitEntries(t: Table, u: Table, devs: seq<Config>)
    requires Entries(t, devs) && Gone(u.slots, t.slots) && u.pend == t.pend
    ensures Entries(u, devs)
  {
    GoneSame(u.slots, t.slots);
    hide Queued, IsEntry, LiveUuid, PendDistinct;
    forall s | 0 <= s < |u.slots| && u.slots[s].inUse ensures u.slots[s] == t.slots[s] && Live(t.slots[s]) {}
  }

  lemma {:induction false} ExitRests(t: Table, start: Table, reg: Registry, opens: Config -> bool, devs: seq<Config>)
    requires Midway(t, start, reg, opens, devs, |devs|)
    ensures Resting(ExitDying(t, |t.slots|), start, reg, opens, devs)
  {
    var u := ExitDying(t, |t.slots|);
    ExitIs(t);
    ExitEntries(t, u, devs);
    GoneSame(u.slots, t.slots);
    hide ExitDying, Entries, Gone, Settled, LiveUuid, Queued, Missed, InUseCount, UsedCount, Goes, NoneDying,
      UuidInUse, NameTaken;
    forall p | Queued(t.pend, p) ensures IsEnabled(p, devs, |devs|) {
      assert Ours(t.slots, devs, |devs|, p);
    }
    assert |u.slots| == |t.slots|;
  }

  // ----- What was queued is opened -----

  /** Live slots are entries, each once, so there are no more than entries. */
  lemma {:induction false} NoMoreThanEntries(t: Table, devs: seq<Config>)
    requires UuidsDistinct(t.slots) && forall s :: 0 <= s < |t.slots| && t.slots[s].inUse ==> IsEntry(t.slots[s], devs)
    ensures InUseCount(t.slots) <= |devs|
  {
    CountUuids(t.slots);
    UuidsAre(t.slots);
    forall x | x in Uuids(t.slots) ensures x in EntryUuids(devs) {
      var s :| 0 <= s < |t.slots| && t.slots[s].inUse && t.slots[s].uuid == x;
      assert IsEntry(t.slots[s], devs);
      var k :| 0 <= k < |devs| && devs[k].enabled && Matches(t.slots[s], devs[k]);
      EntryIn(devs, k);
    }
    SubsetSize(Uuids(t.slots), EntryUuids(devs));
  }

  /** No live slot has the name of another entry. */
  lemma {:induction false} NameIsFree(t: Table, reg: Registry, devs: seq<Config>, k: nat)
    requires ValidConfig(reg, devs) && k < |devs| && devs[k].enabled && !UuidInUse(t.slots, devs[k].uuid)
    requires forall s :: 0 <= s < |t.slots| && t.slots[s].inUse ==> IsEntry(t.slots[s], devs)
    ensures !NameTaken(t.slots, devs[k].name, -1)
  {
    forall s | 0 <= s < |t.slots| && t.slots[s].inUse ensures t.slots[s].name != devs[k].name {
      assert IsEntry(t.slots[s], devs);
      var j :| 0 <= j < |devs| && devs[j].enabled && Matches(t.slots[s], devs[j]);
      assert j != k;
      assert devs[if j < k then j else k].name != devs[if j < k then k else j].name;
    }
  }

  lemma {:induction false} UnqueueEffect(pend: seq<Pending>, i: nat)
    requires i < |pend| && pend[i].used && PendDistinct(pend)
    ensures var r := pend[i := pend[i].(used := false)];
      PendDistinct(r) && forall x :: Queued(r, x) <==> Queued(pend, x) && x.uuid != pend[i].dev.uuid
  {
    var r := pend[i := pend[i].(used := false)];
    forall x ensures Queued(r, x) <==> Queued(pend, x) && x.uuid != pend[i].dev.uuid {
      if Queued(pend, x) {
        var j :| 0 <= j < |pend| && pend[j] == Pending(true, x);
        assert j != i ==> r[j] == pend[j];
      }
      if Queued(r, x) {
        var j :| 0 <= j < |r| && r[j] == Pending(true, x);
        assert j != i && pend[j] == r[j];
      }
    }
  }

  lemma {:induction false} RestingInUse(t: Table, devs: seq<Config>)
    requires Entries(t, devs) && NoneDying(t.slots)
    ensures forall s :: 0 <= s < |t.slots| && t.slots[s].inUse ==> IsEntry(t.slots[s], devs)
  {
    forall s | 0 <= s < |t.slots| && t.slots[s].inUse ensures IsEntry(t.slots[s], devs) {
      assert !Dying(t.slots[s]);
    }
  }

  /** What a queued entry meets when nothing is dying: its uuid and its name are
      free, and so is a slot. */
  lemma {:induction false} ReopenMeets(t: Table, reg: Registry, devs: seq<Config>, i: nat) returns (k: nat)
    requires Entries(t, devs) && NoneDying(t.slots) && ValidConfig(reg, devs) && |devs| <= MAX_DEVICES
    requires i < |t.pend| && t.pend[i].used && IsEnabled(t.pend[i].dev, devs, |devs|)
    ensures k < |devs| && devs[k] == t.pend[i].dev && devs[k].enabled && EntryOk(reg, devs[k])
    ensures !UuidInUse(t.slots, devs[k].uuid) && !NameTaken(t.slots, devs[k].name, -1)
    ensures InUseCount(t.slots) <= MAX_DEVICES
  {
    k :| 0 <= k < |devs| && devs[k] == t.pend[i].dev && t.pend[i].dev.enabled;
    assert EntryOk(reg, devs[k]);
    QueuedIs(t.pend, i);
    RestingInUse(t, devs);
    NoMoreThanEntries(t, devs);
    forall s | 0 <= s < |t.slots| && t.slots[s].inUse ensures t.slots[s].uuid != devs[k].uuid {
      assert !Dying(t.slots[s]);
    }
    hide ValidConfig, InUseCount;
    assert !UuidInUse(t.slots, devs[k].uuid);
    NameIsFree(t, reg, devs, k);
  }

  /** One queued entry is opened. */
  lemma {:induction false} ReopenStep(
      t: Table, start: Table, reg: Registry, devs: seq<Config>, opens: Config -> bool, i: nat)
    requires Resting(t, start, reg, opens, devs) && ValidConfig(reg, devs) && AllFit(devs)
    requires i < |t.pend| && |devs| <= MAX_DEVICES
    ensures Resting(Reopen(t, reg, opens, i), start, reg, opens, devs)
    ensures Reopen(t, reg, opens, i).pend == t.pend[i := t.pend[i].(used := false)]
  {
    var p := t.pend[i];
    if p.used {
      QueuedIs(t.pend, i);
      hide Queued, Goes, UuidInUse, NameTaken, InUseCount, Add, Entries;
      var k := ReopenMeets(t, reg, devs, i);
      AddOutcome(t, reg, p.dev, opens(p.dev));
      var u := Add(t, reg, p.dev, "", opens(p.dev)).0;
      var ok := opens(p.dev) || !reg.loaded;
      hide NoneDying, Missed, Handled, IsEnabled, Going;
      ReopenedRests(t, start, reg, opens, devs, i, k, FirstFree(t.slots), u, Reopen(t, reg, opens, i));
    } else {
      assert t.pend[i := p.(used := false)] == t.pend;
    }
  }

  lemma {:induction false} ReopenedRests(
      t: Table, start: Table, reg: Registry, opens: Config -> bool, devs: seq<Config>, i: nat, k: nat, slot: nat,
      u: Table, r: Table)
    requires Resting(t, start, reg, opens, devs) && i < |t.pend| && k < |devs| && devs[k].enabled && Fits(devs[k])
    requires t.pend[i] == Pending(true, devs[k]) && |devs[k].name| <= NAME_MAX && devs[k].uuid != "" && AllApart(devs)
    requires !UuidInUse(t.slots, devs[k].uuid) && Filled(t, u, slot, devs[k], opens(devs[k]) || !reg.loaded)
    requires r.slots == u.slots && r.pend == t.pend[i := t.pend[i].(used := false)]
    ensures Resting(r, start, reg, opens, devs)
  {
    var ok := opens(devs[k]) || !reg.loaded;
    var v := t.(pend := r.pend);
    var w := u.(pend := r.pend);
    UnqueueEffect(t.pend, i);
    assert Entries(v, devs);
    if ok {
      FillEntries(v, w, devs, slot, k);
    } else {
      EmptyEntries(v, w, devs, slot, devs[k]);
    }
    FilledGoing(t, u, start.slots, devs, slot, devs[k], ok);
    NotGoing(t.slots, start.slots, devs, k);
    hide Goes, InUseCount, LiveUuid, IsEntry, UuidsDistinct, PendDistinct;
    forall j | 0 <= j < |devs| && devs[j].enabled ensures Handled(r, devs[j]) || Missed(start, reg, opens, devs[j]) {
      if j != k {
        assert devs[j].uuid != devs[k].uuid;
        if Settled(t.slots, devs[j]) {
          FillSettled(t.slots, slot, u.slots[slot], devs[j]);
        }
      }
    }
  }

  lemma {:induction false} ReopenAllRests(
      t: Table, start: Table, reg: Registry, devs: seq<Config>, opens: Config -> bool, n: nat)
    requires Resting(t, start, reg, opens, devs) && ValidConfig(reg, devs) && AllFit(devs)
    requires n <= |t.pend| && |devs| <= MAX_DEVICES
    ensures var u := ReopenAll(t, reg, opens, n);
      && Resting(u, start, reg, opens, devs) && forall i :: 0 <= i < n ==> !u.pend[i].used
  {
    hide Resting, ValidConfig, AllFit, Reopen;
    if n > 0 {
      ReopenAllRests(t, start, reg, devs, opens, n - 1);
      ReopenStep(ReopenAll(t, reg, opens, n - 1), start, reg, devs, opens, n - 1);
    }
  }

  /** What is reached at least: nothing is pending or stopping, only entries are
      live, and every entry that is not missed. */
  lemma {:induction false} ReconfigureRests(t: Table, reg: Registry, devs: seq<Config>, opens: Config -> bool)
    requires Startable(t, reg) && ValidConfig(reg, devs) && |devs| <= MAX_DEVICES && AllFit(devs)
      && QueueTakenUp(t, devs)
    ensures var u := Reconfigure(t, reg, devs, opens);
      && NothingPending(u.pend) && UuidsDistinct(u.slots)
      && (forall s :: 0 <= s < |u.slots| && u.slots[s].inUse ==> IsEntry(u.slots[s], devs))
      && (forall k :: 0 <= k < |devs| && devs[k].enabled ==>
            Settled(u.slots, devs[k]) || Missed(t, reg, opens, devs[k]))
  {
    hide Startable, ValidConfig, AllFit, QueueTakenUp, Midway, Resting, Apply, ExitDying, ReopenAll;
    var applied := Apply(t, reg, devs, opens);
    ApplyMidway(t, reg, opens, devs);
    var exited := ExitDying(applied, |applied.slots|);
    ExitRests(applied, t, reg, opens, devs);
    ReopenAllRests(exited, t, reg, devs, opens, |exited.pend|);
    RestingIsSettled(Reconfigure(t, reg, devs, opens), t, reg, opens, devs);
  }

  lemma {:induction false} RestingIsSettled(
      u: Table, start: Table, reg: Registry, opens: Config -> bool, devs: seq<Config>)
    requires Resting(u, start, reg, opens, devs) && NothingPending(u.pend)
    ensures UuidsDistinct(u.slots)
    ensures forall s :: 0 <= s < |u.slots| && u.slots[s].inUse ==> IsEntry(u.slots[s], devs)
    ensures forall k :: 0 <= k < |devs| && devs[k].enabled ==>
      Settled(u.slots, devs[k]) || Missed(start, reg, opens, devs[k])
  {
    RestingInUse(u, devs);
    hide Missed, Settled, IsEntry, LiveUuid;
  }
}
