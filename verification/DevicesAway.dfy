/** A deleted device stays away: no run that does not ask for it makes it live
    again. */
module DevicesAway {
  import opened Bytes
  import opened Devices
  import opened DevicesConverge
  import opened DevicesPatch
  import opened DevicesTables
  import opened DevicesSafety

  /** A queued entry whose slot would hold this uuid. */
  predicate PendCut(pend: seq<Pending>, uuid: string) {
    exists i :: 0 <= i < |pend| && pend[i].used && Cut(pend[i].dev.uuid, UUID_MAX) == uuid
  }

  predicate Gone(t: Table, uuid: string) {
    !LiveUuid(t.slots, uuid) && !PendCut(t.pend, uuid)
  }

  /** Nothing brings this uuid in. */
  predicate Avoids(op: Op, uuid: string) {
    match op
    case AddOp(dev, newUuid, _) => Cut(UuidFor(dev, newUuid), UUID_MAX) != uuid
    case ApplyOp(devs, _) => forall k :: 0 <= k < |devs| && devs[k].enabled ==> Cut(devs[k].uuid, UUID_MAX) != uuid
    case _ => true
  }

  /** A queued entry that shortens to this uuid and is not found by it. */
  predicate PendLonger(pend: seq<Pending>, uuid: string) {
    exists i :: 0 <= i < |pend| && pend[i].used && pend[i].dev.uuid != uuid && Cut(pend[i].dev.uuid, UUID_MAX) == uuid
  }

  /** Delete leaves the uuid neither live nor queued, unless an entry with a
      longer uuid is queued that its slot would cut to this one. */
  lemma {:induction false} DeleteIsGone(t: Table, reg: Registry, uuid: string)
    requires UuidsDistinct(t.slots) && 0 < |uuid| <= UUID_MAX
    ensures Gone(Delete(t, uuid).0, uuid) <==> !PendLonger(t.pend, uuid)
    ensures Delete(t, uuid).1 == if UuidInUse(t.slots, uuid) then 202 else 404
  {
    var (u, _) := Delete(t, uuid);
    InUseAtFinds(t.slots, uuid);
    forall s | 0 <= s < |u.slots| && Live(u.slots[s]) ensures u.slots[s].uuid != uuid {
      var k := InUseAt(t.slots, uuid);
      if k < |t.slots| && s != k {
        assert t.slots[if s < k then s else k].uuid != t.slots[if s < k then k else s].uuid;
      }
    }
    if PendLonger(t.pend, uuid) {
      var i :| 0 <= i < |t.pend| && t.pend[i].used && t.pend[i].dev.uuid != uuid
        && Cut(t.pend[i].dev.uuid, UUID_MAX) == uuid;
      assert u.pend[i] == t.pend[i];
    } else {
      forall i | 0 <= i < |u.pend| && u.pend[i].used ensures Cut(u.pend[i].dev.uuid, UUID_MAX) != uuid {
        assert u.pend[i] == t.pend[i];
      }
    }
  }

  lemma {:induction false} InUseAtFinds(slots: seq<Slot>, uuid: string)
    ensures InUseAt(slots, uuid) == |slots| ==>
      forall s :: 0 <= s < |slots| && slots[s].inUse ==> slots[s].uuid != uuid
  {
    if slots != [] {
      InUseAtFinds(slots[1..], uuid);
      forall s | 0 < s < |slots| ensures slots[s] == slots[1..][s - 1] {}
    }
  }

  lemma {:induction false} AddStaysGone(
      t: Table, reg: Registry, dev: Config, newUuid: string, opens: bool, uuid: string)
    requires Gone(t, uuid) && Cut(UuidFor(dev, newUuid), UUID_MAX) != uuid
    ensures Gone(Add(t, reg, dev, newUuid, opens).0, uuid)
  {
    var (u, rc) := Add(t, reg, dev, newUuid, opens);
    var k := FirstFree(t.slots);
    forall s | 0 <= s < |u.slots| && Live(u.slots[s]) ensures u.slots[s].uuid != uuid {
      assert s != k ==> u.slots[s] == t.slots[s];
    }
  }

  lemma {:induction false} QueueStaysGone(pend: seq<Pending>, dev: Config, uuid: string)
    requires !PendCut(pend, uuid) && Cut(dev.uuid, UUID_MAX) != uuid
    ensures !PendCut(Queue(pend, dev), uuid)
  {
    var q := Queue(pend, dev);
    forall i | 0 <= i < |q| && q[i].used ensures Cut(q[i].dev.uuid, UUID_MAX) != uuid {
      assert q[i] == pend[i] || q[i].dev == dev;
    }
  }

  lemma {:induction false} CancelStaysGone(pend: seq<Pending>, other: string, uuid: string)
    requires !PendCut(pend, uuid)
    ensures !PendCut(Cancel(pend, other), uuid)
  {
    var q := Cancel(pend, other);
    forall i | 0 <= i < |q| && q[i].used ensures Cut(q[i].dev.uuid, UUID_MAX) != uuid {
      assert q[i] == pend[i];
    }
  }

  lemma {:induction false} PatchStaysGone(t: Table, devs: seq<Config>, s: nat, uuid: string)
    requires s <= |t.slots| && Gone(t, uuid)
    requires forall k :: 0 <= k < |devs| && devs[k].enabled ==> Cut(devs[k].uuid, UUID_MAX) != uuid
    ensures Gone(Patch(t, devs, s), uuid)
  {
    hide Queue, Cancel, PendCut;
    if s > 0 {
      var u, r := Patch(t, devs, s - 1), Patch(t, devs, s);
      PatchStaysGone(t, devs, s - 1, uuid);
      var d := u.slots[s - 1];
      var want := Wanted(devs, d.uuid);
      forall i | 0 <= i < |r.slots| && Live(r.slots[i]) ensures r.slots[i].uuid != uuid {
        assert Live(u.slots[i]) && u.slots[i].uuid == r.slots[i].uuid;
      }
      if want.Some? && want.value.enabled {
        QueueStaysGone(u.pend, want.value, uuid);
      }
      CancelStaysGone(u.pend, d.uuid, uuid);
    }
  }

  lemma {:induction false} AddAllStaysGone(
      t: Table, reg: Registry, devs: seq<Config>, opens: Config -> bool, n: nat, uuid: string)
    requires n <= |devs| && Gone(t, uuid) && uuid != ""
    requires forall k :: 0 <= k < |devs| && devs[k].enabled ==> Cut(devs[k].uuid, UUID_MAX) != uuid
    ensures Gone(AddAll(t, reg, devs, opens, n), uuid)
  {
    hide LiveUuid, PendCut, Add, Queue;
    if n > 0 {
      var u, e := AddAll(t, reg, devs, opens, n - 1), devs[n - 1];
      AddAllStaysGone(t, reg, devs, opens, n - 1, uuid);
      if e.enabled {
        AddStaysGone(u, reg, e, "", opens(e), uuid);
        QueueStaysGone(Add(u, reg, e, "", opens(e)).0.pend, e, uuid);
      }
    }
  }

  lemma {:induction false} ReopenStaysGone(t: Table, reg: Registry, opens: Config -> bool, n: nat, uuid: string)
    requires n < |t.pend| && Gone(t, uuid) && uuid != ""
    ensures Gone(Reopen(t, reg, opens, n), uuid)
  {
    hide LiveUuid, Add;
    var p, r := t.pend[n], Reopen(t, reg, opens, n);
    if p.used {
      AddStaysGone(t, reg, p.dev, "", opens(p.dev), uuid);
      AddWeight(t, reg, p.dev, opens(p.dev));
      forall i | 0 <= i < |r.pend| && r.pend[i].used ensures Cut(r.pend[i].dev.uuid, UUID_MAX) != uuid {
        assert r.pend[i] == t.pend[i];
      }
    }
  }

  lemma {:induction false} ReopenAllStaysGone(t: Table, reg: Registry, opens: Config -> bool, n: nat, uuid: string)
    requires n <= |t.pend| && Gone(t, uuid) && uuid != ""
    ensures Gone(ReopenAll(t, reg, opens, n), uuid)
  {
    hide Gone, Reopen;
    if n > 0 {
      ReopenAllStaysGone(t, reg, opens, n - 1, uuid);
      ReopenStaysGone(ReopenAll(t, reg, opens, n - 1), reg, opens, n - 1, uuid);
    }
  }

  lemma {:induction false} DoStaysGone(t: Table, reg: Registry, op: Op, uuid: string)
    requires Avoids(op, uuid) && Gone(t, uuid) && uuid != ""
    ensures Gone(Do(t, reg, op), uuid)
  {
    var u := Do(t, reg, op);
    match op
    case AddOp(dev, newUuid, answers) => AddStaysGone(t, reg, dev, newUuid, answers, uuid);
    case ApplyOp(devs, opens) =>
      if Accepted(t, reg, devs) {
        PatchStaysGone(t, devs, |t.slots|, uuid);
        AddAllStaysGone(Patch(t, devs, |t.slots|), reg, devs, opens, |devs|, uuid);
      }
    case PendingOp(opens) => ReopenAllStaysGone(t, reg, opens, |t.pend|, uuid);
    case _ =>
      forall s | 0 <= s < |u.slots| && Live(u.slots[s]) ensures u.slots[s].uuid != uuid {
        assert Live(t.slots[s]) && u.slots[s].uuid == t.slots[s].uuid;
      }
      forall i | 0 <= i < |u.pend| && u.pend[i].used ensures Cut(u.pend[i].dev.uuid, UUID_MAX) != uuid {
        assert u.pend[i] == t.pend[i];
      }
  }

  /** After a delete the device does not come back by itself: no run that does
      not add it or ask for it makes it live again. */
  lemma {:induction false} DeletedStaysAway(t: Table, reg: Registry, ops: seq<Op>, uuid: string)
    requires Gone(t, uuid) && uuid != ""
    requires forall i :: 0 <= i < |ops| ==> Avoids(ops[i], uuid)
    ensures Gone(DoAll(t, reg, ops), uuid)
    decreases |ops|
  {
    hide Do, Gone;
    if ops != [] {
      DoStaysGone(t, reg, ops[0], uuid);
      DeletedStaysAway(Do(t, reg, ops[0]), reg, ops[1..], uuid);
    }
  }
}
