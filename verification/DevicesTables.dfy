/** Counts and lookups on the slots and the queue of pending reopens. */
module DevicesTables {
  import opened Bytes
  import opened Devices

  /** What mf_devices_init() leaves. */
  const INITIAL := Table(seq(SLOTS, _ => EMPTY), seq(SLOTS, _ => Pending(false, NO_DEVICE)), 0, [])

  predicate UuidsDistinct(slots: seq<Slot>) {
    forall i, j :: 0 <= i < j < |slots| && slots[i].inUse && slots[j].inUse ==> slots[i].uuid != slots[j].uuid
  }

  predicate NothingPending(pend: seq<Pending>) {
    forall i :: 0 <= i < |pend| ==> !pend[i].used
  }

  predicate NoneDying(slots: seq<Slot>) {
    forall s :: 0 <= s < |slots| ==> !Dying(slots[s])
  }

  predicate LiveUuid(slots: seq<Slot>, uuid: string) {
    exists s :: 0 <= s < |slots| && Live(slots[s]) && slots[s].uuid == uuid
  }

  predicate Queued(pend: seq<Pending>, e: Config) {
    exists i :: 0 <= i < |pend| && pend[i] == Pending(true, e)
  }

  predicate PendUuid(pend: seq<Pending>, uuid: string) {
    exists i :: 0 <= i < |pend| && pend[i].used && pend[i].dev.uuid == uuid
  }

  predicate PendDistinct(pend: seq<Pending>) {
    forall i, j :: 0 <= i < j < |pend| && pend[i].used && pend[j].used ==> pend[i].dev.uuid != pend[j].dev.uuid
  }

  // ----- Counting -----

  function InUseCount(slots: seq<Slot>): nat {
    if slots == [] then 0 else InUseCount(slots[1..]) + if slots[0].inUse then 1 else 0
  }

  function UsedCount(pend: seq<Pending>): nat {
    if pend == [] then 0 else UsedCount(pend[1..]) + if pend[0].used then 1 else 0
  }

  lemma {:induction false} CountSlot(slots: seq<Slot>, k: nat, d: Slot)
    requires k < |slots|
    ensures InUseCount(slots[k := d]) + (if slots[k].inUse then 1 else 0)
         == InUseCount(slots) + (if d.inUse then 1 else 0)
  {
    var s := slots[k := d];
    if k > 0 {
      assert s[1..] == slots[1..][k - 1 := d];
      CountSlot(slots[1..], k - 1, d);
    } else {
      assert s[1..] == slots[1..];
    }
  }

  lemma {:induction false} CountPend(pend: seq<Pending>, k: nat, p: Pending)
    requires k < |pend|
    ensures UsedCount(pend[k := p]) + (if pend[k].used then 1 else 0)
         == UsedCount(pend) + (if p.used then 1 else 0)
  {
    var s := pend[k := p];
    if k > 0 {
      assert s[1..] == pend[1..][k - 1 := p];
      CountPend(pend[1..], k - 1, p);
    } else {
      assert s[1..] == pend[1..];
    }
  }

  lemma {:induction false} FreeSlot(slots: seq<Slot>)
    requires InUseCount(slots) < |slots|
    ensures FirstFree(slots) < |slots|
  {
    if slots[0].inUse {
      FreeSlot(slots[1..]);
    }
  }

  lemma {:induction false} FreePend(pend: seq<Pending>)
    requires UsedCount(pend) < |pend|
    ensures FirstUnused(pend) < |pend|
  {
    if pend[0].used {
      FreePend(pend[1..]);
    }
  }

  lemma {:induction false} NoneUsed(pend: seq<Pending>)
    requires NothingPending(pend)
    ensures UsedCount(pend) == 0
  {
    if pend != [] {
      NoneUsed(pend[1..]);
    }
  }

  function DyingCount(slots: seq<Slot>): nat {
    if slots == [] then 0 else DyingCount(slots[1..]) + if Dying(slots[0]) then 1 else 0
  }

  lemma {:induction false} CountMore(slots: seq<Slot>, d: Slot)
    ensures InUseCount(slots + [d]) == InUseCount(slots) + if d.inUse then 1 else 0
    ensures DyingCount(slots + [d]) == DyingCount(slots) + if Dying(d) then 1 else 0
  {
    if slots == [] {
      assert slots + [d] == [d] && [d][1..] == [];
    } else {
      assert (slots + [d])[1..] == slots[1..] + [d];
      CountMore(slots[1..], d);
    }
  }

  lemma {:induction false} CountLast(slots: seq<Slot>, s: nat)
    requires 0 < s <= |slots|
    ensures InUseCount(slots[..s]) == InUseCount(slots[..s - 1]) + if slots[s - 1].inUse then 1 else 0
    ensures DyingCount(slots[..s]) == DyingCount(slots[..s - 1]) + if Dying(slots[s - 1]) then 1 else 0
  {
    assert slots[..s] == slots[..s - 1] + [slots[s - 1]];
    CountMore(slots[..s - 1], slots[s - 1]);
  }

  lemma {:induction false} CountPrefix(slots: seq<Slot>, s: nat)
    requires s <= |slots|
    ensures InUseCount(slots[..s]) <= InUseCount(slots)
    decreases |slots| - s
  {
    if s < |slots| {
      CountLast(slots, s + 1);
      CountPrefix(slots, s + 1);
    } else {
      assert slots[..s] == slots;
    }
  }

  lemma {:induction false} DyingSlot(slots: seq<Slot>, k: nat, d: Slot)
    requires k < |slots| && !Dying(slots[k]) && !Dying(d)
    ensures DyingCount(slots[k := d]) == DyingCount(slots)
  {
    var s := slots[k := d];
    if k > 0 {
      assert s[1..] == slots[1..][k - 1 := d];
      DyingSlot(slots[1..], k - 1, d);
    } else {
      assert s[1..] == slots[1..];
    }
  }

  /** What is left when the dying ones are gone. */
  lemma {:induction false} CountGone(a: seq<Slot>, b: seq<Slot>)
    requires |a| == |b| && forall i :: 0 <= i < |a| ==> b[i].inUse == Live(a[i])
    ensures InUseCount(b) + DyingCount(a) == InUseCount(a)
  {
    if a != [] {
      CountGone(a[1..], b[1..]);
    }
  }

  lemma {:induction false} CountKept(a: seq<Slot>, b: seq<Slot>)
    requires |a| == |b| && forall i :: 0 <= i < |a| ==> a[i].inUse == b[i].inUse
    ensures InUseCount(a) == InUseCount(b)
  {
    if a != [] {
      CountKept(a[1..], b[1..]);
    }
  }

  function Uuids(slots: seq<Slot>): set<string> {
    if slots == [] then {} else (if slots[0].inUse then {slots[0].uuid} else {}) + Uuids(slots[1..])
  }

  function EntryUuids(devs: seq<Config>): (r: set<string>)
    ensures |r| <= |devs|
  {
    if devs == [] then {} else {devs[0].uuid} + EntryUuids(devs[1..])
  }

  lemma {:induction false} UuidsAre(slots: seq<Slot>)
    ensures forall x :: x in Uuids(slots) <==> exists s :: 0 <= s < |slots| && slots[s].inUse && slots[s].uuid == x
  {
    if slots != [] {
      UuidsAre(slots[1..]);
      forall x ensures x in Uuids(slots) <==> exists s :: 0 <= s < |slots| && slots[s].inUse && slots[s].uuid == x {
        if x in Uuids(slots[1..]) {
          var s :| 0 <= s < |slots[1..]| && slots[1..][s].inUse && slots[1..][s].uuid == x;
          assert slots[s + 1].inUse && slots[s + 1].uuid == x;
        }
        if s :| 0 <= s < |slots| && slots[s].inUse && slots[s].uuid == x {
          if s > 0 {
            assert slots[1..][s - 1] == slots[s];
          }
        }
      }
    }
  }

  lemma {:induction false} CountUuids(slots: seq<Slot>)
    requires UuidsDistinct(slots)
    ensures InUseCount(slots) == |Uuids(slots)|
  {
    if slots != [] {
      CountUuids(slots[1..]);
      UuidsAre(slots[1..]);
      forall s | 0 <= s < |slots[1..]| ensures slots[1..][s] == slots[s + 1] {}
      assert slots[0].inUse ==> slots[0].uuid !in Uuids(slots[1..]);
    }
  }

  lemma {:induction false} EntryIn(devs: seq<Config>, k: nat)
    requires k < |devs|
    ensures devs[k].uuid in EntryUuids(devs)
  {
    if k > 0 {
      EntryIn(devs[1..], k - 1);
    }
  }

  lemma {:induction false} SubsetSize(a: set<string>, b: set<string>)
    requires a <= b
    ensures |a| <= |b|
  {
    assert b == a + (b - a);
  }

  // ----- The queue -----

  lemma {:induction false} QueuedIs(pend: seq<Pending>, i: nat)
    requires i < |pend| && pend[i].used
    ensures Queued(pend, pend[i].dev)
  {
    assert pend[i] == Pending(true, pend[i].dev);
  }

  /** Two queued entries of one uuid are one. */
  lemma {:induction false} QueuedOnce(pend: seq<Pending>, i: nat, e: Config)
    requires PendDistinct(pend) && i < |pend| && pend[i].used && Queued(pend, e) && e.uuid == pend[i].dev.uuid
    ensures pend[i].dev == e
  {
    var j :| 0 <= j < |pend| && pend[j] == Pending(true, e);
    assert j == i;
  }

  /** One place of the queue is given to an entry, and with it the entry's uuid. */
  lemma {:induction false} PlaceTaken(pend: seq<Pending>, k: nat, e: Config)
    requires k < |pend| && PendDistinct(pend)
    requires forall i :: 0 <= i < |pend| && i != k && pend[i].used ==> pend[i].dev.uuid != e.uuid
    requires pend[k].used ==> pend[k].dev.uuid == e.uuid
    ensures var q := pend[k := Pending(true, e)];
      && PendDistinct(q) && UsedCount(q) <= UsedCount(pend) + 1
      && forall x :: Queued(q, x) <==> x == e || (Queued(pend, x) && x.uuid != e.uuid)
  {
    var q := pend[k := Pending(true, e)];
    CountPend(pend, k, Pending(true, e));
    assert q[k] == Pending(true, e);
    forall x ensures Queued(q, x) <==> x == e || (Queued(pend, x) && x.uuid != e.uuid) {
      if Queued(q, x) {
        var i :| 0 <= i < |q| && q[i] == Pending(true, x);
        assert i != k ==> pend[i] == q[i];
      }
      if Queued(pend, x) && x.uuid != e.uuid {
        var i :| 0 <= i < |pend| && pend[i] == Pending(true, x);
        assert i != k && q[i] == pend[i];
      }
    }
  }

  /** Queueing with room left: the entry is queued, in place of what was queued
      under its uuid, and nothing else changes. */
  lemma {:induction false} QueueEffect(pend: seq<Pending>, e: Config)
    requires UsedCount(pend) < |pend| && PendDistinct(pend)
    ensures var q := Queue(pend, e);
      && PendDistinct(q) && UsedCount(q) <= UsedCount(pend) + 1
      && forall x :: Queued(q, x) <==> x == e || (Queued(pend, x) && x.uuid != e.uuid)
  {
    hide Queued, UsedCount;
    FreePend(pend);
    var at, free := QueuedAt(pend, e.uuid), FirstUnused(pend);
    if at < |pend| {
      forall i | 0 <= i < |pend| && i != at && pend[i].used ensures pend[i].dev.uuid != e.uuid {
        assert pend[if i < at then i else at].dev.uuid != pend[if i < at then at else i].dev.uuid;
      }
      PlaceTaken(pend, at, e);
      assert pend[at].(dev := e) == Pending(true, e);
    } else {
      PlaceTaken(pend, free, e);
    }
  }

  lemma {:induction false} CountCancelled(a: seq<Pending>, b: seq<Pending>)
    requires |a| == |b| && forall i :: 0 <= i < |a| && b[i].used ==> a[i].used
    ensures UsedCount(b) <= UsedCount(a)
  {
    if a != [] {
      CountCancelled(a[1..], b[1..]);
    }
  }

  /** Cancelling a uuid takes its entry out. */
  lemma {:induction false} CancelEffect(pend: seq<Pending>, uuid: string)
    requires PendDistinct(pend) && forall x :: Queued(pend, x) ==> x.uuid != ""
    ensures var q := Cancel(pend, uuid);
      && PendDistinct(q) && UsedCount(q) <= UsedCount(pend)
      && forall x :: Queued(q, x) <==> Queued(pend, x) && x.uuid != uuid
  {
    var q := Cancel(pend, uuid);
    CountCancelled(pend, q);
    forall x ensures Queued(q, x) <==> Queued(pend, x) && x.uuid != uuid {
      if Queued(q, x) {
        var i :| 0 <= i < |q| && q[i] == Pending(true, x);
        assert pend[i] == q[i];
      }
      if Queued(pend, x) && x.uuid != uuid {
        var i :| 0 <= i < |pend| && pend[i] == Pending(true, x);
        assert q[i] == pend[i];
      }
    }
  }

  // ----- The config's entries -----

  lemma {:induction false} WantedIs(devs: seq<Config>, k: nat)
    requires k < |devs| && forall i, j :: 0 <= i < j < |devs| ==> devs[i].uuid != devs[j].uuid
    ensures Wanted(devs, devs[k].uuid) == Some(devs[k])
  {
    if k > 0 {
      assert devs[0].uuid != devs[k].uuid;
      assert devs[1..][k - 1] == devs[k];
      WantedIs(devs[1..], k - 1);
    }
  }

  lemma {:induction false} NoneInUse(slots: seq<Slot>)
    requires forall s :: 0 <= s < |slots| ==> !slots[s].inUse
    ensures InUseCount(slots) == 0
  {
    if slots != [] {
      NoneInUse(slots[1..]);
    }
  }
}
