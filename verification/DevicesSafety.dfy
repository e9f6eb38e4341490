/** What every run of the slot operations keeps, and exactly when: uuids and live
    names stay distinct, a slot keeps its device until the device's protothread
    returns, and each plugin context is closed once. */
module DevicesSafety {
  import opened Bytes
  import opened Devices
  import opened DevicesConverge
  import opened DevicesPatch
  import opened DevicesTables

  datatype Op =
    | AddOp(dev: Config, newUuid: string, answers: bool)
    | RenameOp(uuid: string, name: string)
    | DeleteOp(uuid: string)
    | ApplyOp(devs: seq<Config>, opens: Config -> bool)
    | PendingOp(opens: Config -> bool)
    | ExitOp(slot: nat, quit: bool)

  /** A protothread returns when its device is stopped, or at shutdown. */
  predicate Exits(t: Table, op: Op) {
    op.ExitOp? && op.slot < |t.slots| && t.slots[op.slot].inUse && (t.slots[op.slot].stop || op.quit)
  }

  function Do(t: Table, reg: Registry, op: Op): (u: Table)
    ensures |u.slots| == |t.slots| && |u.pend| == |t.pend|
  {
    match op
    case AddOp(dev, newUuid, answers) => Add(t, reg, dev, newUuid, answers).0
    case RenameOp(uuid, name) => Rename(t, uuid, name).0
    case DeleteOp(uuid) => Delete(t, uuid).0
    case ApplyOp(devs, opens) => if Accepted(t, reg, devs) then Apply(t, reg, devs, opens) else t
    case PendingOp(opens) => ReopenAll(t, reg, opens, |t.pend|)
    case ExitOp(slot, quit) => if Exits(t, op) then Exit(t, slot) else t
  }

  function DoAll(t: Table, reg: Registry, ops: seq<Op>): (u: Table)
    ensures |u.slots| == |t.slots| && |u.pend| == |t.pend|
    decreases |ops|
  {
    if ops == [] then t else DoAll(Do(t, reg, ops[0]), reg, ops[1..])
  }

  // ----- The invariant -----

  predicate LiveNamesDistinct(slots: seq<Slot>) {
    forall i, j :: 0 <= i < j < |slots| && Live(slots[i]) && Live(slots[j]) ==> slots[i].name != slots[j].name
  }

  predicate Named(slots: seq<Slot>) {
    forall s :: 0 <= s < |slots| && slots[s].inUse ==> slots[s].uuid != ""
  }

  predicate PendNamed(pend: seq<Pending>) {
    forall i :: 0 <= i < |pend| && pend[i].used ==> pend[i].dev.uuid != ""
  }

  predicate HeldBySlot(slots: seq<Slot>, c: nat) {
    exists s :: 0 <= s < |slots| && slots[s].ctx == Some(c)
  }

  /** Every context opened is held by one in-use slot or was closed once, and
      with plugins loaded every in-use slot holds one. */
  ghost predicate Contexts(t: Table, reg: Registry) {
    && (forall s :: 0 <= s < |t.slots| ==> (t.slots[s].ctx.Some? <==> t.slots[s].inUse && reg.loaded))
    && (forall s :: 0 <= s < |t.slots| && t.slots[s].ctx.Some? ==>
          t.slots[s].ctx.value < t.contexts && t.slots[s].ctx.value !in t.closed)
    && (forall i, j :: 0 <= i < j < |t.slots| && t.slots[i].ctx.Some? ==> t.slots[i].ctx != t.slots[j].ctx)
    && (forall i :: 0 <= i < |t.closed| ==> t.closed[i] < t.contexts)
    && (forall i, j :: 0 <= i < j < |t.closed| ==> t.closed[i] != t.closed[j])
    && (forall c: nat :: c < t.contexts ==> c in t.closed || HeldBySlot(t.slots, c))
  }

  ghost predicate Safe(t: Table, reg: Registry) {
    && UuidsDistinct(t.slots) && Named(t.slots) && LiveNamesDistinct(t.slots)
    && PendNamed(t.pend) && Contexts(t, reg)
  }

  // ----- Uuids -----

  /** A generated uuid is never empty. */
  predicate Generated(op: Op) {
    op.AddOp? ==> op.newUuid != ""
  }

  predicate AllGenerated(ops: seq<Op>) {
    forall i :: 0 <= i < |ops| ==> Generated(ops[i])
  }

  function UuidFor(dev: Config, newUuid: string): string {
    if dev.uuid != "" then dev.uuid else newUuid
  }

  /** What mf_devices_add() asks before it fills a slot. */
  predicate Passes(t: Table, reg: Registry, dev: Config, opens: bool) {
    && dev.name != "" && dev.kind != "" && dev.driver != "" && |dev.name| <= 31
    && !NameTaken(t.slots, dev.name, -1) && !UuidInUse(t.slots, dev.uuid)
    && (exists s :: 0 <= s < |t.slots| && !t.slots[s].inUse)
    && (reg.loaded ==> reg.known(dev.kind, dev.driver) && opens)
  }

  /** It passes although a slot in use has the uuid its own slot will hold, cut to
      what fits: the check saw all of its characters. */
  predicate Doubles(t: Table, reg: Registry, dev: Config, newUuid: string, opens: bool) {
    Passes(t, reg, dev, opens) && UuidInUse(t.slots, Cut(UuidFor(dev, newUuid), 36))
  }

  lemma {:induction false} AddedExactlyWhen(t: Table, reg: Registry, dev: Config, newUuid: string, opens: bool)
    ensures Add(t, reg, dev, newUuid, opens).1 == Added <==> Passes(t, reg, dev, opens)
  {
    var k := FirstFree(t.slots);
    assert k < |t.slots| ==> !t.slots[k].inUse;
  }

  predicate AddAllDoubles(t: Table, reg: Registry, devs: seq<Config>, opens: Config -> bool, n: nat)
    requires n <= |devs|
  {
    n > 0 &&
    (|| AddAllDoubles(t, reg, devs, opens, n - 1)
     || (devs[n - 1].enabled && Doubles(AddAll(t, reg, devs, opens, n - 1), reg, devs[n - 1], "", opens(devs[n - 1]))))
  }

  predicate ReopenAllDoubles(t: Table, reg: Registry, opens: Config -> bool, n: nat)
    requires n <= |t.pend|
  {
    n > 0 &&
    (|| ReopenAllDoubles(t, reg, opens, n - 1)
     || (var u := ReopenAll(t, reg, opens, n - 1);
         u.pend[n - 1].used && Doubles(u, reg, u.pend[n - 1].dev, "", opens(u.pend[n - 1].dev))))
  }

  /** Some add of the operation doubles a uuid. */
  predicate DoDoubles(t: Table, reg: Registry, op: Op) {
    match op
    case AddOp(dev, newUuid, answers) => Doubles(t, reg, dev, newUuid, answers)
    case ApplyOp(devs, opens) =>
      Accepted(t, reg, devs) && AddAllDoubles(Patch(t, devs, |t.slots|), reg, devs, opens, |devs|)
    case PendingOp(opens) => ReopenAllDoubles(t, reg, opens, |t.pend|)
    case _ => false
  }

  predicate RunDoubles(t: Table, reg: Registry, ops: seq<Op>)
    decreases |ops|
  {
    ops != [] && (DoDoubles(t, reg, ops[0]) || RunDoubles(Do(t, reg, ops[0]), reg, ops[1..]))
  }

  /** Adding keeps uuids distinct exactly if it does not double one. */
  lemma {:induction false} AddIsDistinctExactlyWhen(t: Table, reg: Registry, dev: Config, newUuid: string, opens: bool)
    requires UuidsDistinct(t.slots) && Named(t.slots) && UuidFor(dev, newUuid) != ""
    ensures UuidsDistinct(Add(t, reg, dev, newUuid, opens).0.slots) <==> !Doubles(t, reg, dev, newUuid, opens)
  {
    var (u, rc) := Add(t, reg, dev, newUuid, opens);
    var k, uuid := FirstFree(t.slots), Cut(UuidFor(dev, newUuid), UUID_MAX);
    AddedExactlyWhen(t, reg, dev, newUuid, opens);
    if rc == Added {
      assert uuid != "" && u.slots[k].uuid == uuid && u.slots[k].inUse;
      if UuidInUse(t.slots, uuid) {
        DoubledStays(t.slots, u.slots, k);
      }
    }
  }

  /** Two slots in use with one uuid, one of them new. */
  lemma {:induction false} DoubledStays(a: seq<Slot>, b: seq<Slot>, k: nat)
    requires k < |a| == |b| && !a[k].inUse && b[k].inUse && UuidInUse(a, b[k].uuid)
    requires forall s :: 0 <= s < |a| && a[s].inUse ==> b[s] == a[s]
    ensures !UuidsDistinct(b)
  {
    var s :| 0 <= s < |a| && a[s].inUse && a[s].uuid == b[k].uuid;
    assert b[if s < k then s else k].uuid == b[if s < k then k else s].uuid;
  }

  lemma {:induction false} NotDistinctStays(a: seq<Slot>, b: seq<Slot>)
    requires |a| == |b| && !UuidsDistinct(a) && AllSteady(a, b)
    ensures !UuidsDistinct(b)
  {
    var i, j :| 0 <= i < j < |a| && a[i].inUse && a[j].inUse && a[i].uuid == a[j].uuid;
    assert Steady(a[i], b[i]) && Steady(a[j], b[j]);
  }

  // ----- A slot keeps its device -----

  /** The same device, which does not come back once stopped. */
  predicate Steady(a: Slot, b: Slot) {
    a.inUse ==>
      && b.inUse && (a.stop ==> b.stop)
      && b.uuid == a.uuid && b.kind == a.kind && b.driver == a.driver
      && b.bus == a.bus && b.endpoint == a.endpoint && b.ctx == a.ctx
  }

  predicate AllSteady(a: seq<Slot>, b: seq<Slot>)
    requires |a| == |b|
  {
    forall s :: 0 <= s < |a| ==> Steady(a[s], b[s])
  }

  lemma {:induction false} AddAllSteady(t: Table, reg: Registry, devs: seq<Config>, opens: Config -> bool, n: nat)
    requires n <= |devs|
    ensures AllSteady(t.slots, AddAll(t, reg, devs, opens, n).slots)
  {
    AddAllKeeps(t, reg, devs, opens, n);
  }

  lemma {:induction false} ReopenAllSteady(t: Table, reg: Registry, opens: Config -> bool, n: nat)
    requires n <= |t.pend|
    ensures AllSteady(t.slots, ReopenAll(t, reg, opens, n).slots)
  {
    if n > 0 {
      ReopenAllSteady(t, reg, opens, n - 1);
      var u := ReopenAll(t, reg, opens, n - 1);
      AddWeight(u, reg, u.pend[n - 1].dev, opens(u.pend[n - 1].dev));
    }
  }

  lemma {:induction false} ApplySteady(t: Table, reg: Registry, devs: seq<Config>, opens: Config -> bool)
    ensures AllSteady(t.slots, Apply(t, reg, devs, opens).slots)
  {
    var p := Patch(t, devs, |t.slots|);
    PatchPointwise(t, devs, |t.slots|);
    AddAllSteady(p, reg, devs, opens, |devs|);
    hide Patch, AddAll;
    forall s | 0 <= s < |t.slots| ensures Steady(t.slots[s], Apply(t, reg, devs, opens).slots[s]) {
      assert Steady(p.slots[s], Apply(t, reg, devs, opens).slots[s]);
    }
  }

  lemma {:induction false} DoSteady(t: Table, reg: Registry, op: Op, s: nat)
    requires s < |t.slots| && !(Exits(t, op) && op.slot == s)
    ensures Steady(t.slots[s], Do(t, reg, op).slots[s])
  {
    hide Apply, ReopenAll, Accepted, Cancel, NameTaken;
    match op
    case ApplyOp(devs, opens) => ApplySteady(t, reg, devs, opens);
    case PendingOp(opens) => ReopenAllSteady(t, reg, opens, |t.pend|);
    case _ =>
  }

  /** A slot is reused only after its protothread returned. */
  lemma {:induction false} KeptUntilExit(t: Table, reg: Registry, ops: seq<Op>, s: nat)
    requires s < |t.slots| && forall i :: 0 <= i < |ops| ==> !(ops[i].ExitOp? && ops[i].slot == s)
    ensures Steady(t.slots[s], DoAll(t, reg, ops).slots[s])
    decreases |ops|
  {
    if ops != [] {
      var u := Do(t, reg, ops[0]);
      assert !(ops[0].ExitOp? && ops[0].slot == s);
      DoSteady(t, reg, ops[0], s);
      KeptUntilExit(u, reg, ops[1..], s);
    }
  }

  // ----- Adding keeps the invariant -----

  lemma {:induction false} AddSafe(t: Table, reg: Registry, dev: Config, newUuid: string, opens: bool)
    requires Safe(t, reg) && UuidFor(dev, newUuid) != ""
    ensures Safe(Add(t, reg, dev, newUuid, opens).0, reg) <==> !Doubles(t, reg, dev, newUuid, opens)
  {
    hide UuidsDistinct, Contexts, Doubles;
    var (u, rc) := Add(t, reg, dev, newUuid, opens);
    var k := FirstFree(t.slots);
    AddIsDistinctExactlyWhen(t, reg, dev, newUuid, opens);
    if rc == Added {
      AddContexts(t, u, reg, k);
    } else if rc == OpenFailed {
      EmptyContexts(t, u, reg, k);
    }
  }

  lemma {:induction false} AddContexts(t: Table, u: Table, reg: Registry, k: nat)
    requires Contexts(t, reg) && k < |t.slots| && !t.slots[k].inUse
    requires |u.slots| == |t.slots| && u.slots == t.slots[k := u.slots[k]] && u.slots[k].inUse
    requires u.slots[k].ctx == (if reg.loaded then Some(t.contexts) else None)
    requires u.contexts == t.contexts + (if reg.loaded then 1 else 0) && u.closed == t.closed
    ensures Contexts(u, reg)
  {
    forall s | 0 <= s < |u.slots| && s != k ensures u.slots[s] == t.slots[s] {}
    forall c: nat | c < u.contexts && c !in u.closed ensures HeldBySlot(u.slots, c) {
      if c < t.contexts {
        var s :| 0 <= s < |t.slots| && t.slots[s].ctx == Some(c);
        assert u.slots[s] == t.slots[s];
      }
    }
  }

  lemma {:induction false} EmptyContexts(t: Table, u: Table, reg: Registry, k: nat)
    requires Contexts(t, reg) && k < |t.slots| && !t.slots[k].inUse
    requires u == t.(slots := t.slots[k := EMPTY])
    ensures Contexts(u, reg)
  {
    forall c: nat | c < u.contexts && c !in u.closed ensures HeldBySlot(u.slots, c) {
      var s :| 0 <= s < |t.slots| && t.slots[s].ctx == Some(c);
      assert u.slots[s] == t.slots[s];
    }
  }

  /** Changing names, settings and stop flags leaves the contexts alone. */
  lemma {:induction false} SameContexts(t: Table, u: Table, reg: Registry)
    requires Contexts(t, reg) && |u.slots| == |t.slots| && u.contexts == t.contexts && u.closed == t.closed
    requires forall s :: 0 <= s < |t.slots| ==>
      u.slots[s].ctx == t.slots[s].ctx && u.slots[s].inUse == t.slots[s].inUse
    ensures Contexts(u, reg)
  {
    forall c: nat | c < u.contexts && c !in u.closed ensures HeldBySlot(u.slots, c) {
      var s :| 0 <= s < |t.slots| && t.slots[s].ctx == Some(c);
      assert u.slots[s].ctx == Some(c);
    }
  }

  lemma {:induction false} QueueNamed(pend: seq<Pending>, dev: Config)
    requires PendNamed(pend) && dev.uuid != ""
    ensures PendNamed(Queue(pend, dev))
  {}

  // ----- Applying keeps it -----

  lemma {:induction false} PatchPendNamed(t: Table, devs: seq<Config>, s: nat)
    requires s <= |t.slots| && PendNamed(t.pend)
    requires forall k :: 0 <= k < |devs| ==> devs[k].uuid != ""
    ensures PendNamed(Patch(t, devs, s).pend)
  {
    if s > 0 {
      PatchPendNamed(t, devs, s - 1);
      var u := Patch(t, devs, s - 1);
      var want := Wanted(devs, u.slots[s - 1].uuid);
      if want.Some? {
        QueueNamed(u.pend, want.value);
      }
    }
  }

  lemma {:induction false} PatchSafe(t: Table, reg: Registry, devs: seq<Config>)
    requires Safe(t, reg) && ValidConfig(reg, devs)
    ensures Safe(Patch(t, devs, |t.slots|), reg)
  {
    var u := Patch(t, devs, |t.slots|);
    PatchPointwise(t, devs, |t.slots|);
    PatchPendNamed(t, devs, |t.slots|);
    hide Patch;
    SameContexts(t, u, reg);
    forall i, j | 0 <= i < j < |u.slots| && Live(u.slots[i]) && Live(u.slots[j])
      ensures u.slots[i].name != u.slots[j].name
    {
      var a, b := Wanted(devs, t.slots[i].uuid).value, Wanted(devs, t.slots[j].uuid).value;
      assert t.slots[i].uuid != t.slots[j].uuid;
      NamesDiffer(reg, devs, a, b);
    }
  }

  lemma {:induction false} NamesDiffer(reg: Registry, devs: seq<Config>, a: Config, b: Config)
    requires ValidConfig(reg, devs) && a in devs && b in devs && a.uuid != b.uuid && a.enabled && b.enabled
    ensures Cut(a.name, NAME_MAX) != Cut(b.name, NAME_MAX)
  {
    var i :| 0 <= i < |devs| && devs[i] == a;
    var j :| 0 <= j < |devs| && devs[j] == b;
    assert devs[if i < j then i else j].name != devs[if i < j then j else i].name;
  }

  lemma {:induction false} QueueSafe(t: Table, reg: Registry, dev: Config)
    requires dev.uuid != ""
    ensures Safe(t, reg) ==> Safe(t.(pend := Queue(t.pend, dev)), reg)
  {
    hide UuidsDistinct, Named, LiveNamesDistinct, Queue;
    if Safe(t, reg) {
      QueueNamed(t.pend, dev);
      SameContexts(t, t.(pend := Queue(t.pend, dev)), reg);
    }
  }

  /** What is not distinct any more stays so to the end of the pass. */
  lemma {:induction false} AddWantedSafe(t: Table, reg: Registry, e: Config, opens: Config -> bool)
    requires Safe(t, reg) && e.uuid != ""
    ensures var doubles := e.enabled && Doubles(t, reg, e, "", opens(e));
      && (!doubles ==> Safe(AddWanted(t, reg, e, opens), reg))
      && (doubles ==> !UuidsDistinct(AddWanted(t, reg, e, opens).slots))
  {
    hide Safe, Add, Queue;
    SafeIsNamed(t, reg);
    AddSafe(t, reg, e, "", opens(e));
    AddIsDistinctExactlyWhen(t, reg, e, "", opens(e));
    QueueSafe(Add(t, reg, e, "", opens(e)).0, reg, e);
    if UuidInUse(t.slots, e.uuid) {
      InUseIsNotAdded(t, reg, e, opens(e));
    }
  }

  lemma {:induction false} InUseIsNotAdded(t: Table, reg: Registry, e: Config, opens: bool)
    requires UuidInUse(t.slots, e.uuid)
    ensures Add(t, reg, e, "", opens).1 != Added
  {}

  lemma {:induction false} SafeIsNamed(t: Table, reg: Registry)
    requires Safe(t, reg)
    ensures UuidsDistinct(t.slots) && Named(t.slots)
  {}

  lemma {:induction false} AddWantedSteady(t: Table, reg: Registry, e: Config, opens: Config -> bool)
    ensures AllSteady(t.slots, AddWanted(t, reg, e, opens).slots)
  {
    AddWeight(t, reg, e, opens(e));
  }

  lemma {:induction false} AddAllSafe(t: Table, reg: Registry, devs: seq<Config>, opens: Config -> bool, n: nat)
    requires n <= |devs| && Safe(t, reg)
    requires forall k :: 0 <= k < |devs| ==> devs[k].uuid != ""
    ensures !AddAllDoubles(t, reg, devs, opens, n) ==> Safe(AddAll(t, reg, devs, opens, n), reg)
    ensures AddAllDoubles(t, reg, devs, opens, n) ==> !UuidsDistinct(AddAll(t, reg, devs, opens, n).slots)
  {
    hide Safe, AddWanted, Doubles, UuidsDistinct, AllSteady;
    if n > 0 {
      var u, e := AddAll(t, reg, devs, opens, n - 1), devs[n - 1];
      AddAllSafe(t, reg, devs, opens, n - 1);
      if AddAllDoubles(t, reg, devs, opens, n - 1) {
        AddWantedSteady(u, reg, e, opens);
        NotDistinctStays(u.slots, AddWanted(u, reg, e, opens).slots);
      } else {
        AddWantedSafe(u, reg, e, opens);
      }
    }
  }

  lemma {:induction false} ReopenSteady(t: Table, reg: Registry, opens: Config -> bool, i: nat)
    requires i < |t.pend|
    ensures AllSteady(t.slots, Reopen(t, reg, opens, i).slots)
  {
    AddWeight(t, reg, t.pend[i].dev, opens(t.pend[i].dev));
  }

  lemma {:induction false} UnqueueSafe(t: Table, reg: Registry, i: nat)
    requires i < |t.pend|
    ensures Safe(t, reg) ==> Safe(t.(pend := t.pend[i := t.pend[i].(used := false)]), reg)
  {
    hide UuidsDistinct, Named, LiveNamesDistinct;
    if Safe(t, reg) {
      SameContexts(t, t.(pend := t.pend[i := t.pend[i].(used := false)]), reg);
    }
  }

  lemma {:induction false} ReopenSafe(t: Table, reg: Registry, opens: Config -> bool, i: nat)
    requires i < |t.pend| && Safe(t, reg)
    ensures var doubles := t.pend[i].used && Doubles(t, reg, t.pend[i].dev, "", opens(t.pend[i].dev));
      && (!doubles ==> Safe(Reopen(t, reg, opens, i), reg))
      && (doubles ==> !UuidsDistinct(Reopen(t, reg, opens, i).slots))
  {
    assert t.pend[i].used ==> t.pend[i].dev.uuid != "";
    hide Safe, Add;
    SafeIsNamed(t, reg);
    var p := t.pend[i];
    if p.used {
      AddSafe(t, reg, p.dev, "", opens(p.dev));
      AddIsDistinctExactlyWhen(t, reg, p.dev, "", opens(p.dev));
      var u := Add(t, reg, p.dev, "", opens(p.dev)).0;
      assert u.pend == t.pend by { AddWeight(t, reg, p.dev, opens(p.dev)); }
      UnqueueSafe(u, reg, i);
      if UuidInUse(t.slots, p.dev.uuid) {
        InUseIsNotAdded(t, reg, p.dev, opens(p.dev));
      }
    }
  }

  lemma {:induction false} ReopenAllSafe(t: Table, reg: Registry, opens: Config -> bool, n: nat)
    requires n <= |t.pend| && Safe(t, reg)
    ensures !ReopenAllDoubles(t, reg, opens, n) ==> Safe(ReopenAll(t, reg, opens, n), reg)
    ensures ReopenAllDoubles(t, reg, opens, n) ==> !UuidsDistinct(ReopenAll(t, reg, opens, n).slots)
  {
    hide Safe, Reopen, Doubles, UuidsDistinct, AllSteady;
    if n > 0 {
      var u := ReopenAll(t, reg, opens, n - 1);
      ReopenAllSafe(t, reg, opens, n - 1);
      if ReopenAllDoubles(t, reg, opens, n - 1) {
        ReopenSteady(u, reg, opens, n - 1);
        NotDistinctStays(u.slots, Reopen(u, reg, opens, n - 1).slots);
      } else {
        ReopenSafe(u, reg, opens, n - 1);
      }
    }
  }

  lemma {:induction false} ExitSafe(t: Table, reg: Registry, s: nat)
    requires Safe(t, reg) && s < |t.slots| && t.slots[s].inUse
    ensures Safe(Exit(t, s), reg)
  {
    var u := Exit(t, s);
    forall i | 0 <= i < |u.slots| && i != s ensures u.slots[i] == t.slots[i] {}
    forall c: nat | c < u.contexts && c !in u.closed ensures HeldBySlot(u.slots, c) {
      var i :| 0 <= i < |t.slots| && t.slots[i].ctx == Some(c);
      assert u.closed == t.closed + (if t.slots[s].ctx.Some? then [t.slots[s].ctx.value] else []);
      assert i != s;
      assert u.slots[i] == t.slots[i];
    }
  }

  lemma {:induction false} StopSafe(t: Table, reg: Registry, k: nat)
    requires Safe(t, reg) && k < |t.slots| && t.slots[k].inUse
    ensures Safe(t.(slots := t.slots[k := t.slots[k].(stop := true)]), reg)
  {
    var u := t.(slots := t.slots[k := t.slots[k].(stop := true)]);
    SameContexts(t, u, reg);
    hide Contexts, PendNamed;
  }

  lemma {:induction false} CancelSafe(t: Table, reg: Registry, uuid: string)
    requires Safe(t, reg)
    ensures Safe(t.(pend := Cancel(t.pend, uuid)), reg)
  {
    SameContexts(t, t.(pend := Cancel(t.pend, uuid)), reg);
    hide Contexts, UuidsDistinct, Named, LiveNamesDistinct;
  }

  lemma {:induction false} DeleteSafe(t: Table, reg: Registry, uuid: string)
    requires Safe(t, reg)
    ensures Safe(Delete(t, uuid).0, reg)
  {
    hide Safe, Cancel;
    if uuid != "" {
      CancelSafe(t, reg, uuid);
      var k := InUseAt(t.slots, uuid);
      if k < |t.slots| {
        StopSafe(t.(pend := Cancel(t.pend, uuid)), reg, k);
      }
    }
  }

  lemma {:induction false} RenameSafe(t: Table, reg: Registry, uuid: string, name: string)
    requires Safe(t, reg)
    ensures Safe(Rename(t, uuid, name).0, reg)
  {
    var u, k := Rename(t, uuid, name).0, LiveAt(t.slots, uuid);
    SameContexts(t, u, reg);
    hide Contexts, PendNamed;
    if u != t {
      NewName(t.slots, k, name);
    }
  }

  lemma {:induction false} NewName(slots: seq<Slot>, k: nat, name: string)
    requires k < |slots| && Live(slots[k]) && !NameTaken(slots, name, k)
    requires UuidsDistinct(slots) && Named(slots) && LiveNamesDistinct(slots)
    ensures var u := slots[k := slots[k].(name := name)]; UuidsDistinct(u) && Named(u) && LiveNamesDistinct(u)
  {}

  /** An operation keeps the invariant exactly if it doubles no uuid. */
  lemma {:induction false} DoSafeExactlyWhen(t: Table, reg: Registry, op: Op)
    requires Safe(t, reg) && Generated(op)
    ensures Safe(Do(t, reg, op), reg) <==> !DoDoubles(t, reg, op)
  {
    hide UuidsDistinct, Named, LiveNamesDistinct, PendNamed, Contexts, Doubles, AddAll, ReopenAll, Patch, Add, Exit,
      Rename, Delete;
    match op
    case AddOp(dev, newUuid, answers) => AddSafe(t, reg, dev, newUuid, answers);
    case RenameOp(uuid, name) => RenameSafe(t, reg, uuid, name);
    case DeleteOp(uuid) => DeleteSafe(t, reg, uuid);
    case ApplyOp(devs, opens) =>
      if Accepted(t, reg, devs) {
        PatchSafe(t, reg, devs);
        AddAllSafe(Patch(t, devs, |t.slots|), reg, devs, opens, |devs|);
      }
    case PendingOp(opens) => ReopenAllSafe(t, reg, opens, |t.pend|);
    case ExitOp(slot, quit) =>
      if Exits(t, op) {
        ExitSafe(t, reg, slot);
      }
  }

  ghost predicate AlwaysSafe(t: Table, reg: Registry, ops: seq<Op>)
    decreases |ops|
  {
    Safe(t, reg) && (ops != [] ==> AlwaysSafe(Do(t, reg, ops[0]), reg, ops[1..]))
  }

  /** A run keeps the invariant all along if and only if none of its adds doubles
      a uuid. */
  lemma {:induction false} RunIsSafeExactlyWhen(t: Table, reg: Registry, ops: seq<Op>)
    requires Safe(t, reg) && AllGenerated(ops)
    ensures AlwaysSafe(t, reg, ops) <==> !RunDoubles(t, reg, ops)
    decreases |ops|
  {
    hide Safe, Do, DoDoubles, Generated;
    if ops != [] {
      assert Generated(ops[0]);
      DoSafeExactlyWhen(t, reg, ops[0]);
      if Safe(Do(t, reg, ops[0]), reg) {
        RunIsSafeExactlyWhen(Do(t, reg, ops[0]), reg, ops[1..]);
      }
    }
  }

  // ----- Uuids that fit -----

  predicate PendFits(pend: seq<Pending>) {
    forall i :: 0 <= i < |pend| && pend[i].used ==> |pend[i].dev.uuid| <= UUID_MAX
  }

  /** What an operation brings: uuids that fit a slot, and a generated one that
      is fresh. */
  predicate Fresh(t: Table, op: Op) {
    match op
    case AddOp(dev, newUuid, _) =>
      |dev.uuid| <= UUID_MAX && 0 < |newUuid| <= UUID_MAX && !UuidInUse(t.slots, newUuid)
    case ApplyOp(devs, _) => forall k :: 0 <= k < |devs| ==> |devs[k].uuid| <= UUID_MAX
    case _ => true
  }

  predicate AllFresh(t: Table, reg: Registry, ops: seq<Op>)
    decreases |ops|
  {
    ops == [] || (Fresh(t, ops[0]) && AllFresh(Do(t, reg, ops[0]), reg, ops[1..]))
  }

  lemma {:induction false} FitsNeverDoubles(t: Table, reg: Registry, dev: Config, newUuid: string, opens: bool)
    requires |UuidFor(dev, newUuid)| <= UUID_MAX && (dev.uuid == "" ==> !UuidInUse(t.slots, newUuid))
    ensures !Doubles(t, reg, dev, newUuid, opens)
  {}

  lemma {:induction false} QueueFits(pend: seq<Pending>, dev: Config)
    requires PendFits(pend) && |dev.uuid| <= UUID_MAX
    ensures PendFits(Queue(pend, dev))
  {}

  lemma {:induction false} PatchFits(t: Table, devs: seq<Config>, s: nat)
    requires s <= |t.slots| && PendFits(t.pend)
    requires forall k :: 0 <= k < |devs| ==> |devs[k].uuid| <= UUID_MAX
    ensures PendFits(Patch(t, devs, s).pend)
  {
    if s > 0 {
      PatchFits(t, devs, s - 1);
      var u := Patch(t, devs, s - 1);
      var want := Wanted(devs, u.slots[s - 1].uuid);
      if want.Some? {
        QueueFits(u.pend, want.value);
      }
    }
  }

  lemma {:induction false} AddAllFits(t: Table, reg: Registry, devs: seq<Config>, opens: Config -> bool, n: nat)
    requires n <= |devs| && PendFits(t.pend)
    requires forall k :: 0 <= k < |devs| ==> |devs[k].uuid| <= UUID_MAX
    ensures PendFits(AddAll(t, reg, devs, opens, n).pend) && !AddAllDoubles(t, reg, devs, opens, n)
  {
    hide Doubles, Add, Queue;
    if n > 0 {
      var u, e := AddAll(t, reg, devs, opens, n - 1), devs[n - 1];
      AddAllFits(t, reg, devs, opens, n - 1);
      NothingInUse(u.slots);
      FitsNeverDoubles(u, reg, e, "", opens(e));
      AddWeight(u, reg, e, opens(e));
      QueueFits(u.pend, e);
    }
  }

  lemma {:induction false} NothingInUse(slots: seq<Slot>)
    ensures !UuidInUse(slots, "")
  {}

  lemma {:induction false} ReopenAllFits(t: Table, reg: Registry, opens: Config -> bool, n: nat)
    requires n <= |t.pend| && PendFits(t.pend)
    ensures PendFits(ReopenAll(t, reg, opens, n).pend) && !ReopenAllDoubles(t, reg, opens, n)
  {
    hide Doubles, Add;
    if n > 0 {
      var u := ReopenAll(t, reg, opens, n - 1);
      ReopenAllFits(t, reg, opens, n - 1);
      var dev := u.pend[n - 1].dev;
      if u.pend[n - 1].used {
        NothingInUse(u.slots);
        FitsNeverDoubles(u, reg, dev, "", opens(dev));
        AddWeight(u, reg, dev, opens(dev));
      }
    }
  }

  lemma {:induction false} DoFits(t: Table, reg: Registry, op: Op)
    requires PendFits(t.pend) && Fresh(t, op)
    ensures PendFits(Do(t, reg, op).pend) && !DoDoubles(t, reg, op)
  {
    hide Doubles, AddAll, ReopenAll, Patch, UuidInUse;
    match op
    case AddOp(dev, newUuid, answers) => FitsNeverDoubles(t, reg, dev, newUuid, answers);
    case ApplyOp(devs, opens) =>
      if Accepted(t, reg, devs) {
        PatchFits(t, devs, |t.slots|);
        AddAllFits(Patch(t, devs, |t.slots|), reg, devs, opens, |devs|);
      }
    case PendingOp(opens) => ReopenAllFits(t, reg, opens, |t.pend|);
    case _ =>
  }

  /** With uuids that fit a slot every run keeps the invariant. */
  lemma {:induction false} EveryRunIsSafe(t: Table, reg: Registry, ops: seq<Op>)
    requires Safe(t, reg) && PendFits(t.pend) && AllFresh(t, reg, ops)
    ensures AlwaysSafe(t, reg, ops) && Safe(DoAll(t, reg, ops), reg)
    decreases |ops|
  {
    hide Safe, Do, PendFits, DoDoubles;
    if ops != [] {
      DoFits(t, reg, ops[0]);
      DoSafeExactlyWhen(t, reg, ops[0]);
      EveryRunIsSafe(Do(t, reg, ops[0]), reg, ops[1..]);
    }
  }

  /** ... which the table mf_devices_init() leaves satisfies. */
  lemma {:induction false} InitialIsSafe(reg: Registry)
    ensures Safe(INITIAL, reg) && PendFits(INITIAL.pend)
  {}

  /** Each context is opened once and, once every device is gone, closed once. */
  lemma {:induction false} ClosedExactlyOnce(t: Table, reg: Registry, c: nat)
    requires Safe(t, reg) && c < t.contexts
    ensures HeldBySlot(t.slots, c) <==> c !in t.closed
    ensures multiset(t.closed)[c] <= 1
    ensures (forall s :: 0 <= s < |t.slots| ==> !t.slots[s].inUse) ==> multiset(t.closed)[c] == 1
  {
    OnceIn(t.closed, c);
  }

  lemma {:induction false} OnceIn(s: seq<nat>, c: nat)
    requires forall i, j :: 0 <= i < j < |s| ==> s[i] != s[j]
    ensures multiset(s)[c] == if c in s then 1 else 0
  {
    if s != [] {
      assert s == [s[0]] + s[1..];
      OnceIn(s[1..], c);
      assert c in s[1..] ==> c != s[0];
    }
  }

  // ----- A uuid that does not fit -----

  function Twin(uuid: string, name: string): Config {
    Config(uuid, name, "battery", "jk", true, true, "", "")
  }

  /** Two devices whose uuids differ only past what a slot holds end up with
      one uuid between them. */
  lemma {:induction false} LongUuidsCollide(prefix: string, reg: Registry)
    requires |prefix| == UUID_MAX && (reg.loaded ==> reg.known("battery", "jk"))
    ensures var a, b := Twin(prefix + "a", "one"), Twin(prefix + "b", "two");
      var ops := [AddOp(a, "x", true), AddOp(b, "x", true)];
      var u := DoAll(INITIAL, reg, ops);
      && a.uuid != b.uuid && RunDoubles(INITIAL, reg, ops)
      && u.slots[0].inUse && u.slots[1].inUse && u.slots[0].uuid == u.slots[1].uuid
  {
    var a, b := Twin(prefix + "a", "one"), Twin(prefix + "b", "two");
    var ops := [AddOp(a, "x", true), AddOp(b, "x", true)];
    assert a.uuid[UUID_MAX] != b.uuid[UUID_MAX];
    assert a.uuid[..UUID_MAX] == prefix && b.uuid[..UUID_MAX] == prefix;
    assert FirstFree(INITIAL.slots) == 0;
    var t1 := Do(INITIAL, reg, ops[0]);
    assert t1.slots == INITIAL.slots[0 := NewSlot(a, a.uuid, if reg.loaded then Some(0) else None)];
    assert FirstFree(t1.slots) == 1 by {
      assert !t1.slots[1].inUse;
    }
    assert ops[1..] == [ops[1]] && [ops[1]][1..] == [];
    assert DoAll(INITIAL, reg, ops) == DoAll(t1, reg, [ops[1]]);
    var t2 := Do(t1, reg, ops[1]);
    assert DoAll(t1, reg, [ops[1]]) == DoAll(t2, reg, []);
    assert t2.slots == t1.slots[1 := NewSlot(b, b.uuid, if reg.loaded then Some(1) else None)];
    assert t1.slots[0].inUse && t1.slots[0].uuid == prefix;
    assert DoDoubles(t1, reg, ops[1]);
    assert RunDoubles(t1, reg, [ops[1]]);
  }
}
