/** Where a reconfiguration starts from: what every run keeps of the queue, and
    two runs in which a config comes before the one before it has settled, and is
    not reached. */
module DevicesStart {
  import opened Bytes
  import opened Devices
  import opened DevicesConverge
  import opened DevicesMissed
  import opened DevicesPatch
  import opened DevicesQueue
  import opened DevicesSafety
  import opened DevicesTables

  /** One entry a uuid, each enabled in a valid config. */
  ghost predicate QueueSound(pend: seq<Pending>, reg: Registry) {
    PendDistinct(pend) && forall p :: Queued(pend, p) ==> EntryOk(reg, p) && p.enabled
  }

  lemma {:induction false} QueueKeepsSound(pend: seq<Pending>, reg: Registry, x: Config)
    requires QueueSound(pend, reg) && EntryOk(reg, x) && x.enabled
    ensures QueueSound(Queue(pend, x), reg)
  {
    hide Queue, Queued, EntryOk, PendDistinct;
    QueueDistinct(pend, x);
    forall p | Queued(Queue(pend, x), p) ensures EntryOk(reg, p) && p.enabled {
      QueueAdds(pend, x, p);
    }
  }

  /** Places given up leave the queue sound. */
  lemma {:induction false} FewerSound(a: seq<Pending>, b: seq<Pending>, reg: Registry)
    requires |a| == |b| && QueueSound(a, reg) && forall i :: 0 <= i < |a| && b[i].used ==> b[i] == a[i]
    ensures QueueSound(b, reg)
  {
    forall p | Queued(b, p) ensures Queued(a, p) {
      var i :| 0 <= i < |b| && b[i] == Pending(true, p);
      assert a[i] == b[i];
    }
  }

  lemma {:induction false} PatchSound(t: Table, reg: Registry, devs: seq<Config>, s: nat)
    requires s <= |t.slots| && QueueSound(t.pend, reg) && ValidConfig(reg, devs)
    ensures QueueSound(Patch(t, devs, s).pend, reg)
  {
    hide Queue, EntryOk, QueueSound;
    if s > 0 {
      PatchSound(t, reg, devs, s - 1);
      var u := Patch(t, devs, s - 1);
      var d := u.slots[s - 1];
      var want := Wanted(devs, d.uuid);
      if want.None? || !want.value.enabled {
        FewerSound(u.pend, Cancel(u.pend, d.uuid), reg);
      } else {
        QueueKeepsSound(u.pend, reg, want.value);
      }
    }
  }

  lemma {:induction false} AddAllSound(t: Table, reg: Registry, devs: seq<Config>, opens: Config -> bool, n: nat)
    requires n <= |devs| && QueueSound(t.pend, reg) && ValidConfig(reg, devs)
    ensures QueueSound(AddAll(t, reg, devs, opens, n).pend, reg)
  {
    hide Add, Queue, EntryOk, QueueSound;
    if n > 0 {
      var u, x := AddAll(t, reg, devs, opens, n - 1), devs[n - 1];
      AddAllSound(t, reg, devs, opens, n - 1);
      AddWeight(u, reg, x, opens(x));
      if x.enabled {
        QueueKeepsSound(u.pend, reg, x);
      }
    }
  }

  lemma {:induction false} ReopenAllSound(t: Table, reg: Registry, opens: Config -> bool, n: nat)
    requires n <= |t.pend| && QueueSound(t.pend, reg)
    ensures QueueSound(ReopenAll(t, reg, opens, n).pend, reg)
  {
    hide Add, QueueSound;
    if n > 0 {
      var u := ReopenAll(t, reg, opens, n - 1);
      ReopenAllSound(t, reg, opens, n - 1);
      AddWeight(u, reg, u.pend[n - 1].dev, opens(u.pend[n - 1].dev));
      FewerSound(u.pend, Reopen(u, reg, opens, n - 1).pend, reg);
    }
  }

  lemma {:induction false} DoSound(t: Table, reg: Registry, op: Op)
    requires QueueSound(t.pend, reg)
    ensures QueueSound(Do(t, reg, op).pend, reg)
  {
    hide QueueSound, AddAll, ReopenAll, Patch, ValidConfig, NoConflict;
    match op
    case ApplyOp(devs, opens) =>
      if Accepted(t, reg, devs) {
        PatchSound(t, reg, devs, |t.slots|);
        AddAllSound(Patch(t, devs, |t.slots|), reg, devs, opens, |devs|);
      }
    case PendingOp(opens) => ReopenAllSound(t, reg, opens, |t.pend|);
    case _ => FewerSound(t.pend, Do(t, reg, op).pend, reg);
  }

  /** Every run queues each uuid once, and only entries that were enabled in a
      config it accepted... */
  lemma {:induction false} EveryRunQueues(t: Table, reg: Registry, ops: seq<Op>)
    requires QueueSound(t.pend, reg)
    ensures QueueSound(DoAll(t, reg, ops).pend, reg)
    decreases |ops|
  {
    hide QueueSound, Do;
    if ops != [] {
      DoSound(t, reg, ops[0]);
      EveryRunQueues(Do(t, reg, ops[0]), reg, ops[1..]);
    }
  }

  /** So it is from the queue the daemon starts with. */
  lemma {:induction false} InitialQueue(reg: Registry)
    ensures QueueSound(INITIAL.pend, reg)
  {
    forall p ensures !Queued(INITIAL.pend, p) {}
  }

  // ----- A config before its time -----

  const BATTERY := Twin("a", "one")
  const INVERTER := BATTERY.(kind := "inverter")
  const OTHER := Twin("b", "one")
  const DISABLED := Twin("a", "two").(enabled := false)

  /** An apply all of whose opens succeed. */
  function Configure(devs: seq<Config>): Op {
    ApplyOp(devs, _ => true)
  }

  predicate Plugins(reg: Registry) {
    reg.loaded ==> reg.known("battery", "jk") && reg.known("inverter", "jk")
  }

  /** One device, in the first slot. */
  predicate Alone(t: Table, d: Slot) {
    |t.slots| == SLOTS && t.slots[0] == d && forall s :: 1 <= s < SLOTS ==> !t.slots[s].inUse
  }

  lemma {:induction false} QueuesFirst(pend: seq<Pending>, dev: Config)
    requires |pend| == SLOTS && forall i :: 0 <= i < SLOTS ==> !pend[i].used
    ensures Queue(pend, dev) == pend[0 := Pending(true, dev)]
  {
    assert QueuedAt(pend, dev.uuid) == |pend|;
  }

  /** The first pass on one device. */
  lemma {:induction false} PatchAlone(t: Table, devs: seq<Config>, d: Slot, s: nat)
    requires Alone(t, d) && 1 <= s <= SLOTS && d.inUse
    ensures Alone(Patch(t, devs, s), PatchedSlot(d, devs)) && Patch(t, devs, s).pend == PatchedPend(t.pend, d, devs)
    ensures Patch(t, devs, s).contexts == t.contexts
  {
    hide Queue, Cancel, Wanted, IdentityChanged;
    if s > 1 {
      PatchAlone(t, devs, d, s - 1);
    } else {
      assert Patch(t, devs, 0) == t;
    }
  }

  lemma {:induction false} AloneInUse(t: Table, d: Slot)
    requires Alone(t, d) && d.inUse && d.uuid != ""
    ensures UuidInUse(t.slots, d.uuid) && NameTaken(t.slots, d.name, -1)
    ensures forall x :: x != d.uuid ==> !UuidInUse(t.slots, x)
  {
    assert t.slots[0].inUse && t.slots[0].uuid == d.uuid && t.slots[0].name == d.name;
  }

  lemma {:induction false} OneEntry(t: Table, reg: Registry, e: Config, opens: Config -> bool)
    ensures Apply(t, reg, [e], opens) == AddWanted(Patch(t, [e], |t.slots|), reg, e, opens)
  {
    assert AddAll(Patch(t, [e], |t.slots|), reg, [e], opens, 0) == Patch(t, [e], |t.slots|);
  }

  lemma {:induction false} OpThen(t: Table, reg: Registry, op: Op, rest: seq<Op>)
    ensures DoAll(t, reg, [op] + rest) == DoAll(Do(t, reg, op), reg, rest)
  {
    assert ([op] + rest)[1..] == rest;
  }

  lemma {:induction false} FiveOps(t: Table, reg: Registry, a: Op, b: Op, c: Op, d: Op, e: Op)
    ensures DoAll(t, reg, [a, b, c, d, e]) == Do(Do(Do(Do(Do(t, reg, a), reg, b), reg, c), reg, d), reg, e)
  {
    hide Do;
    assert [a, b, c, d, e] == [a] + [b, c, d, e] && [b, c, d, e] == [b] + [c, d, e] && [c, d, e] == [c] + [d, e];
    assert [d, e] == [d] + [e] && [e] == [e] + [];
    OpThen(t, reg, a, [b, c, d, e]);
    var t1 := Do(t, reg, a);
    OpThen(t1, reg, b, [c, d, e]);
    var t2 := Do(t1, reg, b);
    OpThen(t2, reg, c, [d, e]);
    var t3 := Do(t2, reg, c);
    OpThen(t3, reg, d, [e]);
    OpThen(Do(t3, reg, d), reg, e, []);
  }

  function Context(reg: Registry): Option<nat> {
    if reg.loaded then Some(0) else None
  }

  lemma {:induction false} FirstApply(reg: Registry)
    requires Plugins(reg)
    ensures var u := Do(INITIAL, reg, Configure([BATTERY]));
      Alone(u, NewSlot(BATTERY, "a", Context(reg))) && u.pend == INITIAL.pend
  {
    var p := Patch(INITIAL, [BATTERY], SLOTS);
    PatchPointwise(INITIAL, [BATTERY], SLOTS);
    PatchNothing(INITIAL, [BATTERY], SLOTS);
    OneEntry(INITIAL, reg, BATTERY, _ => true);
    assert Accepted(INITIAL, reg, [BATTERY]);
    assert FirstFree(p.slots) == 0;
  }

  lemma {:induction false} PatchNothing(t: Table, devs: seq<Config>, s: nat)
    requires s <= |t.slots| && forall i :: 0 <= i < |t.slots| ==> !t.slots[i].inUse
    ensures Patch(t, devs, s) == t
  {
    if s > 0 {
      PatchNothing(t, devs, s - 1);
      assert t.slots[s - 1 := t.slots[s - 1]] == t.slots;
    }
  }

  /** An apply of one entry on the device that has its uuid. */
  lemma {:induction false} ApplyOne(t: Table, reg: Registry, d: Slot, e: Config)
    requires Alone(t, d) && d.inUse && d.uuid == e.uuid == "a" && e.name == "one" && e.enabled && e.endpoint == ""
    requires e.driver == "jk" && (e.kind == "battery" || e.kind == "inverter") && Plugins(reg)
    ensures var u := Do(t, reg, Configure([e]));
      Alone(u, PatchedSlot(d, [e])) && u.pend == PatchedPend(t.pend, d, [e])
  {
    PatchAlone(t, [e], d, SLOTS);
    var p := Patch(t, [e], SLOTS);
    hide Patch, Queue, Cancel;
    AloneInUse(p, PatchedSlot(d, [e]));
    OneEntry(t, reg, e, _ => true);
    assert Accepted(t, reg, [e]) by {
      assert Wanted([e], "a") == Some(e);
    }
  }

  lemma {:induction false} ExitAlone(t: Table, reg: Registry, d: Slot)
    requires Alone(t, d) && Dying(d)
    ensures var u := Do(t, reg, ExitOp(0, false)); u.pend == t.pend && forall s :: 0 <= s < SLOTS ==> !u.slots[s].inUse
  {}

  /** One entry is queued and every slot free: it comes up in the first. */
  lemma {:induction false} OpensQueued(t: Table, reg: Registry, e: Config)
    requires |t.slots| == |t.pend| == SLOTS && forall s :: 0 <= s < SLOTS ==> !t.slots[s].inUse
    requires t.pend[0] == Pending(true, e) && forall i :: 1 <= i < SLOTS ==> !t.pend[i].used
    requires e.name == "one" && e.uuid != "" && e.driver == "jk" && (e.kind == "battery" || e.kind == "inverter")
      && Plugins(reg)
    ensures var u := Do(t, reg, PendingOp(_ => true));
      u.slots[0].inUse && u.slots[0] == NewSlot(e, e.uuid, u.slots[0].ctx)
  {
    var yes: Config -> bool := _ => true;
    var one := Reopen(t, reg, yes, 0);
    assert FirstFree(t.slots) == 0;
    assert ReopenAll(t, reg, yes, 0) == t;
    assert ReopenAll(t, reg, yes, 1) == one;
    assert one.slots[0] == NewSlot(e, e.uuid, one.slots[0].ctx);
    assert forall i :: 0 <= i < SLOTS ==> !one.pend[i].used;
    ReopenNothing(t, reg, yes, SLOTS);
  }

  lemma {:induction false} ReopenNothing(t: Table, reg: Registry, opens: Config -> bool, n: nat)
    requires 1 <= n <= |t.pend| && forall i :: 0 <= i < |t.pend| ==> !ReopenAll(t, reg, opens, 1).pend[i].used
    ensures ReopenAll(t, reg, opens, n) == ReopenAll(t, reg, opens, 1)
  {
    if n > 1 {
      ReopenNothing(t, reg, opens, n - 1);
    }
  }

  /** A change taken back before the device has stopped comes through all the
      same: the device that comes up is the one of the config in between. */
  lemma {:induction false} RevertedTooSoon(reg: Registry)
    requires Plugins(reg)
    ensures var u := DoAll(INITIAL, reg,
        [Configure([BATTERY]), Configure([INVERTER]), Configure([BATTERY]), ExitOp(0, false), PendingOp(_ => true)]);
      Live(u.slots[0]) && u.slots[0].uuid == "a" && u.slots[0].kind == "inverter"
  {
    var d := NewSlot(BATTERY, "a", Context(reg));
    var t1 := Do(INITIAL, reg, Configure([BATTERY]));
    FirstApply(reg);
    var t2 := Do(t1, reg, Configure([INVERTER]));
    ApplyOne(t1, reg, d, INVERTER);
    QueuesFirst(t1.pend, INVERTER);
    assert PatchedSlot(d, [INVERTER]) == d.(stop := true);
    var t3 := Do(t2, reg, Configure([BATTERY]));
    ApplyOne(t2, reg, d.(stop := true), BATTERY);
    assert PatchedSlot(d.(stop := true), [BATTERY]) == d.(stop := true);
    hide Do;
    var t4 := Do(t3, reg, ExitOp(0, false));
    ExitAlone(t3, reg, d.(stop := true));
    OpensQueued(t4, reg, INVERTER);
    FiveOps(INITIAL, reg, Configure([BATTERY]), Configure([INVERTER]), Configure([BATTERY]), ExitOp(0, false),
      PendingOp(_ => true));
  }

  /** Entries of a config that drops the device and takes its name over. */
  lemma {:induction false} ApplyOther(t: Table, reg: Registry)
    requires Alone(t, NewSlot(BATTERY, "a", Context(reg))) && t.pend == INITIAL.pend && Plugins(reg)
    ensures var u := Do(t, reg, Configure([OTHER, DISABLED]));
      && Alone(u, NewSlot(BATTERY, "a", Context(reg)).(stop := true))
      && u.pend == t.pend[0 := Pending(true, OTHER)]
  {
    var d, devs := NewSlot(BATTERY, "a", Context(reg)), [OTHER, DISABLED];
    var yes: Config -> bool := _ => true;
    OtherWanted();
    PatchAlone(t, devs, d, SLOTS);
    var p := Patch(t, devs, SLOTS);
    CancelNone(t.pend, "a");
    assert Accepted(t, reg, devs);
    AloneInUse(p, d.(stop := true));
    QueuesFirst(t.pend, OTHER);
    hide Patch, Queue, Cancel, Wanted;
    assert AddAll(p, reg, devs, yes, 0) == p;
    assert AddAll(p, reg, devs, yes, 1) == AddWanted(p, reg, OTHER, yes);
    assert AddAll(p, reg, devs, yes, 2) == AddAll(p, reg, devs, yes, 1);
  }

  lemma {:induction false} OtherWanted()
    ensures Wanted([OTHER, DISABLED], "a") == Some(DISABLED)
  {
    assert [OTHER, DISABLED][1..] == [DISABLED];
    assert Wanted([DISABLED], "a") == Some(DISABLED);
  }

  lemma {:induction false} CancelNone(pend: seq<Pending>, uuid: string)
    requires forall i :: 0 <= i < |pend| && pend[i].used ==> pend[i].dev.uuid != uuid
    ensures Cancel(pend, uuid) == pend
  {}

  lemma {:induction false} ApplyNothing(t: Table, reg: Registry, d: Slot)
    requires Alone(t, d) && Dying(d) && d.uuid == "a" && |t.pend| == SLOTS
    requires forall i :: 0 <= i < |t.pend| && t.pend[i].used ==> t.pend[i].dev.uuid != "a"
    ensures var u := Do(t, reg, Configure([])); Alone(u, d) && u.pend == t.pend
  {
    PatchAlone(t, [], d, SLOTS);
    CancelNone(t.pend, "a");
    hide Patch, Cancel;
    assert Accepted(t, reg, []);
  }

  /** A device that waits for a name and is dropped from the config before it got
      the name comes up all the same. */
  lemma {:induction false} DroppedTooSoon(reg: Registry)
    requires Plugins(reg)
    ensures var u := DoAll(INITIAL, reg,
        [Configure([BATTERY]), Configure([OTHER, DISABLED]), Configure([]), ExitOp(0, false), PendingOp(_ => true)]);
      Live(u.slots[0]) && u.slots[0].uuid == "b"
  {
    var d := NewSlot(BATTERY, "a", Context(reg)).(stop := true);
    var t1 := Do(INITIAL, reg, Configure([BATTERY]));
    FirstApply(reg);
    var t2 := Do(t1, reg, Configure([OTHER, DISABLED]));
    ApplyOther(t1, reg);
    var t3 := Do(t2, reg, Configure([]));
    ApplyNothing(t2, reg, d);
    hide Do;
    var t4 := Do(t3, reg, ExitOp(0, false));
    ExitAlone(t3, reg, d);
    OpensQueued(t4, reg, OTHER);
    FiveOps(INITIAL, reg, Configure([BATTERY]), Configure([OTHER, DISABLED]), Configure([]), ExitOp(0, false),
      PendingOp(_ => true));
  }
}
