/** The promise that a name is unique among all slots in use, the dying ones
    included: which operation breaks it, and exactly when. */
module DevicesNames {
  import opened Bytes
  import opened Devices
  import opened DevicesConverge
  import opened DevicesPatch
  import opened DevicesTables
  import opened DevicesSafety

  predicate NamesDistinct(slots: seq<Slot>) {
    forall i, j :: 0 <= i < j < |slots| && slots[i].inUse && slots[j].inUse ==> slots[i].name != slots[j].name
  }

  /** A device that goes on is given the name of one that is about to stop. */
  predicate TakesName(slots: seq<Slot>, devs: seq<Config>) {
    exists i, j :: 0 <= i < |slots| && 0 <= j < |slots| && GoesOn(slots[i], devs)
      && slots[j].inUse && !GoesOn(slots[j], devs) && Wanted(devs, slots[i].uuid).value.name == slots[j].name
  }

  predicate DoTakesName(t: Table, reg: Registry, op: Op) {
    op.ApplyOp? && Accepted(t, reg, op.devs) && TakesName(t.slots, op.devs)
  }

  predicate SameNames(a: seq<Slot>, b: seq<Slot>)
    requires |a| == |b|
  {
    forall s :: 0 <= s < |a| && a[s].inUse ==> b[s].inUse && b[s].name == a[s].name
  }

  lemma {:induction false} SharedStays(a: seq<Slot>, b: seq<Slot>)
    requires |a| == |b| && !NamesDistinct(a) && SameNames(a, b)
    ensures !NamesDistinct(b)
  {
    var i, j :| 0 <= i < j < |a| && a[i].inUse && a[j].inUse && a[i].name == a[j].name;
    assert b[i].name == b[j].name;
  }

  // ----- Adding -----

  lemma {:induction false} AddNames(t: Table, reg: Registry, dev: Config, newUuid: string, opens: bool)
    requires NamesDistinct(t.slots)
    ensures NamesDistinct(Add(t, reg, dev, newUuid, opens).0.slots)
  {
    var u, k := Add(t, reg, dev, newUuid, opens).0, FirstFree(t.slots);
    forall i, j | 0 <= i < j < |u.slots| && u.slots[i].inUse && u.slots[j].inUse
      ensures u.slots[i].name != u.slots[j].name
    {
      assert i != k ==> u.slots[i] == t.slots[i];
      assert j != k ==> u.slots[j] == t.slots[j];
    }
  }

  lemma {:induction false} AddWantedNames(t: Table, reg: Registry, e: Config, opens: Config -> bool)
    requires NamesDistinct(t.slots)
    ensures NamesDistinct(AddWanted(t, reg, e, opens).slots)
  {
    hide NamesDistinct, Add, Queue;
    AddNames(t, reg, e, "", opens(e));
  }

  lemma {:induction false} AddAllNames(t: Table, reg: Registry, devs: seq<Config>, opens: Config -> bool, n: nat)
    requires n <= |devs|
    ensures NamesDistinct(AddAll(t, reg, devs, opens, n).slots) <==> NamesDistinct(t.slots)
  {
    hide NamesDistinct, AddWanted;
    AddAllKeeps(t, reg, devs, opens, n);
    if !NamesDistinct(t.slots) {
      SharedStays(t.slots, AddAll(t, reg, devs, opens, n).slots);
    } else if n > 0 {
      AddAllNames(t, reg, devs, opens, n - 1);
      AddWantedNames(AddAll(t, reg, devs, opens, n - 1), reg, devs[n - 1], opens);
    }
  }

  lemma {:induction false} ReopenNames(t: Table, reg: Registry, opens: Config -> bool, i: nat)
    requires i < |t.pend| && NamesDistinct(t.slots)
    ensures NamesDistinct(Reopen(t, reg, opens, i).slots)
  {
    hide NamesDistinct, Add;
    AddNames(t, reg, t.pend[i].dev, "", opens(t.pend[i].dev));
  }

  lemma {:induction false} ReopenAllNames(t: Table, reg: Registry, opens: Config -> bool, n: nat)
    requires n <= |t.pend| && NamesDistinct(t.slots)
    ensures NamesDistinct(ReopenAll(t, reg, opens, n).slots)
  {
    hide NamesDistinct, Reopen;
    if n > 0 {
      ReopenAllNames(t, reg, opens, n - 1);
      ReopenNames(ReopenAll(t, reg, opens, n - 1), reg, opens, n - 1);
    }
  }

  // ----- Applying -----

  /** After the first pass two slots share a name exactly if one took it. */
  lemma {:induction false} PatchNames(t: Table, reg: Registry, devs: seq<Config>)
    requires ValidConfig(reg, devs) && UuidsDistinct(t.slots) && NamesDistinct(t.slots)
    ensures NamesDistinct(Patch(t, devs, |t.slots|).slots) <==> !TakesName(t.slots, devs)
  {
    var u := Patch(t, devs, |t.slots|);
    PatchPointwise(t, devs, |t.slots|);
    hide ValidConfig, UuidsDistinct, Patch, PatchedSlot, Wanted, GoesOn;
    if TakesName(t.slots, devs) {
      var i, j :| 0 <= i < |t.slots| && 0 <= j < |t.slots| && GoesOn(t.slots[i], devs) && t.slots[j].inUse
        && !GoesOn(t.slots[j], devs) && Wanted(devs, t.slots[i].uuid).value.name == t.slots[j].name;
      TakenIsShared(t.slots[i], t.slots[j], reg, devs);
      assert u.slots[if i < j then i else j].name == u.slots[if i < j then j else i].name;
    } else {
      hide NamesDistinct, TakesName;
      PatchedAllDiffer(t.slots, u.slots, reg, devs);
    }
  }

  lemma {:induction false} TakenIsShared(d: Slot, e: Slot, reg: Registry, devs: seq<Config>)
    requires ValidConfig(reg, devs) && GoesOn(d, devs) && e.inUse && !GoesOn(e, devs)
    requires Wanted(devs, d.uuid).value.name == e.name
    ensures var a, b := PatchedSlot(d, devs), PatchedSlot(e, devs);
      d != e && a.inUse && b.inUse && a.name == b.name
  {
    NameFits(reg, devs, Wanted(devs, d.uuid).value);
  }

  lemma {:induction false} PatchedAllDiffer(a: seq<Slot>, b: seq<Slot>, reg: Registry, devs: seq<Config>)
    requires ValidConfig(reg, devs) && UuidsDistinct(a) && NamesDistinct(a) && !TakesName(a, devs)
    requires |a| == |b| && forall i :: 0 <= i < |a| ==> b[i] == PatchedSlot(a[i], devs)
    ensures NamesDistinct(b)
  {
    forall i, j | 0 <= i < j < |b| && b[i].inUse && b[j].inUse ensures b[i].name != b[j].name {
      assert a[i].inUse && a[j].inUse;
      PatchedNamesDiffer(a, reg, devs, i, j);
    }
  }

  lemma {:induction false} NameFits(reg: Registry, devs: seq<Config>, c: Config)
    requires ValidConfig(reg, devs) && c in devs
    ensures Cut(c.name, NAME_MAX) == c.name
  {}

  lemma {:induction false} PatchedNamesDiffer(slots: seq<Slot>, reg: Registry, devs: seq<Config>, i: nat, j: nat)
    requires ValidConfig(reg, devs) && UuidsDistinct(slots) && NamesDistinct(slots) && !TakesName(slots, devs)
    requires i < |slots| && j < |slots| && i != j && slots[i].inUse && slots[j].inUse
    ensures PatchedSlot(slots[i], devs).name != PatchedSlot(slots[j], devs).name
  {
    var a, b := Wanted(devs, slots[i].uuid), Wanted(devs, slots[j].uuid);
    assert slots[if i < j then i else j].uuid != slots[if i < j then j else i].uuid;
    assert slots[if i < j then i else j].name != slots[if i < j then j else i].name;
    hide UuidsDistinct, NamesDistinct;
    if GoesOn(slots[i], devs) && GoesOn(slots[j], devs) {
      NamesDiffer(reg, devs, a.value, b.value);
    } else if GoesOn(slots[i], devs) {
      NameFits(reg, devs, a.value);
    } else if GoesOn(slots[j], devs) {
      NameFits(reg, devs, b.value);
    }
  }

  lemma {:induction false} RenameNames(t: Table, uuid: string, name: string)
    requires NamesDistinct(t.slots)
    ensures NamesDistinct(Rename(t, uuid, name).0.slots)
  {
    var u, k := Rename(t, uuid, name).0, LiveAt(t.slots, uuid);
    forall i, j | 0 <= i < j < |u.slots| && u.slots[i].inUse && u.slots[j].inUse
      ensures u.slots[i].name != u.slots[j].name
    {
      assert i != k ==> u.slots[i] == t.slots[i];
      assert j != k ==> u.slots[j] == t.slots[j];
    }
  }

  lemma {:induction false} FewerNames(a: seq<Slot>, b: seq<Slot>)
    requires |a| == |b| && NamesDistinct(a)
    requires forall s :: 0 <= s < |a| && b[s].inUse ==> a[s].inUse && b[s].name == a[s].name
    ensures NamesDistinct(b)
  {}

  // ----- Every operation, every run -----

  /** An operation keeps names unique exactly if it is not an apply that gives a
      name away before its holder is gone. */
  lemma {:induction false} DoNamesExactlyWhen(t: Table, reg: Registry, op: Op)
    requires UuidsDistinct(t.slots) && NamesDistinct(t.slots)
    ensures NamesDistinct(Do(t, reg, op).slots) <==> !DoTakesName(t, reg, op)
  {
    hide NamesDistinct, UuidsDistinct, TakesName, Add, AddAll, ReopenAll, Patch, Rename, Accepted;
    match op
    case AddOp(dev, newUuid, answers) => AddNames(t, reg, dev, newUuid, answers);
    case RenameOp(uuid, name) => RenameNames(t, uuid, name);
    case ApplyOp(devs, opens) => ApplyNames(t, reg, devs, opens);
    case PendingOp(opens) => ReopenAllNames(t, reg, opens, |t.pend|);
    case _ => FewerNames(t.slots, Do(t, reg, op).slots);
  }

  lemma {:induction false} ApplyNames(t: Table, reg: Registry, devs: seq<Config>, opens: Config -> bool)
    requires UuidsDistinct(t.slots) && NamesDistinct(t.slots)
    ensures Accepted(t, reg, devs) ==>
      (NamesDistinct(Apply(t, reg, devs, opens).slots) <==> !TakesName(t.slots, devs))
  {
    hide NamesDistinct, UuidsDistinct, TakesName, AddAll, Patch, ValidConfig, NoConflict;
    if Accepted(t, reg, devs) {
      PatchNames(t, reg, devs);
      AddAllNames(Patch(t, devs, |t.slots|), reg, devs, opens, |devs|);
    }
  }

  predicate RunTakesName(t: Table, reg: Registry, ops: seq<Op>)
    decreases |ops|
  {
    ops != [] && (DoTakesName(t, reg, ops[0]) || RunTakesName(Do(t, reg, ops[0]), reg, ops[1..]))
  }

  predicate AlwaysNamesDistinct(t: Table, reg: Registry, ops: seq<Op>)
    decreases |ops|
  {
    NamesDistinct(t.slots) && (ops != [] ==> AlwaysNamesDistinct(Do(t, reg, ops[0]), reg, ops[1..]))
  }

  /** A run that doubles no uuid keeps names unique all along if and only if no
      apply in it gives a name away early. */
  lemma {:induction false} RunNamesExactlyWhen(t: Table, reg: Registry, ops: seq<Op>)
    requires Safe(t, reg) && NamesDistinct(t.slots) && AllGenerated(ops) && !RunDoubles(t, reg, ops)
    ensures AlwaysNamesDistinct(t, reg, ops) <==> !RunTakesName(t, reg, ops)
    decreases |ops|
  {
    hide Safe, Do, DoDoubles, DoTakesName, NamesDistinct, Generated;
    if ops != [] {
      assert Generated(ops[0]);
      SafeIsNamed(t, reg);
      DoNamesExactlyWhen(t, reg, ops[0]);
      DoSafeExactlyWhen(t, reg, ops[0]);
      if !DoTakesName(t, reg, ops[0]) {
        RunNamesExactlyWhen(Do(t, reg, ops[0]), reg, ops[1..]);
      }
    }
  }

  function Renaming(): seq<Config> {
    [Twin("a", "two"), Twin("b", "three").(enabled := false)]
  }

  lemma {:induction false} RenamingIsAccepted(t: Table, reg: Registry)
    requires |t.slots| == SLOTS && t.slots[0].inUse && t.slots[0].uuid == "a" && t.slots[0].name == "one"
    requires t.slots[1].inUse && t.slots[1].uuid == "b" && t.slots[1].name == "two"
    requires forall s :: 2 <= s < SLOTS ==> !t.slots[s].inUse
    requires reg.loaded ==> reg.known("battery", "jk")
    ensures Accepted(t, reg, Renaming())
    ensures Wanted(Renaming(), "a") == Some(Renaming()[0]) && Wanted(Renaming(), "b") == Some(Renaming()[1])
  {
    var devs := Renaming();
    assert Wanted(devs, "a") == Some(devs[0]);
    assert devs[1..] == [devs[1]];
    assert Wanted(devs, "b") == Wanted(devs[1..], "b") == Some(devs[1]);
  }

  lemma {:induction false} RenamingShares(t: Table, reg: Registry, opens: Config -> bool)
    requires |t.slots| == SLOTS && t.slots[0] == NewSlot(Twin("a", "one"), "a", t.slots[0].ctx)
    requires t.slots[1] == NewSlot(Twin("b", "two"), "b", t.slots[1].ctx)
    requires forall s :: 2 <= s < SLOTS ==> !t.slots[s].inUse
    requires reg.loaded ==> reg.known("battery", "jk")
    ensures DoTakesName(t, reg, ApplyOp(Renaming(), opens))
    ensures var u := Do(t, reg, ApplyOp(Renaming(), opens));
      Live(u.slots[0]) && Dying(u.slots[1]) && u.slots[0].name == u.slots[1].name == "two"
  {
    var devs := Renaming();
    RenamingIsAccepted(t, reg);
    var p := Patch(t, devs, |t.slots|);
    PatchPointwise(t, devs, |t.slots|);
    AddAllKeeps(p, reg, devs, opens, |devs|);
    hide Patch, AddAll, Accepted, Wanted, Renaming;
    assert GoesOn(t.slots[0], devs) && !GoesOn(t.slots[1], devs);
    assert p.slots[0].inUse && p.slots[1].inUse;
  }

  /** Renaming a device to the name of one that the same config disables leaves
      both in use under that name until the disabled one has stopped. */
  lemma {:induction false} NameSharedWhileStopping(reg: Registry, opens: Config -> bool)
    requires reg.loaded ==> reg.known("battery", "jk")
    ensures var ops := [AddOp(Twin("a", "one"), "x", true), AddOp(Twin("b", "two"), "x", true),
                        ApplyOp(Renaming(), opens)];
      var u := DoAll(INITIAL, reg, ops);
      && RunTakesName(INITIAL, reg, ops)
      && Live(u.slots[0]) && Dying(u.slots[1]) && u.slots[0].name == u.slots[1].name == "two"
  {
    var one, two := Twin("a", "one"), Twin("b", "two");
    var ops := [AddOp(one, "x", true), AddOp(two, "x", true), ApplyOp(Renaming(), opens)];
    var t1 := Do(INITIAL, reg, ops[0]);
    assert FirstFree(INITIAL.slots) == 0;
    assert t1.slots == INITIAL.slots[0 := NewSlot(one, "a", if reg.loaded then Some(0) else None)];
    var t2 := Do(t1, reg, ops[1]);
    assert FirstFree(t1.slots) == 1 by {
      assert !t1.slots[1].inUse;
    }
    assert t2.slots == t1.slots[1 := NewSlot(two, "b", if reg.loaded then Some(1) else None)];
    RenamingShares(t2, reg, opens);
    ThreeOps(INITIAL, reg, ops);
  }

  lemma {:induction false} ThreeOps(t: Table, reg: Registry, ops: seq<Op>)
    requires |ops| == 3
    ensures var v := Do(Do(t, reg, ops[0]), reg, ops[1]);
      && DoAll(t, reg, ops) == Do(v, reg, ops[2]) && (DoTakesName(v, reg, ops[2]) ==> RunTakesName(t, reg, ops))
  {
    hide Do, DoTakesName;
    var u := Do(t, reg, ops[0]);
    var v := Do(u, reg, ops[1]);
    assert ops[1..][0] == ops[1] && ops[1..][1..] == [ops[2]] && [ops[2]][1..] == [];
    assert RunTakesName(v, reg, [ops[2]]) <== DoTakesName(v, reg, ops[2]);
    assert RunTakesName(u, reg, ops[1..]) <== DoTakesName(v, reg, ops[2]);
    assert DoAll(v, reg, [ops[2]]) == DoAll(Do(v, reg, ops[2]), reg, []);
  }
}
