/** What a caller is told, and what each answer did to the slots, in the fields
    of the config and of the slots. */
module DevicesAnswers {
  import opened Bytes
  import opened Devices
  import opened DevicesConverge
  import opened DevicesPatch
  import opened DevicesTables

  // ----- A config that is refused -----

  /** No uuid; enabled with no name, kind or driver, or of a kind and driver that
      no plugin has; or a name longer than a slot's. */
  predicate BadEntry(reg: Registry, c: Config) {
    || c.uuid == ""
    || (c.enabled && (c.name == "" || c.kind == "" || c.driver == ""))
    || |c.name| > 31
    || (c.enabled && reg.loaded && !reg.known(c.kind, c.driver))
  }

  /** Two entries of one uuid, of one name or of one endpoint. */
  predicate Duplicates(a: Config, b: Config) {
    || a.uuid == b.uuid
    || (a.name != "" && a.name == b.name)
    || (a.endpoint != "" && a.endpoint == b.endpoint)
  }

  predicate Mentions(devs: seq<Config>, uuid: string) {
    exists k :: 0 <= k < |devs| && devs[k].uuid == uuid
  }

  /** The name or endpoint that an enabled entry asks for is held by another device
      in use, which the config does not mention. */
  predicate ChannelHeld(devs: seq<Config>, c: Config, d: Slot) {
    && c.enabled && d.inUse && d.uuid != c.uuid
    && ((c.name != "" && c.name == d.name) || (c.endpoint != "" && c.endpoint == d.endpoint))
    && (d.uuid == "" || !Mentions(devs, d.uuid))
  }

  predicate BadConfig(reg: Registry, devs: seq<Config>) {
    || (exists i :: 0 <= i < |devs| && BadEntry(reg, devs[i]))
    || (exists i, j :: 0 <= i < j < |devs| && Duplicates(devs[i], devs[j]))
  }

  predicate Refused(t: Table, reg: Registry, devs: seq<Config>) {
    || BadConfig(reg, devs)
    || exists i, s :: 0 <= i < |devs| && 0 <= s < |t.slots| && ChannelHeld(devs, devs[i], t.slots[s])
  }

  lemma {:induction false} BadExactlyWhen(reg: Registry, devs: seq<Config>)
    ensures BadConfig(reg, devs) <==> !ValidConfig(reg, devs)
  {
    forall i | 0 <= i < |devs| ensures BadEntry(reg, devs[i]) <==> !EntryOk(reg, devs[i]) {}
    forall i, j | 0 <= i < j < |devs| ensures Duplicates(devs[i], devs[j]) <==> !PairOk(devs[i], devs[j]) {}
    hide BadEntry, EntryOk, Duplicates, PairOk;
  }

  lemma {:induction false} HeldExactlyWhen(devs: seq<Config>, c: Config, d: Slot)
    ensures ChannelHeld(devs, c, d) <==> !ChannelFree(devs, c, d)
  {
    var w := Wanted(devs, d.uuid);
    if w.Some? {
      var k :| 0 <= k < |devs| && devs[k] == w.value;
      assert devs[k].uuid == d.uuid;
    }
  }

  /** A config is refused exactly when one of its entries is bad, two of them are
      alike, or a channel it asks for is held. */
  lemma {:induction false} RefusedExactlyWhen(t: Table, reg: Registry, devs: seq<Config>)
    ensures Refused(t, reg, devs) <==> !Accepted(t, reg, devs)
  {
    BadExactlyWhen(reg, devs);
    forall i, s | 0 <= i < |devs| && 0 <= s < |t.slots|
      ensures ChannelHeld(devs, devs[i], t.slots[s]) <==> !ChannelFree(devs, devs[i], t.slots[s])
    {
      HeldExactlyWhen(devs, devs[i], t.slots[s]);
    }
    hide BadConfig, ValidConfig, ChannelHeld, ChannelFree;
  }

  // ----- A config that is reached -----

  /** No two slots in use share an endpoint, a name or a uuid. */
  predicate ChannelsApart(slots: seq<Slot>) {
    forall i, j :: 0 <= i < j < |slots| && slots[i].inUse && slots[j].inUse ==>
      && slots[i].uuid != slots[j].uuid && slots[i].name != slots[j].name
      && (slots[i].endpoint != "" ==> slots[i].endpoint != slots[j].endpoint)
  }

  /** A config that is accepted and reached leaves every device its own channel. */
  lemma {:induction false} ReachedApart(t: Table, u: Table, reg: Registry, devs: seq<Config>)
    requires Accepted(t, reg, devs) && Converged(u, devs)
    ensures ChannelsApart(u.slots)
  {
    hide Accepted, Converged;
    forall i, j | 0 <= i < j < |u.slots| && u.slots[i].inUse && u.slots[j].inUse
      ensures u.slots[i].uuid != u.slots[j].uuid && u.slots[i].name != u.slots[j].name
      ensures u.slots[i].endpoint != "" ==> u.slots[i].endpoint != u.slots[j].endpoint
    {
      PairApart(t, u, reg, devs, i, j);
    }
  }

  lemma {:induction false} PairApart(t: Table, u: Table, reg: Registry, devs: seq<Config>, i: nat, j: nat)
    requires Accepted(t, reg, devs) && Converged(u, devs)
    requires i < j < |u.slots| && u.slots[i].inUse && u.slots[j].inUse
    ensures u.slots[i].uuid != u.slots[j].uuid && u.slots[i].name != u.slots[j].name
    ensures u.slots[i].endpoint != "" ==> u.slots[i].endpoint != u.slots[j].endpoint
  {
    hide ValidConfig, NoConflict, Settled, Matches, NothingPending;
    assert IsEntry(u.slots[i], devs) && IsEntry(u.slots[j], devs);
    var a :| 0 <= a < |devs| && devs[a].enabled && Matches(u.slots[i], devs[a]);
    var b :| 0 <= b < |devs| && devs[b].enabled && Matches(u.slots[j], devs[b]);
    EntriesApart(reg, devs, a, b, u.slots[i], u.slots[j]);
  }

  lemma {:induction false} EntriesApart(reg: Registry, devs: seq<Config>, a: nat, b: nat, d: Slot, e: Slot)
    requires ValidConfig(reg, devs) && a < |devs| && b < |devs| && devs[a].enabled && devs[b].enabled
    requires Matches(d, devs[a]) && Matches(e, devs[b]) && d.uuid != e.uuid
    ensures d.name != e.name && (d.endpoint != "" ==> d.endpoint != e.endpoint)
  {
    assert EntryOk(reg, devs[a]) && EntryOk(reg, devs[b]);
    assert a < b ==> PairOk(devs[a], devs[b]);
    assert b < a ==> PairOk(devs[b], devs[a]);
    assert a != b;
  }

  // ----- What an accepted apply does to a device -----

  /** The entry is this device's, with nothing of its identity changed. */
  predicate Keeps(d: Slot, e: Config) {
    && e.enabled && e.uuid == d.uuid
    && e.kind == d.kind && e.driver == d.driver && e.bus == d.bus && e.endpoint == d.endpoint
  }

  /** A device goes on exactly if the config has an enabled entry of its uuid, kind,
      driver, bus and endpoint, and takes its name and active flag from it; any
      other is told to stop and is otherwise left as it was. */
  lemma {:induction false} ApplyToSlot(t: Table, reg: Registry, devs: seq<Config>, opens: Config -> bool, s: nat)
    requires ValidConfig(reg, devs) && s < |t.slots| && t.slots[s].inUse
    ensures var d, r := t.slots[s], Apply(t, reg, devs, opens).slots[s];
      && (forall k :: 0 <= k < |devs| && Keeps(d, devs[k]) ==> r == d.(name := devs[k].name, active := devs[k].active))
      && ((forall k :: 0 <= k < |devs| ==> !Keeps(d, devs[k])) ==> r == d.(stop := true))
  {
    var d, p := t.slots[s], Patch(t, devs, |t.slots|);
    PatchPointwise(t, devs, |t.slots|);
    AddAllKeeps(p, reg, devs, opens, |devs|);
    assert p.slots[s] == PatchedSlot(d, devs);
    hide Patch, AddAll;
    assert Apply(t, reg, devs, opens).slots[s] == PatchedSlot(d, devs);
    KeepsExactlyWhen(reg, devs, d);
  }

  lemma {:induction false} KeepsExactlyWhen(reg: Registry, devs: seq<Config>, d: Slot)
    requires ValidConfig(reg, devs) && d.inUse
    ensures var r := PatchedSlot(d, devs);
      && (forall k :: 0 <= k < |devs| && Keeps(d, devs[k]) ==> r == d.(name := devs[k].name, active := devs[k].active))
      && ((forall k :: 0 <= k < |devs| ==> !Keeps(d, devs[k])) ==> r == d.(stop := true))
  {
    forall k | 0 <= k < |devs| && Keeps(d, devs[k])
      ensures PatchedSlot(d, devs) == d.(name := devs[k].name, active := devs[k].active)
    {
      assert EntryOk(reg, devs[k]);
      forall j | 0 <= j < |devs| && j != k ensures devs[j].uuid != d.uuid {
        assert PairOk(devs[if j < k then j else k], devs[if j < k then k else j]);
      }
      assert Wanted(devs, d.uuid).value in devs;
    }
    var w := Wanted(devs, d.uuid);
    if w.Some? {
      var k :| 0 <= k < |devs| && devs[k] == w.value;
      assert w.value.enabled && !IdentityChanged(d, w.value) ==> Keeps(d, devs[k]);
    }
  }

  // ----- What adding answers -----

  predicate NameInUse(slots: seq<Slot>, name: string) {
    exists s :: 0 <= s < |slots| && slots[s].inUse && slots[s].name == name
  }

  predicate SlotFree(slots: seq<Slot>) {
    exists s :: 0 <= s < |slots| && !slots[s].inUse
  }

  predicate BadRequestFor(dev: Config) {
    dev.name == "" || dev.kind == "" || dev.driver == "" || |dev.name| > 31
  }

  /** Each refusal has its answer, in this order; a refused device changes no slot
      in use. */
  lemma {:induction false} AddAnswers(t: Table, reg: Registry, dev: Config, newUuid: string, opens: bool)
    ensures var (u, rc) := Add(t, reg, dev, newUuid, opens);
      && (rc == BadRequest <==> BadRequestFor(dev))
      && (rc == Collides <==> !BadRequestFor(dev) && (NameInUse(t.slots, dev.name) || UuidInUse(t.slots, dev.uuid)))
      && (rc == UnknownDriver ==> reg.loaded && !reg.known(dev.kind, dev.driver))
      && (rc == Full ==> !SlotFree(t.slots)) && (rc == OpenFailed ==> reg.loaded && !opens)
      && (rc == Added ==> (reg.loaded ==> reg.known(dev.kind, dev.driver) && opens) && SlotFree(t.slots))
      && (forall s :: 0 <= s < |t.slots| && t.slots[s].inUse ==> u.slots[s] == t.slots[s])
      && (rc != Added ==> forall s :: 0 <= s < |t.slots| && !t.slots[s].inUse ==> !u.slots[s].inUse)
  {
    var k := FirstFree(t.slots);
    assert k < |t.slots| ==> !t.slots[k].inUse;
    if NameTaken(t.slots, dev.name, -1) {
      var s :| 0 <= s < |t.slots| && s != -1 && t.slots[s].inUse && t.slots[s].name == dev.name;
      assert t.slots[s].inUse;
    }
    if NameInUse(t.slots, dev.name) {
      var s :| 0 <= s < |t.slots| && t.slots[s].inUse && t.slots[s].name == dev.name;
      assert s != -1;
    }
  }

  /** The entry in a slot, with what the slot's strings hold of it. */
  predicate Holds(d: Slot, dev: Config, uuid: string) {
    && d.inUse && !d.stop && d.name == dev.name && d.active == dev.active
    && d.bus == dev.bus && d.endpoint == dev.endpoint
    && d.uuid == (if |uuid| <= 36 then uuid else uuid[..36])
    && d.kind == (if |dev.kind| <= 15 then dev.kind else dev.kind[..15])
    && d.driver == (if |dev.driver| <= 15 then dev.driver else dev.driver[..15])
  }

  /** A device that is added has one slot, free before, under its own uuid or else the
      new one; no other slot and nothing queued has changed. */
  lemma {:induction false} AddedSlot(t: Table, reg: Registry, dev: Config, newUuid: string, opens: bool)
    requires Add(t, reg, dev, newUuid, opens).1 == Added
    ensures var u := Add(t, reg, dev, newUuid, opens).0;
      && u.pend == t.pend && |u.slots| == |t.slots|
      && exists k :: 0 <= k < |t.slots| && !t.slots[k].inUse && u.slots == t.slots[k := u.slots[k]]
           && Holds(u.slots[k], dev, if dev.uuid != "" then dev.uuid else newUuid)
  {
    var u, k := Add(t, reg, dev, newUuid, opens).0, FirstFree(t.slots);
    assert u.slots == t.slots[k := u.slots[k]] && Holds(u.slots[k], dev, if dev.uuid != "" then dev.uuid else newUuid);
  }

  // ----- What deleting answers -----

  /** 202 exactly for a uuid in use, whose device alone is told to stop; nothing of
      that uuid stays queued, and nothing else leaves the queue. */
  lemma {:induction false} DeleteAnswers(t: Table, uuid: string, s: nat)
    requires UuidsDistinct(t.slots)
    ensures var (u, rc) := Delete(t, uuid);
      && |u.slots| == |t.slots| && |u.pend| == |t.pend|
      && (rc == 202 <==> uuid != "" && exists i :: 0 <= i < |t.slots| && t.slots[i].inUse && t.slots[i].uuid == uuid)
      && (rc != 202 ==> rc == 404 && u.slots == t.slots)
      && (rc == 202 && s < |t.slots| ==>
            u.slots[s] == if t.slots[s].inUse && t.slots[s].uuid == uuid then t.slots[s].(stop := true) else t.slots[s])
      && (forall i :: 0 <= i < |t.pend| ==>
            u.pend[i] == t.pend[i].(used := t.pend[i].used && (t.pend[i].dev.uuid != uuid || uuid == "")))
  {
    InUseAtFirst(t.slots, uuid);
    var k := InUseAt(t.slots, uuid);
    if k < |t.slots| && s < |t.slots| && t.slots[s].inUse && t.slots[s].uuid == uuid {
      OneInUse(t.slots, k, s);
    }
  }

  lemma {:induction false} OneInUse(slots: seq<Slot>, a: nat, b: nat)
    requires UuidsDistinct(slots) && a < |slots| && b < |slots| && slots[a].inUse && slots[b].inUse
    requires slots[a].uuid == slots[b].uuid
    ensures a == b
  {}

  lemma {:induction false} InUseAtFirst(slots: seq<Slot>, uuid: string)
    ensures InUseAt(slots, uuid) == |slots| <==>
      forall i :: 0 <= i < |slots| ==> !(slots[i].inUse && slots[i].uuid == uuid)
  {
    if slots != [] && !(slots[0].inUse && slots[0].uuid == uuid) {
      InUseAtFirst(slots[1..], uuid);
      assert forall i :: 0 < i < |slots| ==> slots[i] == slots[1..][i - 1];
    }
  }

  // ----- What renaming answers -----

  predicate IsLive(slots: seq<Slot>, s: nat, uuid: string) {
    s < |slots| && slots[s].inUse && !slots[s].stop && slots[s].uuid == uuid && uuid != ""
  }

  predicate FreeFor(slots: seq<Slot>, s: nat, name: string) {
    forall i :: 0 <= i < |slots| && i != s && slots[i].inUse ==> slots[i].name != name
  }

  lemma {:induction false} OneLive(slots: seq<Slot>, a: nat, b: nat, uuid: string)
    requires UuidsDistinct(slots) && IsLive(slots, a, uuid) && IsLive(slots, b, uuid)
    ensures a == b
  {}

  lemma {:induction false} LiveAtFinds(slots: seq<Slot>, uuid: string)
    ensures LiveAt(slots, uuid) == |slots| <==> forall s: nat :: !IsLive(slots, s, uuid)
    ensures LiveAt(slots, uuid) < |slots| ==> IsLive(slots, LiveAt(slots, uuid), uuid)
  {
    var k := LiveAt(slots, uuid);
    if k < |slots| {
      assert IsLive(slots, k, uuid);
    } else if slots != [] && uuid != "" {
      LiveAtFinds(slots[1..], uuid);
      forall s: nat ensures !IsLive(slots, s, uuid) {
        if s > 0 {
          assert !IsLive(slots[1..], s - 1, uuid);
        }
      }
    }
  }

  /** 404 without a live device of the uuid; 200 exactly if the name is given, fits
      and no other device has it, and then it is the device's and nothing else has
      changed; else 400, and nothing has. */
  lemma {:induction false} RenameAnswers(t: Table, uuid: string, name: string, s: nat)
    requires UuidsDistinct(t.slots)
    ensures var (u, rc) := Rename(t, uuid, name);
      && (rc == 404 <==> forall i: nat :: !IsLive(t.slots, i, uuid))
      && (IsLive(t.slots, s, uuid) ==>
            if name != "" && |name| <= 31 && FreeFor(t.slots, s, name)
            then rc == 200 && u == t.(slots := t.slots[s := t.slots[s].(name := name)])
            else rc == 400 && u == t)
      && (rc == 404 ==> u == t)
  {
    LiveAtFinds(t.slots, uuid);
    var k := LiveAt(t.slots, uuid);
    if IsLive(t.slots, s, uuid) {
      assert IsLive(t.slots, k, uuid) && k < |t.slots|;
      OneLive(t.slots, k, s, uuid);
      assert NameTaken(t.slots, name, k) <==> !FreeFor(t.slots, k, name);
    }
  }
}
