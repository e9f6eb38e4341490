/** The daemon's device slots and its reconfiguration (src/device/device.c), as
    functions on a table of slots and pending reopens. */
module Devices {
  import opened Bytes

  const SLOTS := 32
  const MAX_DEVICES := 16

  // What a slot's char arrays hold, terminator aside; the config's are wider.
  const UUID_MAX := 36
  const NAME_MAX := 31
  const KIND_MAX := 15

  /** One devices[] entry of the config.  `bus` and `endpoint` are what
      identity_from_spec() and mf_config_device_endpoint() both read from it. */
  datatype Config = Config(
    uuid: string, name: string, kind: string, driver: string,
    enabled: bool, active: bool, bus: string, endpoint: string)

  datatype Slot = Slot(
    inUse: bool, stop: bool,
    uuid: string, name: string, kind: string, driver: string, bus: string, endpoint: string,
    active: bool, ctx: Option<nat>)

  const EMPTY := Slot(false, false, "", "", "", "", "", "", false, None)
  const NO_DEVICE := Config("", "", "", "", false, false, "", "")

  datatype Pending = Pending(used: bool, dev: Config)

  /** `contexts` counts the plugin contexts opened so far, each named by its
      number; `closed` are those closed, in order. */
  datatype Table = Table(slots: seq<Slot>, pend: seq<Pending>, contexts: nat, closed: seq<nat>)

  /** The plugin registry: whether it has any, and which it has. */
  datatype Registry = Registry(loaded: bool, known: (string, string) -> bool)

  datatype AddResult = Added | BadRequest | UnknownDriver | Collides | Full | OpenFailed

  function Cut(s: string, n: nat): string {
    if |s| <= n then s else s[..n]
  }

  predicate Live(d: Slot) {
    d.inUse && !d.stop
  }

  predicate Dying(d: Slot) {
    d.inUse && d.stop
  }

  // ----- Looking up -----

  predicate UuidInUse(slots: seq<Slot>, uuid: string) {
    uuid != "" && exists i :: 0 <= i < |slots| && slots[i].inUse && slots[i].uuid == uuid
  }

  predicate NameTaken(slots: seq<Slot>, name: string, skip: int) {
    exists i :: 0 <= i < |slots| && i != skip && slots[i].inUse && slots[i].name == name
  }

  /** The first free slot, or the length. */
  function FirstFree(slots: seq<Slot>): (k: nat)
    ensures k <= |slots| && forall i :: 0 <= i < k ==> slots[i].inUse
    ensures k < |slots| ==> !slots[k].inUse
  {
    if slots == [] || !slots[0].inUse then 0 else 1 + FirstFree(slots[1..])
  }

  /** The config's entry for a uuid. */
  function Wanted(devs: seq<Config>, uuid: string): (w: Option<Config>)
    ensures w.Some? ==> w.value in devs && w.value.uuid == uuid
    ensures w.None? ==> forall i :: 0 <= i < |devs| ==> devs[i].uuid != uuid
  {
    if devs == [] then None
    else if devs[0].uuid == uuid then Some(devs[0])
    else Wanted(devs[1..], uuid)
  }

  predicate IdentityChanged(d: Slot, n: Config) {
    d.kind != n.kind || d.driver != n.driver || d.bus != n.bus || d.endpoint != n.endpoint
  }

  // ----- Adding -----

  function NewSlot(dev: Config, uuid: string, ctx: Option<nat>): Slot {
    Slot(true, false, Cut(uuid, UUID_MAX), dev.name, Cut(dev.kind, KIND_MAX), Cut(dev.driver, KIND_MAX),
         dev.bus, dev.endpoint, dev.active, ctx)
  }

  /** mf_devices_add(); `newUuid` is what uuid_generate() would give, `opens` what
      the plugin's open() answers. */
  function Add(t: Table, reg: Registry, dev: Config, newUuid: string, opens: bool): (Table, AddResult) {
    var k := FirstFree(t.slots);
    if dev.name == "" || dev.kind == "" || dev.driver == "" then (t, BadRequest)
    else if |dev.name| > NAME_MAX then (t, BadRequest)
    else if NameTaken(t.slots, dev.name, -1) || UuidInUse(t.slots, dev.uuid) then (t, Collides)
    else if reg.loaded && !reg.known(dev.kind, dev.driver) then (t, UnknownDriver)
    else if k == |t.slots| then (t, Full)
    else Open(t, reg, dev, if dev.uuid != "" then dev.uuid else newUuid, opens, k)
  }

  /** The end of mf_devices_add(): the slot is filled, or emptied when its
      plugin cannot open the device. */
  function Open(t: Table, reg: Registry, dev: Config, uuid: string, opens: bool, k: nat): (Table, AddResult)
    requires k < |t.slots|
  {
    var ctx := if reg.loaded then Some(t.contexts) else None;
    if reg.loaded && !opens then (t.(slots := t.slots[k := EMPTY]), OpenFailed)
    else
      (t.(slots := t.slots[k := NewSlot(dev, uuid, ctx)],
          contexts := t.contexts + if reg.loaded then 1 else 0),
       Added)
  }

  // ----- Pending reopens -----

  function Cancelled(p: Pending, uuid: string): Pending {
    if p.used && p.dev.uuid == uuid then p.(used := false) else p
  }

  function Cancel(pend: seq<Pending>, uuid: string): (r: seq<Pending>)
    ensures |r| == |pend|
  {
    if uuid == "" then pend else seq(|pend|, i requires 0 <= i < |pend| => Cancelled(pend[i], uuid))
  }

  /** The entry of a uuid that is queued already, or the length. */
  function QueuedAt(pend: seq<Pending>, uuid: string): (k: nat)
    ensures k <= |pend|
    ensures forall i :: 0 <= i < k ==> !(pend[i].used && pend[i].dev.uuid == uuid)
    ensures k < |pend| ==> pend[k].used && pend[k].dev.uuid == uuid
  {
    if pend == [] || (pend[0].used && pend[0].dev.uuid == uuid) then 0 else 1 + QueuedAt(pend[1..], uuid)
  }

  function FirstUnused(pend: seq<Pending>): (k: nat)
    ensures k <= |pend| && forall i :: 0 <= i < k ==> pend[i].used
    ensures k < |pend| ==> !pend[k].used
  {
    if pend == [] || !pend[0].used then 0 else 1 + FirstUnused(pend[1..])
  }

  function Queue(pend: seq<Pending>, dev: Config): (r: seq<Pending>)
    ensures |r| == |pend|
  {
    var at, free := QueuedAt(pend, dev.uuid), FirstUnused(pend);
    if at < |pend| then pend[at := pend[at].(dev := dev)]
    else if free < |pend| then pend[free := Pending(true, dev)]
    else pend
  }

  // ----- Applying a config -----

  /** What validate_apply() asks of an entry, of two entries... */
  predicate EntryOk(reg: Registry, c: Config) {
    && c.uuid != ""
    && (c.enabled ==> c.name != "" && c.kind != "" && c.driver != "")
    && |c.name| <= NAME_MAX
    && (c.enabled && reg.loaded ==> reg.known(c.kind, c.driver))
  }

  predicate PairOk(a: Config, b: Config) {
    && a.uuid != b.uuid
    && (a.name != "" ==> a.name != b.name)
    && (a.endpoint != "" && b.endpoint != "" ==> a.endpoint != b.endpoint)
  }

  predicate ValidConfig(reg: Registry, devs: seq<Config>) {
    && (forall i :: 0 <= i < |devs| ==> EntryOk(reg, devs[i]))
    && (forall i, j :: 0 <= i < j < |devs| ==> PairOk(devs[i], devs[j]))
  }

  /** ... and of an entry and a slot: the channel of a device that the config
      does not mention may not be taken. */
  predicate ChannelFree(devs: seq<Config>, c: Config, d: Slot) {
    c.enabled && Hits(d, c) ==> Wanted(devs, d.uuid).Some? && d.uuid != ""
  }

  predicate NoConflict(slots: seq<Slot>, devs: seq<Config>) {
    forall i, s :: 0 <= i < |devs| && 0 <= s < |slots| ==> ChannelFree(devs, devs[i], slots[s])
  }

  predicate Hits(d: Slot, n: Config) {
    && d.inUse && d.uuid != n.uuid
    && ((n.name != "" && n.name == d.name) || (n.endpoint != "" && d.endpoint == n.endpoint))
  }

  predicate Accepted(t: Table, reg: Registry, devs: seq<Config>) {
    ValidConfig(reg, devs) && NoConflict(t.slots, devs)
  }

  /** What the first pass does to one slot... */
  function PatchedSlot(d: Slot, devs: seq<Config>): Slot {
    var want := Wanted(devs, d.uuid);
    if !d.inUse then d
    else if want.None? || !want.value.enabled || IdentityChanged(d, want.value) then d.(stop := true)
    else d.(name := Cut(want.value.name, NAME_MAX), active := want.value.active)
  }

  /** ... and to the pending entries. */
  function PatchedPend(pend: seq<Pending>, d: Slot, devs: seq<Config>): (r: seq<Pending>)
    ensures |r| == |pend|
  {
    var want := Wanted(devs, d.uuid);
    if !d.inUse then pend
    else if want.None? || !want.value.enabled then Cancel(pend, d.uuid)
    else if IdentityChanged(d, want.value) then Queue(pend, want.value)
    else pend
  }

  /** The first pass, over the slots before s. */
  function Patch(t: Table, devs: seq<Config>, s: nat): (r: Table)
    requires s <= |t.slots|
    ensures |r.slots| == |t.slots| && |r.pend| == |t.pend|
  {
    if s == 0 then t
    else
      var u := Patch(t, devs, s - 1);
      u.(slots := u.slots[s - 1 := PatchedSlot(u.slots[s - 1], devs)],
         pend := PatchedPend(u.pend, u.slots[s - 1], devs))
  }

  /** The second pass for one entry. */
  function AddWanted(t: Table, reg: Registry, dev: Config, opens: Config -> bool): (r: Table)
    ensures |r.slots| == |t.slots| && |r.pend| == |t.pend|
  {
    if !dev.enabled || UuidInUse(t.slots, dev.uuid) then t
    else
      var (u, rc) := Add(t, reg, dev, "", opens(dev));
      if rc == Collides then u.(pend := Queue(u.pend, dev)) else u
  }

  function AddAll(t: Table, reg: Registry, devs: seq<Config>, opens: Config -> bool, n: nat): (r: Table)
    requires n <= |devs|
    ensures |r.slots| == |t.slots| && |r.pend| == |t.pend|
  {
    if n == 0 then t
    else AddWanted(AddAll(t, reg, devs, opens, n - 1), reg, devs[n - 1], opens)
  }

  /** mf_devices_apply_config() on an accepted config. */
  function Apply(t: Table, reg: Registry, devs: seq<Config>, opens: Config -> bool): (r: Table)
    ensures |r.slots| == |t.slots| && |r.pend| == |t.pend|
  {
    AddAll(Patch(t, devs, |t.slots|), reg, devs, opens, |devs|)
  }

  // ----- Afterwards -----

  /** device_pt() of slot s returning. */
  function Exit(t: Table, s: nat): (r: Table)
    requires s < |t.slots|
    ensures |r.slots| == |t.slots| && |r.pend| == |t.pend|
  {
    var d := t.slots[s];
    t.(slots := t.slots[s := d.(inUse := false, stop := false, ctx := None)],
       closed := t.closed + if d.ctx.Some? then [d.ctx.value] else [])
  }

  /** Every dying device's protothread returns, the slots before s so far. */
  function ExitDying(t: Table, s: nat): (r: Table)
    requires s <= |t.slots|
    ensures |r.slots| == |t.slots| && |r.pend| == |t.pend|
  {
    if s == 0 then t
    else
      var u := ExitDying(t, s - 1);
      if Dying(u.slots[s - 1]) then Exit(u, s - 1) else u
  }

  /** One entry of mf_devices_apply_pending(). */
  function Reopen(t: Table, reg: Registry, opens: Config -> bool, i: nat): (r: Table)
    requires i < |t.pend|
    ensures |r.slots| == |t.slots| && |r.pend| == |t.pend|
  {
    var p := t.pend[i];
    if !p.used || UuidInUse(t.slots, p.dev.uuid) then t
    else
      var (u, rc) := Add(t, reg, p.dev, "", opens(p.dev));
      if rc == Collides then u else u.(pend := u.pend[i := p.(used := false)])
  }

  function ReopenAll(t: Table, reg: Registry, opens: Config -> bool, n: nat): (r: Table)
    requires n <= |t.pend|
    ensures |r.slots| == |t.slots| && |r.pend| == |t.pend|
  {
    if n == 0 then t else Reopen(ReopenAll(t, reg, opens, n - 1), reg, opens, n - 1)
  }

  // ----- Single devices -----

  /** The live slot of a uuid, or the length. */
  function LiveAt(slots: seq<Slot>, uuid: string): (k: nat)
    ensures k <= |slots|
    ensures k < |slots| ==> Live(slots[k]) && slots[k].uuid == uuid && uuid != ""
  {
    if slots == [] || uuid == "" then |slots|
    else if Live(slots[0]) && slots[0].uuid == uuid then 0
    else 1 + LiveAt(slots[1..], uuid)
  }

  function InUseAt(slots: seq<Slot>, uuid: string): (k: nat)
    ensures k <= |slots|
    ensures k < |slots| ==> slots[k].inUse && slots[k].uuid == uuid
  {
    if slots == [] || (slots[0].inUse && slots[0].uuid == uuid) then 0 else 1 + InUseAt(slots[1..], uuid)
  }

  /** mf_devices_delete(): the status, and the slot told to stop. */
  function Delete(t: Table, uuid: string): (Table, int) {
    if uuid == "" then (t, 404)
    else
      var u := t.(pend := Cancel(t.pend, uuid));
      var k := InUseAt(u.slots, uuid);
      if k < |u.slots| then (u.(slots := u.slots[k := u.slots[k].(stop := true)]), 202) else (u, 404)
  }

  /** The rename in mf_devices_put_settings(). */
  function Rename(t: Table, uuid: string, name: string): (Table, int) {
    var k := LiveAt(t.slots, uuid);
    if k == |t.slots| then (t, 404)
    else if name == "" || |name| > NAME_MAX || NameTaken(t.slots, name, k) then (t, 400)
    else (t.(slots := t.slots[k := t.slots[k].(name := name)]), 200)
  }

  /** An accepted apply, every stopped protothread exiting, one apply_pending. */
  function Reconfigure(t: Table, reg: Registry, devs: seq<Config>, opens: Config -> bool): Table {
    var applied := Apply(t, reg, devs, opens);
    var exited := ExitDying(applied, |applied.slots|);
    ReopenAll(exited, reg, opens, |exited.pend|)
  }
}
