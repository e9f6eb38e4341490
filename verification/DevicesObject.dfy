/** The device slots as the program keeps them: two arrays changed in place,
    proved against the functions of module Devices. */
module DevicesObject {
  import opened Bytes
  import opened Devices
  import opened DevicesAgain
  import opened DevicesAnswers
  import opened DevicesConverge
  import opened DevicesExact
  import opened DevicesTables

  class DeviceTable {
    const dev: array<Slot>
    const pending: array<Pending>
    var contexts: nat
    var closed: seq<nat>
    const reg: Registry

    ghost predicate Valid()
      reads this
    {
      dev.Length == SLOTS && pending.Length == SLOTS
    }

    ghost function State(): Table
      reads this, dev, pending
    {
      Table(dev[..], pending[..], contexts, closed)
    }

    constructor (reg: Registry)
      ensures Valid() && fresh(dev) && fresh(pending)
      ensures State() == Table(seq(SLOTS, _ => EMPTY), seq(SLOTS, _ => Pending(false, NO_DEVICE)), 0, [])
      ensures this.reg == reg
    {
      this.reg := reg;
      dev := new Slot[SLOTS](_ => EMPTY);
      pending := new Pending[SLOTS](_ => Pending(false, NO_DEVICE));
      contexts, closed := 0, [];
    }

    // ----- Looking up -----

    method IsNameTaken(name: string, skip: int) returns (taken: bool)
      requires Valid()
      ensures taken == NameTaken(dev[..], name, skip)
    {
      for i := 0 to SLOTS
        invariant forall j :: 0 <= j < i && j != skip ==> !(dev[j].inUse && dev[j].name == name)
      {
        if i != skip && dev[i].inUse && dev[i].name == name {
          assert dev[..][i] == dev[i];
          return true;
        }
      }
      return false;
    }

    method IsUuidInUse(uuid: string) returns (used: bool)
      requires Valid()
      ensures used == UuidInUse(dev[..], uuid)
    {
      if uuid == "" { return false; }
      for i := 0 to SLOTS
        invariant forall j :: 0 <= j < i ==> !(dev[j].inUse && dev[j].uuid == uuid)
      {
        if dev[i].inUse && dev[i].uuid == uuid {
          assert dev[..][i] == dev[i];
          return true;
        }
      }
      return false;
    }

    method FindFree() returns (k: nat)
      requires Valid()
      ensures k == FirstFree(dev[..])
    {
      for i := 0 to SLOTS
        invariant forall j :: 0 <= j < i ==> dev[j].inUse
      {
        if !dev[i].inUse {
          assert !dev[..][i].inUse;
          return i;
        }
      }
      return SLOTS;
    }

    method FindWanted(devs: seq<Config>, uuid: string) returns (want: Option<Config>)
      ensures want == Wanted(devs, uuid)
    {
      assert devs[0..] == devs;
      for i := 0 to |devs|
        invariant Wanted(devs, uuid) == Wanted(devs[i..], uuid)
      {
        if devs[i].uuid == uuid { return Some(devs[i]); }
        assert devs[i..][1..] == devs[i + 1..];
      }
      return None;
    }

    // ----- Adding -----

    method AddDevice(d: Config, newUuid: string, opens: bool) returns (rc: AddResult)
      requires Valid()
      modifies this`contexts, dev
      ensures Valid() && (State(), rc) == Add(old(State()), reg, d, newUuid, opens)
    {
      if d.name == "" || d.kind == "" || d.driver == "" || |d.name| > NAME_MAX { return BadRequest; }
      var taken := IsNameTaken(d.name, -1);
      if taken { return Collides; }
      var used := IsUuidInUse(d.uuid);
      if used { return Collides; }
      if reg.loaded && !reg.known(d.kind, d.driver) { return UnknownDriver; }
      var slot := FindFree();
      if slot == SLOTS { return Full; }
      var uuid := if d.uuid != "" then d.uuid else newUuid;
      dev[slot] := EMPTY;
      var ctx: Option<nat> := None;
      if reg.loaded {
        if !opens { return OpenFailed; }
        ctx := Some(contexts);
        contexts := contexts + 1;
      }
      dev[slot] := NewSlot(d, uuid, ctx);
      assert dev[..] == old(dev[..])[slot := NewSlot(d, uuid, ctx)];
      return Added;
    }

    // ----- Pending reopens -----

    method PendingCancel(uuid: string)
      requires Valid()
      modifies pending
      ensures pending[..] == Cancel(old(pending[..]), uuid)
    {
      if uuid == "" { return; }
      for i := 0 to SLOTS
        invariant forall j :: 0 <= j < SLOTS ==>
          pending[j] == if j < i then Cancelled(old(pending[j]), uuid) else old(pending[j])
      {
        if pending[i].used && pending[i].dev.uuid == uuid {
          pending[i] := pending[i].(used := false);
        }
      }
    }

    method PendingQueue(d: Config)
      requires Valid()
      modifies pending
      ensures pending[..] == Queue(old(pending[..]), d)
    {
      var slot: int := -1;
      for i := 0 to SLOTS
        invariant pending[..] == old(pending[..])
        invariant forall j :: 0 <= j < i ==> !(pending[j].used && pending[j].dev.uuid == d.uuid)
        invariant -1 <= slot < i
        invariant slot < 0 ==> forall j :: 0 <= j < i ==> pending[j].used
        invariant slot >= 0 ==> !pending[slot].used && forall j :: 0 <= j < slot ==> pending[j].used
      {
        if pending[i].used && pending[i].dev.uuid == d.uuid {
          assert QueuedAt(pending[..], d.uuid) == i;
          pending[i] := pending[i].(dev := d);
          return;
        }
        if !pending[i].used && slot < 0 { slot := i; }
      }
      assert QueuedAt(pending[..], d.uuid) == SLOTS;
      if slot < 0 { return; }
      assert FirstUnused(pending[..]) == slot;
      pending[slot] := Pending(true, d);
    }

    // ----- Validating -----

    method ValidateConfig(devs: seq<Config>) returns (ok: bool)
      ensures ok == ValidConfig(reg, devs)
      ensures ok <==> !BadConfig(reg, devs)
    {
      BadExactlyWhen(reg, devs);
      hide BadConfig;
      for i := 0 to |devs|
        invariant forall k :: 0 <= k < i ==> EntryOk(reg, devs[k])
        invariant forall k, j :: 0 <= k < i && k < j < |devs| ==> PairOk(devs[k], devs[j])
      {
        if !EntryOk(reg, devs[i]) { return false; }
        for j := i + 1 to |devs|
          invariant forall m :: i < m < j ==> PairOk(devs[i], devs[m])
        {
          if !PairOk(devs[i], devs[j]) { return false; }
        }
      }
      return true;
    }

    method ValidateChannels(devs: seq<Config>) returns (ok: bool)
      requires Valid()
      ensures ok == NoConflict(dev[..], devs)
    {
      for i := 0 to |devs|
        invariant forall k, s :: 0 <= k < i && 0 <= s < SLOTS ==> ChannelFree(devs, devs[k], dev[s])
      {
        if devs[i].enabled {
          for s := 0 to SLOTS
            invariant forall r :: 0 <= r < s ==> ChannelFree(devs, devs[i], dev[r])
          {
            var want := FindWanted(devs, dev[s].uuid);
            if Hits(dev[s], devs[i]) && (want.None? || dev[s].uuid == "") {
              assert dev[..][s] == dev[s];
              return false;
            }
          }
        }
      }
      return true;
    }

    // ----- Applying -----

    method PatchSlot(devs: seq<Config>, s: nat)
      requires Valid() && s < SLOTS
      modifies dev, pending
      ensures dev[..] == old(dev[..])[s := PatchedSlot(old(dev[s]), devs)]
      ensures pending[..] == PatchedPend(old(pending[..]), old(dev[s]), devs)
    {
      if !dev[s].inUse { return; }
      var want := FindWanted(devs, dev[s].uuid);
      if want.None? || !want.value.enabled {
        PendingCancel(dev[s].uuid);
        dev[s] := dev[s].(stop := true);
      } else if IdentityChanged(dev[s], want.value) {
        PendingQueue(want.value);
        dev[s] := dev[s].(stop := true);
      } else {
        dev[s] := dev[s].(name := Cut(want.value.name, NAME_MAX), active := want.value.active);
      }
    }

    method AddEntry(d: Config, opens: Config -> bool)
      requires Valid()
      modifies this`contexts, dev, pending
      ensures State() == AddWanted(old(State()), reg, d, opens)
    {
      var used := IsUuidInUse(d.uuid);
      if !d.enabled || used { return; }
      var rc := AddDevice(d, "", opens(d));
      if rc == Collides { PendingQueue(d); }
    }

    method AnyDying() returns (any: bool)
      requires Valid()
      ensures any == !NoneDying(dev[..])
    {
      for s := 0 to SLOTS
        invariant forall r :: 0 <= r < s ==> !Dying(dev[r])
      {
        if dev[s].inUse && dev[s].stop {
          assert Dying(dev[..][s]);
          return true;
        }
      }
      return false;
    }

    method AnyPending() returns (any: bool)
      requires Valid()
      ensures any == !NothingPending(pending[..])
    {
      for i := 0 to SLOTS
        invariant forall j :: 0 <= j < i ==> !pending[j].used
      {
        if pending[i].used {
          assert pending[..][i].used;
          return true;
        }
      }
      return false;
    }

    /** mf_devices_apply_config(): -1 when the config is refused, 1 when
        something is still to come, else 0. */
    method ApplyConfig(devs: seq<Config>, opens: Config -> bool) returns (rc: int)
      requires Valid()
      modifies this`contexts, dev, pending
      ensures rc == -1 <==> !Accepted(old(State()), reg, devs)
      ensures rc == -1 <==> Refused(old(State()), reg, devs)
      ensures rc == -1 ==> State() == old(State())
      ensures rc != -1 ==> State() == Apply(old(State()), reg, devs, opens)
      ensures rc != -1 ==> rc == if StillPending(State()) then 1 else 0
    {
      RefusedExactlyWhen(State(), reg, devs);
      hide Refused, BadConfig;
      var ok := ValidateConfig(devs);
      if !ok { return -1; }
      ok := ValidateChannels(devs);
      if !ok { return -1; }
      for s := 0 to SLOTS
        invariant State() == Patch(old(State()), devs, s)
      {
        PatchSlot(devs, s);
      }
      ghost var patched := State();
      for i := 0 to |devs|
        invariant State() == AddAll(patched, reg, devs, opens, i)
      {
        AddEntry(devs[i], opens);
      }
      var dying := AnyDying();
      var queued := AnyPending();
      return if dying || queued then 1 else 0;
    }

    method ReopenEntry(opens: Config -> bool, i: nat)
      requires Valid() && i < SLOTS
      modifies this`contexts, dev, pending
      ensures State() == Reopen(old(State()), reg, opens, i)
    {
      var p := pending[i];
      if !p.used { return; }
      var used := IsUuidInUse(p.dev.uuid);
      if used { return; }
      var rc := AddDevice(p.dev, "", opens(p.dev));
      if rc != Collides { pending[i] := p.(used := false); }
    }

    /** mf_devices_apply_pending(). */
    method ApplyPending(opens: Config -> bool)
      requires Valid()
      modifies this`contexts, dev, pending
      ensures State() == ReopenAll(old(State()), reg, opens, SLOTS)
    {
      for i := 0 to SLOTS
        invariant State() == ReopenAll(old(State()), reg, opens, i)
      {
        ReopenEntry(opens, i);
      }
    }

    // ----- Single devices -----

    method DeleteDevice(uuid: string) returns (status: int)
      requires Valid()
      modifies dev, pending
      ensures (State(), status) == Delete(old(State()), uuid)
    {
      if uuid == "" { return 404; }
      PendingCancel(uuid);
      for i := 0 to SLOTS
        invariant dev[..] == old(dev[..])
        invariant pending[..] == Cancel(old(pending[..]), uuid)
        invariant InUseAt(dev[..], uuid) == i + InUseAt(dev[i..], uuid)
      {
        if dev[i].inUse && dev[i].uuid == uuid {
          dev[i] := dev[i].(stop := true);
          return 202;
        }
        assert dev[i..][1..] == dev[i + 1..];
      }
      return 404;
    }

    method FindLive(uuid: string) returns (k: nat)
      requires Valid()
      ensures k == LiveAt(dev[..], uuid)
    {
      if uuid == "" { return SLOTS; }
      for i := 0 to SLOTS
        invariant LiveAt(dev[..], uuid) == i + LiveAt(dev[i..], uuid)
      {
        if Live(dev[i]) && dev[i].uuid == uuid { return i; }
        assert dev[i..][1..] == dev[i + 1..];
      }
      return SLOTS;
    }

    method RenameDevice(uuid: string, name: string) returns (status: int)
      requires Valid()
      modifies dev
      ensures (State(), status) == Rename(old(State()), uuid, name)
    {
      var k := FindLive(uuid);
      if k == SLOTS { return 404; }
      if name == "" || |name| > NAME_MAX { return 400; }
      var taken := IsNameTaken(name, k);
      if taken { return 400; }
      dev[k] := dev[k].(name := name);
      return 200;
    }

    /** The end of device_pt(). */
    method DeviceExit(s: nat)
      requires Valid() && s < SLOTS
      modifies this`closed, dev
      ensures State() == Exit(old(State()), s)
    {
      if dev[s].ctx.Some? {
        closed := closed + [dev[s].ctx.value];
        dev[s] := dev[s].(ctx := None);
      }
      dev[s] := dev[s].(inUse := false, stop := false);
    }

    /** Every stopped device's protothread returns. */
    method ExitStopped()
      requires Valid()
      modifies this`closed, dev
      ensures State() == ExitDying(old(State()), SLOTS)
    {
      for s := 0 to SLOTS
        invariant State() == ExitDying(old(State()), s)
      {
        if dev[s].inUse && dev[s].stop { DeviceExit(s); }
      }
    }
  }

  /** A whole reconfiguration, and the same config applied again: nothing is
      left to come. */
  method ReconfigureTwice(d: DeviceTable, devs: seq<Config>, opens: Config -> bool) returns (rc: int)
    requires d.Valid() && Startable(d.State(), d.reg) && |devs| <= MAX_DEVICES && AllFit(devs)
    requires QueueTakenUp(d.State(), devs) && NoneMissed(d.State(), d.reg, opens, devs)
    modifies d, d.dev, d.pending
    ensures rc == if Accepted(old(d.State()), d.reg, devs) then 0 else -1
    ensures rc == 0 ==> Converged(d.State(), devs)
  {
    hide Converged, Startable, Apply, Reconfigure, ExitDying, ReopenAll, AllFit, Accepted, QueueTakenUp, NoneMissed;
    ghost var t := d.State();
    rc := d.ApplyConfig(devs, opens);
    if rc != -1 {
      d.ExitStopped();
      d.ApplyPending(opens);
      ghost var u := d.State();
      assert u == Reconfigure(t, d.reg, devs, opens) by { ReconfigureIs(t, d.reg, devs, opens); }
      ApplyTwice(t, d.reg, devs, opens);
      rc := d.ApplyConfig(devs, opens);
      ConvergedRests(u, devs);
    }
  }

  lemma {:induction false} ReconfigureIs(t: Table, reg: Registry, devs: seq<Config>, opens: Config -> bool)
    requires |t.slots| == SLOTS && |t.pend| == SLOTS
    ensures Reconfigure(t, reg, devs, opens) ==
      ReopenAll(ExitDying(Apply(t, reg, devs, opens), SLOTS), reg, opens, SLOTS)
  {}
}
