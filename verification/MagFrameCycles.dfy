/** Where in the bus cycle packets come out: a remote packet hangs on the inverter
    packet right before it, a reply on both.  Strictly, that packet is delivered as
    an inverter's; loosely, it may have been given up on probation. */
module MagFrameCycles {
  import opened Bytes
  import opened MagFrame
  import opened MagFrameMoves
  import opened MagFrameRefinement
  import opened MagFrameIdentity
  import opened MagFrameWire

  predicate Anchor(p: Packet, strict: bool) {
    InverterBytes(p.bytes) && (p.kind == Inverter || (!strict && p.kind == Unknown))
  }

  predicate Asked(p: Packet, strict: bool) {
    |p.bytes| == REMOTE_LEN && (p.kind == Remote || (!strict && p.kind == Unknown))
  }

  /** What is taken in this phase hangs on the last packets of the list. */
  predicate Due(ps: seq<Packet>, phase: Phase, strict: bool) {
    match phase
    case Hunt => true
    case AfterInverter => |ps| >= 1 && Anchor(ps[|ps| - 1], strict)
    case AfterRemote => |ps| >= 2 && Anchor(ps[|ps| - 2], strict) && Asked(ps[|ps| - 1], strict)
  }

  /** Every packet of the list hangs on those before it. */
  predicate InCycle(ps: seq<Packet>, strict: bool) {
    forall i :: 0 <= i < |ps| ==> Due(ps[..i], Slot(ps[i].kind), strict)
  }

  /** So does everything delivered and held, and what is due next. */
  predicate Cycles(f: Frame, strict: bool) {
    InCycle(f.log + f.held, strict) && Due(f.log + f.held, f.phase, strict)
  }

  // ----- Lists -----

  lemma {:induction false} Joins(ps: seq<Packet>, p: Packet, strict: bool)
    requires InCycle(ps, strict) && Due(ps, Slot(p.kind), strict)
    ensures InCycle(ps + [p], strict)
  {
    hide Due;
    forall i | 0 <= i < |ps| + 1 ensures Due((ps + [p])[..i], Slot((ps + [p])[i].kind), strict) {
      if i < |ps| {
        assert (ps + [p])[..i] == ps[..i];
      } else {
        assert (ps + [p])[..i] == ps;
      }
    }
  }

  lemma {:induction false} PrefixInCycle(ps: seq<Packet>, qs: seq<Packet>, strict: bool)
    requires InCycle(ps + qs, strict)
    ensures InCycle(ps, strict)
  {
    hide Due;
    forall i | 0 <= i < |ps| ensures Due(ps[..i], Slot(ps[i].kind), strict) {
      assert (ps + qs)[..i] == ps[..i] && (ps + qs)[i] == ps[i];
    }
  }

  /** Packets of unknown kind hang on nothing. */
  lemma {:induction false} UnknownInCycle(ps: seq<Packet>, more: seq<Packet>, strict: bool)
    requires InCycle(ps, strict)
    requires forall i :: 0 <= i < |more| ==> more[i].kind == Unknown
    ensures InCycle(ps + more, strict)
  {
    forall i | 0 <= i < |ps + more| ensures Due((ps + more)[..i], Slot((ps + more)[i].kind), strict) {
      if i < |ps| {
        assert (ps + more)[..i] == ps[..i] && (ps + more)[i] == ps[i];
      } else {
        assert (ps + more)[i] == more[i - |ps|];
      }
    }
  }

  /** A run that starts with an inverter packet hangs on nothing before it. */
  lemma {:induction false} MovesAlong(ps: seq<Packet>, qs: seq<Packet>, held: seq<Packet>, phase: Phase, strict: bool)
    requires held != [] && held[0].kind == Inverter && Due(ps + held, phase, strict)
    ensures Due(qs + held, phase, strict)
  {
    var a, b := ps + held, qs + held;
    assert a[|a| - 1] == b[|b| - 1] == held[|held| - 1];
    if |held| >= 2 {
      assert a[|a| - 2] == b[|b| - 2] == held[|held| - 2];
    }
  }

  lemma {:induction false} RunMoves(ps: seq<Packet>, qs: seq<Packet>, held: seq<Packet>, strict: bool)
    requires InCycle(ps + held, strict) && InCycle(qs, strict)
    requires held != [] && held[0].kind == Inverter
    ensures InCycle(qs + held, strict)
  {
    hide Due;
    var all := qs + held;
    forall i | 0 <= i < |all| ensures Due(all[..i], Slot(all[i].kind), strict) {
      if i < |qs| {
        assert all[..i] == qs[..i] && all[i] == qs[i];
      } else if i == |qs| {
        assert all[i].kind == Inverter;
        HuntIsFree(all[..i], strict);
      } else {
        var j := i - |qs|;
        assert all[..i] == qs + held[..j] && all[i] == held[j];
        assert (ps + held)[..|ps| + j] == ps + held[..j] && (ps + held)[|ps| + j] == held[j];
        MovesAlong(ps, qs, held[..j], Slot(held[j].kind), strict);
      }
    }
  }

  lemma {:induction false} HuntIsFree(ps: seq<Packet>, strict: bool)
    ensures Due(ps, Hunt, strict)
  {}

  // ----- Moves -----

  /** A packet of the kind that is due joins, and the next one hangs on it. */
  lemma {:induction false} FollowedCycles(f: Frame, kind: Kind, n: nat, strict: bool)
    requires Probation(f) && Cycles(f, strict) && Legal(f, Followed(kind, n))
    ensures Cycles(Apply(f, Followed(kind, n)), strict)
  {
    hide Probation, InCycle;
    var g, p := Apply(f, Followed(kind, n)), Packet(kind, f.buf[..n]);
    var outs := f.log + f.held;
    EmitJoins(f, p);
    assert g.log + g.held == outs + [p];
    NextDue(outs, p, strict);
    hide Due, Emit;
    Joins(outs, p, strict);
  }

  lemma {:induction false} EmitJoins(f: Frame, p: Packet)
    requires Probation(f) && f.phase != Hunt && p.kind != Unknown && |p.bytes| <= INV_LEN
    ensures Emit(f, p).log + Emit(f, p).held == f.log + f.held + [p]
  {
    hide HeldOk, DowngradeAll, AllBytes;
  }

  /** Behind a remote packet a reply is due. */
  lemma {:induction false} NextDue(ps: seq<Packet>, p: Packet, strict: bool)
    requires Due(ps, Slot(p.kind), strict) && Slot(p.kind) != Hunt && (p.kind == Remote ==> |p.bytes| == REMOTE_LEN)
    ensures Due(ps + [p], if Slot(p.kind) == AfterInverter then AfterRemote else Hunt, strict)
  {
    hide InverterBytes;
  }

  /** A packet of unknown kind ends the cycle, whatever was given up before it. */
  lemma {:induction false} SkippedCycles(f: Frame, n: nat, strict: bool)
    requires Probation(f) && Cycles(f, strict) && Legal(f, Skipped(n))
    ensures Cycles(Apply(f, Skipped(n)), strict)
  {
    var g := Apply(f, Skipped(n));
    var more := (if f.probe.Some? then DowngradeAll(f.held) else []) + [Packet(Unknown, f.buf[..n])];
    assert g.log == f.log + more && g.held == [] && g.phase == Hunt;
    hide Due, Anchor, Asked;
    HuntIsFree(g.log + g.held, strict);
    PrefixInCycle(f.log, f.held, strict);
    UnknownInCycle(f.log, more, strict);
    assert g.log + g.held == g.log;
  }

  /** What is known, or confirmed, joins; another candidate replaces the held ones. */
  lemma {:induction false} TookJoins(f: Frame) returns (base: seq<Packet>, more: seq<Packet>)
    requires Probation(f) && Legal(f, Took)
    ensures var g, p := Apply(f, Took), Packet(Inverter, f.buf[..INV_LEN]);
      && g.log + g.held == base + more + [p] && g.phase == AfterInverter
    ensures base == f.log + f.held || base == f.log
    ensures forall i :: 0 <= i < |more| ==> more[i].kind == Unknown
  {
    hide IsInverter, HeldOk, AllBytes, Kinds;
    var g, p := Apply(f, Took), Packet(Inverter, f.buf[..INV_LEN]);
    if f.id.Some? || (f.probe.Some? && f.probe.value == IdentOf(f.buf)) {
      base, more := f.log + f.held, [];
      assert g.log + g.held == base + [p];
    } else {
      base, more := f.log, if f.probe.Some? then DowngradeAll(f.held) else [];
      assert g.log == base + more && g.held == [p];
    }
  }

  lemma {:induction false} TookCycles(f: Frame, strict: bool)
    requires Probation(f) && Cycles(f, strict) && Legal(f, Took)
    ensures Cycles(Apply(f, Took), strict)
  {
    hide Probation, Accept, IsInverter, InCycle, Due, InverterBytes;
    var g, p := Apply(f, Took), Packet(Inverter, f.buf[..INV_LEN]);
    var base, more := TookJoins(f);
    PrefixInCycle(f.log, f.held, strict);
    UnknownInCycle(base, more, strict);
    HuntIsFree(base + more, strict);
    Joins(base + more, p, strict);
    InverterOfShape(f);
    CycleBegins(base + more, p, strict);
  }

  lemma {:induction false} CycleBegins(ps: seq<Packet>, p: Packet, strict: bool)
    requires p.kind == Inverter && InverterBytes(p.bytes)
    ensures Due(ps + [p], AfterInverter, strict)
  {
    hide InverterBytes;
  }

  lemma {:induction false} InverterOfShape(f: Frame)
    requires INV_LEN <= |f.buf| && IsInverter(f.id, f.buf[..INV_LEN])
    ensures InverterBytes(f.buf[..INV_LEN])
  {
    hide InverterBytes, IsInverter;
    InverterExactlyWhen(f.id, f.buf[..INV_LEN]);
    assert f.buf[..INV_LEN][..21] == f.buf[..INV_LEN];
  }

  lemma {:induction false} MoveCycles(f: Frame, m: Move, strict: bool)
    requires Probation(f) && Cycles(f, strict) && Legal(f, m)
    ensures Cycles(Apply(f, m), strict)
  {
    hide Probation, Accept, Skip, Emit, IsInverter, Turnaround, InCycle;
    match m
    case Skipped(n) => SkippedCycles(f, n, strict);
    case Took => TookCycles(f, strict);
    case Dismissed(_) => HuntIsFree(f.log + f.held, strict);
    case Stray =>
    case Followed(kind, n) => FollowedCycles(f, kind, n, strict);
  }

  // ----- Idle -----

  /** The candidate is given up with nothing in the buffer, and the framer goes
      on waiting for the packet behind it. */
  predicate GivesUpMidCycle(f: Frame, quiet: real) {
    f.probe.Some? && quiet >= 1.0 && f.buf == [] && f.phase != Hunt
  }

  /** No cycle is open whose inverter packet is neither delivered nor on probation. */
  predicate Attached(f: Frame) {
    f.probe.None? ==> Due(f.log, f.phase, true)
  }

  lemma {:induction false} CyclesAttached(f: Frame)
    requires Probation(f) && Cycles(f, true)
    ensures Attached(f)
  {
    hide Due, InCycle;
    assert f.held == [] ==> f.log + f.held == f.log;
  }

  /** Giving up in mid-cycle, and nothing else that idle does, opens such a cycle. */
  lemma {:induction false} OpensCycleExactlyWhen(f: Frame, quiet: real)
    requires Probation(f) && Attached(f)
    ensures Attached(Idle(f, quiet)) <==> !GivesUpMidCycle(f, quiet)
  {
    hide InverterBytes;
    var i := Idle(f, quiet);
    if GivesUpMidCycle(f, quiet) {
      assert i.log[|i.log| - 1] == Downgrade(f.held[|f.held| - 1]);
    }
  }

  /** Idle keeps every packet loosely in its cycle, and strictly exactly if it
      does not give the candidate up in mid-cycle. */
  lemma {:induction false} IdleCyclesExactlyWhen(f: Frame, quiet: real, strict: bool)
    requires Probation(f) && HeldCycle(f) && Cycles(f, strict)
    ensures Cycles(Idle(f, quiet), strict) <==> !strict || !GivesUpMidCycle(f, quiet)
  {
    hide InCycle;
    if GivesUpMidCycle(f, quiet) {
      assert Idle(f, quiet) == HeldDrop(f);
      GivenUpCycles(f, strict);
    } else {
      hide Due;
      SettledCycles(f, quiet, strict);
    }
  }

  lemma {:induction false} GivenUpCycles(f: Frame, strict: bool)
    requires Probation(f) && HeldCycle(f) && Cycles(f, strict) && f.probe.Some? && f.phase != Hunt
    ensures Cycles(HeldDrop(f), strict) <==> !strict
  {
    hide InCycle, Due, AllBytes;
    var g, more := HeldDrop(f), DowngradeAll(f.held);
    assert g.log + g.held == f.log + more;
    DowngradedDue(f.log, f.held, f.phase, strict);
    PrefixInCycle(f.log, f.held, strict);
    UnknownInCycle(f.log, more, strict);
  }

  /** A cycle given up is no longer one, but its packets are still in place. */
  lemma {:induction false} DowngradedDue(ps: seq<Packet>, held: seq<Packet>, phase: Phase, strict: bool)
    requires held != [] && held[0].kind == Inverter && Due(ps + held, phase, strict) && phase != Hunt
    ensures Due(ps + DowngradeAll(held), phase, strict) <==> !strict
  {
    hide InverterBytes;
    var a, b := ps + held, ps + DowngradeAll(held);
    assert b[|b| - 1] == Downgrade(a[|a| - 1]);
    if |held| >= 2 {
      assert b[|b| - 2] == Downgrade(a[|a| - 2]);
    } else {
      assert a[|a| - 1] == held[0];
    }
  }

  lemma {:induction false} SettledCycles(f: Frame, quiet: real, strict: bool)
    requires Probation(f) && HeldCycle(f) && Cycles(f, strict) && !GivesUpMidCycle(f, quiet)
    ensures Cycles(Idle(f, quiet), strict)
  {
    hide Idle, InCycle, Due, Probation, GivesUpMidCycle;
    var i := Idle(f, quiet);
    if i != f {
      var more := IdleDelivers(f, quiet);
      PrefixInCycle(f.log, f.held, strict);
      UnknownInCycle(f.log, more, strict);
      HuntIsFree(i.log + i.held, strict);
      if i.held == [] {
        assert i.log + i.held == i.log;
      } else {
        RunMoves(f.log, i.log, f.held, strict);
      }
    }
  }

  lemma {:induction false} IdleDelivers(f: Frame, quiet: real) returns (more: seq<Packet>)
    requires Probation(f) && !GivesUpMidCycle(f, quiet) && Idle(f, quiet) != f
    ensures var i := Idle(f, quiet);
      i.log == f.log + more && i.phase == Hunt && (i.held == [] || i.held == f.held)
    ensures forall k :: 0 <= k < |more| ==> more[k].kind == Unknown
  {
    hide HeldOk, AllBytes;
    more := Idle(f, quiet).log[|f.log|..];
  }
}
