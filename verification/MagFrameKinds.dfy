/** Whatever comes out as a packet is one, byte by byte, whatever was fed. */
module MagFrameKinds {
  import opened Bytes
  import opened MagFrame
  import opened MagFrameMoves
  import opened MagFrameRefinement
  import opened MagFrameWire

  predicate AllOfKind(ps: seq<Packet>) {
    forall i :: 0 <= i < |ps| ==> OfItsKind(ps[i])
  }

  /** What is out and what is held is of its kind, and the inverter that is known
      is of a known model. */
  predicate Shaped(f: Frame) {
    AllOfKind(f.log) && AllOfKind(f.held) && (f.id.Some? ==> Model(f.id.value.model))
  }

  lemma {:induction false} DowngradedOfKind(ps: seq<Packet>)
    ensures AllOfKind(DowngradeAll(ps))
  {
    hide InverterBytes, RemoteBytes, ReplyBytes;
  }

  lemma {:induction false} EmitShaped(f: Frame, p: Packet)
    requires Shaped(f) && OfItsKind(p)
    ensures Shaped(Emit(f, p))
  {
    hide OfItsKind, Model;
    DowngradedOfKind(f.held);
    DowngradedOfKind([p]);
    assert DowngradeAll([p])[0] == Downgrade(p);
  }

  lemma {:induction false} DropShaped(f: Frame)
    requires Shaped(f)
    ensures Shaped(HeldDrop(f))
  {
    hide OfItsKind, Model;
    DowngradedOfKind(f.held);
  }

  /** What is taken for an inverter packet is one, of a known model. */
  lemma {:induction false} TookIsInverter(f: Frame)
    requires Shaped(f) && Legal(f, Took)
    ensures OfItsKind(Packet(Inverter, f.buf[..INV_LEN])) && Model(f.buf[14])
  {
    hide IsInverter, InverterBytes, AllOfKind;
    var b := f.buf[..INV_LEN];
    InverterExactlyWhen(f.id, b);
    assert b[..21] == b && b[14] == f.buf[14];
  }

  lemma {:induction false} JudgeShaped(f: Frame)
    requires Shaped(f) && INV_LEN <= |f.buf| && Model(f.buf[14])
    ensures Shaped(Judge(f))
  {
    DropShaped(f);
    hide OfItsKind, Model, HeldDrop;
  }

  lemma {:induction false} TookShaped(f: Frame)
    requires Shaped(f) && Legal(f, Took)
    ensures Shaped(Apply(f, Took))
  {
    TookIsInverter(f);
    JudgeShaped(f);
    hide Shaped, OfItsKind, Model, IsInverter, Judge, Emit;
    var g := Judge(f).(sinceInverter := 0, synced := true);
    SameShaped(Judge(f), g);
    EmitShaped(g, Packet(Inverter, f.buf[..INV_LEN]));
    SameShaped(Emit(g, Packet(Inverter, f.buf[..INV_LEN])), Apply(f, Took));
  }

  lemma {:induction false} SameShaped(f: Frame, g: Frame)
    requires Shaped(f) && g.log == f.log && g.held == f.held && g.id == f.id
    ensures Shaped(g)
  {
    hide OfItsKind, Model;
  }

  lemma {:induction false} SkippedShaped(f: Frame, n: nat)
    requires Shaped(f) && Legal(f, Skipped(n))
    ensures Shaped(Apply(f, Skipped(n)))
  {
    DropShaped(f);
    hide OfItsKind, Model, HeldDrop;
    var g := if f.probe.Some? then HeldDrop(f) else f;
    var h := g.(stats := g.stats.(unknown := g.stats.unknown + n));
    UnknownIsOfKind(f.buf[..n]);
    EmitShaped(h, Packet(Unknown, f.buf[..n]));
    hide Emit;
    SameShaped(Emit(h, Packet(Unknown, f.buf[..n])), Apply(f, Skipped(n)));
  }

  lemma {:induction false} UnknownIsOfKind(b: seq<byte>)
    ensures OfItsKind(Packet(Unknown, b))
  {}

  /** Every parsing step keeps it so. */
  lemma {:induction false} MoveShaped(f: Frame, m: Move)
    requires Shaped(f) && Legal(f, m)
    ensures Shaped(Apply(f, m))
  {
    hide Shaped, OfItsKind, Accept, Skip, Emit, IsInverter, Turnaround;
    match m
    case Skipped(n) => SkippedShaped(f, n);
    case Took => TookShaped(f);
    case Dismissed(_) => SameShaped(f, Apply(f, m));
    case Stray => SameShaped(f, Apply(f, m));
    case Followed(kind, n) =>
      EmitShaped(f, Packet(kind, f.buf[..n]));
      SameShaped(Emit(f, Packet(kind, f.buf[..n])), Apply(f, m));
  }

  /** So does settling an idle tail. */
  lemma {:induction false} IdleShaped(f: Frame, quiet: real)
    requires Shaped(f)
    ensures Shaped(Idle(f, quiet))
  {
    DropShaped(f);
    hide Shaped, HeldDrop, Emit;
    var g := if f.probe.Some? && quiet >= PROBE_S then HeldDrop(f) else f;
    var h := if g.phase != Hunt then Bad(g) else g;
    var k := h.(stats := h.stats.(unknown := h.stats.unknown + |h.buf|));
    SameShaped(g, k);
    UnknownIsOfKind(h.buf);
    EmitShaped(k, Packet(Unknown, h.buf));
    SameShaped(Emit(k, Packet(Unknown, h.buf)), Settle(h));
  }
}
