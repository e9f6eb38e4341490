/** Whose inverter packets come out: only those of an inverter that two packets
    in step have confirmed, whatever was learned and forgotten on the way. */
module MagFrameIdentity {
  import opened Bytes
  import opened MagFrame
  import opened MagFrameMoves
  import opened MagFrameRefinement

  /** Two packets of one model and revision at most a cycle apart, with nothing skipped
      between them. */
  predicate PairAt(log: seq<Packet>, k: nat, j: nat) {
    && k < j < |log| && j <= k + 3
    && log[k].kind == Inverter && log[j].kind == Inverter
    && |log[k].bytes| == |log[j].bytes| == INV_LEN
    && log[k].bytes[14] == log[j].bytes[14] && log[k].bytes[10] == log[j].bytes[10]
    && forall i :: k < i < j ==> log[i].kind != Unknown && log[i].kind != Inverter
  }

  /** Such a pair of this inverter is in the log. */
  ghost predicate Vouched(log: seq<Packet>, who: Ident) {
    exists k: nat, j: nat :: PairAt(log, k, j) && log[k].bytes[14] == who.model && log[k].bytes[10] == who.revision
  }

  /** An inverter packet that may have come out. */
  ghost predicate Welcome(log: seq<Packet>, p: Packet) {
    p.kind == Inverter ==> |p.bytes| == INV_LEN && Vouched(log, Ident(p.bytes[14], p.bytes[10]))
  }

  /** Every inverter packet delivered is of a confirmed inverter, and so is the
      inverter that is known. */
  ghost predicate Vouches(f: Frame) {
    && (forall i :: 0 <= i < |f.log| ==> Welcome(f.log, f.log[i]))
    && (f.id.Some? ==> Vouched(f.log, f.id.value))
  }

  /** What is on hold: the candidate's packet, then its cycle's others. */
  predicate HeldCycle(f: Frame) {
    f.held != [] ==>
      && f.held[0].kind == Inverter && |f.held[0].bytes| == INV_LEN
      && f.probe == Some(Ident(f.held[0].bytes[14], f.held[0].bytes[10]))
      && forall i :: 0 < i < |f.held| ==> f.held[i].kind != Inverter
  }

  lemma {:induction false} MoveKeepsHeldCycle(f: Frame, m: Move)
    requires Probation(f) && HeldCycle(f) && Legal(f, m)
    ensures HeldCycle(Apply(f, m))
  {}

  lemma {:induction false} PairStays(log: seq<Packet>, more: seq<Packet>, k: nat, j: nat)
    requires PairAt(log, k, j)
    ensures PairAt(log + more, k, j) && (log + more)[k] == log[k]
  {}

  lemma {:induction false} VouchedStays(log: seq<Packet>, more: seq<Packet>, who: Ident)
    requires Vouched(log, who)
    ensures Vouched(log + more, who)
  {
    var k: nat, j: nat :| PairAt(log, k, j) && log[k].bytes[14] == who.model && log[k].bytes[10] == who.revision;
    PairStays(log, more, k, j);
  }

  /** A log that grows by welcome packets. */
  lemma {:induction false} MoreVouched(f: Frame, g: Frame, more: seq<Packet>)
    requires Vouches(f) && g.log == f.log + more
    requires forall i :: 0 <= i < |more| ==> Welcome(g.log, more[i])
    requires g.id.Some? ==> g.id == f.id || Vouched(g.log, g.id.value)
    ensures Vouches(g)
  {
    hide Vouched;
    forall i | 0 <= i < |g.log| ensures Welcome(g.log, g.log[i]) {
      if i < |f.log| {
        assert Welcome(f.log, f.log[i]);
        if f.log[i].kind == Inverter {
          VouchedStays(f.log, more, Ident(f.log[i].bytes[14], f.log[i].bytes[10]));
        }
      } else {
        assert g.log[i] == more[i - |f.log|];
      }
    }
    if f.id.Some? {
      VouchedStays(f.log, more, f.id.value);
    }
  }

  /** What was held and the packet that confirms it make a pair. */
  lemma {:induction false} HeldPair(log: seq<Packet>, held: seq<Packet>, p: Packet)
    requires HeldOk(held) && 0 < |held| <= 3
    requires held[0].kind == p.kind == Inverter && |held[0].bytes| == |p.bytes| == INV_LEN
    requires held[0].bytes[14] == p.bytes[14] && held[0].bytes[10] == p.bytes[10]
    requires forall i :: 0 < i < |held| ==> held[i].kind != Inverter
    ensures PairAt(log + (held + [p]), |log|, |log| + |held|)
    ensures (log + (held + [p]))[|log|] == held[0]
  {
    var all, k := log + (held + [p]), |log|;
    forall i | k <= i < k + |held| ensures all[i] == held[i - k] {}
  }

  lemma {:induction false} ConfirmVouches(f: Frame, g: Frame, p: Packet)
    requires Vouches(f) && HeldCycle(f) && HeldOk(f.held) && 0 < |f.held| <= 3
    requires p.kind == Inverter && |p.bytes| == INV_LEN && f.probe == Some(Ident(p.bytes[14], p.bytes[10]))
    requires g.log == f.log + (f.held + [p]) && g.id == Some(Ident(p.bytes[14], p.bytes[10]))
    ensures Vouches(g)
  {
    HeldPair(f.log, f.held, p);
    assert Vouched(g.log, Ident(p.bytes[14], p.bytes[10]));
    hide Vouched;
    MoreVouched(f, g, f.held + [p]);
  }

  /** Taking the candidate: the known inverter's packet, the confirming one, or
      one that goes on hold. */
  lemma {:induction false} TookVouches(f: Frame)
    requires Probation(f) && HeldCycle(f) && Vouches(f) && Legal(f, Took)
    ensures Vouches(Apply(f, Took))
  {
    var g, p := Apply(f, Took), Packet(Inverter, f.buf[..INV_LEN]);
    if f.id.Some? {
      assert g.log == f.log + [p];
      hide Vouches;
      KnownVouches(f, g, p);
    } else if f.probe.Some? && f.probe.value == IdentOf(f.buf) {
      assert g.log == f.log + (f.held + [p]);
      hide Vouches;
      ConfirmVouches(f, g, p);
    } else {
      var more := if f.probe.Some? then DowngradeAll(f.held) else [];
      assert g.log == f.log + more;
      hide Vouches;
      MoreVouched(f, g, more);
    }
  }

  lemma {:induction false} KnownVouches(f: Frame, g: Frame, p: Packet)
    requires Vouches(f) && f.id.Some? && g.id == f.id && g.log == f.log + [p]
    requires p.kind == Inverter && |p.bytes| == INV_LEN && Ident(p.bytes[14], p.bytes[10]) == f.id.value
    ensures Vouches(g)
  {
    hide Vouched;
    VouchedStays(f.log, [p], f.id.value);
    MoreVouched(f, g, [p]);
  }

  /** Every other move delivers no inverter packet. */
  lemma {:induction false} OtherMoveVouches(f: Frame, m: Move)
    requires Probation(f) && Vouches(f) && Legal(f, m) && m != Took
    ensures Vouches(Apply(f, m))
  {
    hide Vouches;
    var more := OtherDelivers(f, m);
    MoreVouched(f, Apply(f, m), more);
  }

  lemma {:induction false} OtherDelivers(f: Frame, m: Move) returns (more: seq<Packet>)
    requires Probation(f) && Legal(f, m) && m != Took
    ensures var g := Apply(f, m);
      && g.log == f.log + more && g.id == f.id
      && forall i :: 0 <= i < |more| ==> more[i].kind != Inverter
  {
    hide Accept, IsInverter, Turnaround, AllBytes, Kinds;
    var g := Apply(f, m);
    more := g.log[|f.log|..];
  }

  lemma {:induction false} MoveVouches(f: Frame, m: Move)
    requires Probation(f) && HeldCycle(f) && Vouches(f) && Legal(f, m)
    ensures Vouches(Apply(f, m))
  {
    hide Vouches, HeldCycle, Probation, Apply;
    if m == Took {
      TookVouches(f);
    } else {
      OtherMoveVouches(f, m);
    }
  }
}
