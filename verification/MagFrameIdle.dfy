/** What a quiet line does: settling an idle tail can overtake held packets, and
    giving up a candidate in the middle of its cycle lets a packet out that no
    inverter vouches for.  Exactly when, and what every other run keeps. */
module MagFrameIdle {
  import opened Bytes
  import opened MagFrame
  import opened MagFrameMoves
  import opened MagFrameRefinement
  import opened MagFrameIdentity
  import opened MagFrameCycles
  import opened MagFrameKinds
  import opened MagFrameWire
  import opened MagFrameStream
  import opened MagFrameLimits

  // ----- Order -----

  /** Quiet long enough to settle the tail, not long enough to give up the
      candidate on probation. */
  predicate Overtaking(f: Frame, quiet: real) {
    f.probe.Some? && f.buf != [] && 0.060 <= quiet < 1.0
  }

  /** The candidate given up, or not. */
  function GiveUp(f: Frame, quiet: real): Frame {
    if f.probe.Some? && quiet >= 1.0 then HeldDrop(f) else f
  }

  /** Otherwise idle keeps stream order: what it delivers or leaves is still
      the input cut up in order. */
  lemma {:induction false} IdleKeepsOrder(f: Frame, quiet: real, input: seq<byte>, gaps: seq<seq<byte>>)
    requires Probation(f) && Accounts(f, input, gaps) && !Overtaking(f, quiet)
    ensures exists next :: Accounts(Idle(f, quiet), input, next)
  {
    hide Accounts;
    var g := GiveUp(f, quiet);
    DropAccounts(f, input, gaps);
    if g.buf == [] || quiet < 0.060 {
      assert Accounts(Idle(f, quiet), input, gaps);
    } else {
      SettleAccounts(g, Idle(f, quiet), input, gaps);
    }
  }

  /** Delivering the whole buffer keeps the account. */
  lemma {:induction false} SettleAccounts(g: Frame, r: Frame, input: seq<byte>, gaps: seq<seq<byte>>)
    requires Accounts(g, input, gaps) && Probation(g) && g.buf != [] && g.held == []
    requires r == Settle(if g.phase != Hunt then Bad(g) else g)
    ensures exists next :: Accounts(r, input, next)
  {
    hide Accounts;
    var h := if g.phase != Hunt then Bad(g) else g;
    SameBytesAccounts(g, h.(phase := Hunt), input, gaps);
    assert h.buf[..|h.buf|] == h.buf && h.buf[|h.buf|..] == [];
    EmitAccounts(h.(phase := Hunt), Unknown, |h.buf|, r, input, gaps);
  }

  /** In that case, and only then, the tail is delivered before packets that
      arrived earlier and are still on hold. */
  lemma {:induction false} IdleOvertakes(f: Frame, quiet: real)
    requires Probation(f)
    ensures Overtaking(f, quiet) <==>
      Idle(f, quiet).held != [] && Idle(f, quiet).log == f.log + [Packet(Unknown, f.buf)] && f.buf != []
    ensures Overtaking(f, quiet) ==> Idle(f, quiet).held == f.held && Idle(f, quiet).synced
  {
    if f.probe.Some? && quiet >= 1.0 {
      assert Idle(f, quiet).held == [];
    }
  }

  /** And the candidate then counts as confirmed in step although the tail was
      skipped in between: the held packets come out after the later bytes. */
  lemma {:induction false} OvertakenThenConfirmed(f: Frame, quiet: real, packet: seq<byte>)
    requires Probation(f) && Overtaking(f, quiet)
    requires AnyInverter(packet) && f.probe == Some(Ident(packet[14], packet[10]))
    ensures Feed(Idle(f, quiet), packet).log ==
      f.log + [Packet(Unknown, f.buf)] + f.held + [Packet(Inverter, packet)]
  {
    AnyIsInverter(packet);
    hide IsInverter, AnyInverter, CountFF;
    IdleOvertakes(f, quiet);
    var i := Idle(f, quiet);
    FeedsPacket(i, packet);
    assert packet[..INV_LEN] == packet;
  }

  // ----- Confirmation -----

  lemma {:induction false} IdleLogs(f: Frame, quiet: real) returns (more: seq<Packet>)
    requires Probation(f)
    ensures Idle(f, quiet).log == f.log + more && AllUnknown(more) && Idle(f, quiet).id == f.id
  {
    more := Idle(f, quiet).log[|f.log|..];
  }

  lemma {:induction false} IdleKeepsHeldCycle(f: Frame, quiet: real)
    requires Probation(f) && HeldCycle(f)
    ensures HeldCycle(Idle(f, quiet))
  {}

  /** What idle delivers is of unknown kind and confirms nothing. */
  lemma {:induction false} IdleWithheld(f: Frame, quiet: real)
    requires Probation(f) && Withheld(f)
    ensures Withheld(Idle(f, quiet))
  {
    hide Confirmed, Idle;
    var more := IdleLogs(f, quiet);
    if Confirmed(f.log) {
      ConfirmedStays(f.log, more);
    }
  }

  /** Idle keeps a safe framer safe exactly if it does not give the candidate up
      in mid-cycle, whatever was confirmed before. */
  lemma {:induction false} IdleIsSafeExactlyWhen(f: Frame, quiet: real)
    requires Probation(f) && Safe(f)
    ensures Safe(Idle(f, quiet)) <==> !GivesUpMidCycle(f, quiet)
  {
    hide HeldCycle, Idle, Cycles, Withheld, Probation;
    IdleKeepsHeldCycle(f, quiet);
    IdleWithheld(f, quiet);
    IdleCyclesExactlyWhen(f, quiet, true);
  }

  // ----- What comes out -----

  /** A packet is out that hangs on no delivered inverter packet. */
  predicate Leaks(f: Frame) {
    !InCycle(f.log, true)
  }

  /** Giving up in mid-cycle lets the next packet of that cycle out, typed, though
      no inverter is known and none on probation: whatever the log holds. */
  lemma {:induction false} GivenUpGetsOut(f: Frame, quiet: real)
    requires Probation(f) && GivesUpMidCycle(f, quiet)
    ensures var i := Idle(f, quiet);
      && i.id.None? && i.probe.None? && i.phase == f.phase
      && Feed(i, NextData(i.phase)).log == i.log + [NextPacket(i.phase)]
      && NextPacket(i.phase).kind != Unknown
      && Leaks(Feed(i, NextData(i.phase)))
  {
    hide Feed, CountFF, InverterBytes;
    var i := Idle(f, quiet);
    FeedsNext(i);
    var log := Feed(i, NextData(i.phase)).log;
    assert log == i.log + [NextPacket(i.phase)];
    assert i.log[|i.log| - 1] == Downgrade(f.held[|f.held| - 1]);
    assert log[..|i.log|] == i.log && !Due(i.log, i.phase, true);
  }

  /** The header's promise, exactly: after an idle call some bytes can get a packet
      out that hangs on no delivered inverter packet if and only if the call gave
      the candidate up in mid-cycle. */
  lemma {:induction false} UnconfirmedGetsOutExactlyWhen(f: Frame, quiet: real)
    requires Sound(f) && Safe(f) && |f.buf| <= INV_LEN
    ensures (exists data :: Leaks(Feed(Idle(f, quiet), data))) <==> GivesUpMidCycle(f, quiet)
  {
    hide Safe, Sound, Leaks, Feed, Idle, GivesUpMidCycle;
    SoundIsProbation(f);
    IdleIsSafeExactlyWhen(f, quiet);
    IdleSound(f, quiet);
    if GivesUpMidCycle(f, quiet) {
      GivenUpGetsOut(f, quiet);
    } else {
      forall data ensures !Leaks(Feed(Idle(f, quiet), data)) {
        FeedSafe(Idle(f, quiet), data);
        SafeDoesNotLeak(Feed(Idle(f, quiet), data));
      }
    }
  }

  lemma {:induction false} SafeDoesNotLeak(f: Frame)
    requires Safe(f)
    ensures !Leaks(f)
  {
    hide InCycle, Withheld, HeldCycle, Due;
    PrefixInCycle(f.log, f.held, true);
  }

  // ----- It happens behind a confirmed inverter as well -----

  /** Noise in an empty buffer is skipped down to a packet's length less one. */
  lemma {:induction false} FeedsNoise(f: Frame, n: nat)
    requires f.phase == Hunt && f.buf == [] && f.probe.None? && !Relearns(f, n) && INV_LEN <= n <= BUF_SIZE
    ensures var g := Feed(f, Noise(n));
      && g.phase == Hunt && 0 < |g.buf| < INV_LEN && g.id == f.id && g.probe.None? && g.held == f.held
      && g.sinceInverter == f.sinceInverter + n && f.log <= g.log
  {
    hide CountFF, IsInverter;
    var s := FeedStart(f, Noise(n));
    var b := s.(buf := Noise(n));
    assert [] + Noise(n)[..n] == Noise(n) && Noise(n)[n..] == [];
    NoNoiseStarts(b.id, n, Candidate(b.id, b.buf, 0));
    var g := Step(b).value;
    assert Step(g).None? && Process(b) == g;
    assert FeedLoop(s, Noise(n)) == FeedLoop(g, []);
  }

  lemma {:induction false} NoNoiseStarts(id: Option<Ident>, n: nat, j: nat)
    ensures !StartsAt(id, Noise(n), j)
  {
    if j + INV_LEN <= n {
      assert Noise(n)[j..j + INV_LEN][20] == NOISE;
    }
  }

  /** A known inverter falls silent until it is all but forgotten, the tail of the
      noise settles, and a packet of another model arrives. */
  function OtherArrives(f: Frame, other: seq<byte>): Frame
    requires |f.buf| <= INV_LEN && f.sinceInverter + INV_LEN <= 4096
  {
    Feed(Settled(Feed(f, Noise(4096 - f.sinceInverter))), other)
  }

  function Settled(g: Frame): (r: Frame)
    requires |g.buf| <= INV_LEN
    ensures |r.buf| <= INV_LEN
  {
    Idle(g, 0.060)
  }

  /** That feed forgets the known inverter and puts the other on probation, its
      cycle just begun. */
  lemma {:induction false} OtherOnProbation(f: Frame, known: seq<byte>, other: seq<byte>)
    requires KnownAndIdle(f, known) && f.sinceInverter + INV_LEN <= 4096
    requires AnyInverter(other)
    ensures var h := OtherArrives(f, other);
      && Probation(h) && GivesUpMidCycle(h, 1.0) && h.phase == AfterInverter
      && h.probe == Some(Ident(other[14], other[10])) && f.log <= h.log
  {
    hide Feed, AnyInverter, Noise, Settled, HeldOk;
    var n := 4096 - f.sinceInverter;
    FeedsNoise(f, n);
    SettlesNoise(Feed(f, Noise(n)));
    OtherTaken(Settled(Feed(f, Noise(n))), other);
  }

  lemma {:induction false} SettlesNoise(g: Frame)
    requires g.phase == Hunt && 0 < |g.buf| < INV_LEN && g.probe.None?
    ensures var i := Settled(g);
      && i.phase == Hunt && i.buf == [] && i.probe.None? && i.held == g.held && i.id == g.id
      && i.sinceInverter == g.sinceInverter && g.log <= i.log
  {}

  lemma {:induction false} OtherTaken(i: Frame, other: seq<byte>)
    requires i.phase == Hunt && i.buf == [] && i.probe.None? && i.held == []
    requires Relearns(i, INV_LEN) && AnyInverter(other)
    ensures var h := Feed(i, other);
      && Probation(h) && GivesUpMidCycle(h, 1.0) && h.phase == AfterInverter
      && h.probe == Some(Ident(other[14], other[10])) && i.log <= h.log
  {
    AnyIsInverter(other);
    hide Feed, IsInverter, AnyInverter, CountFF;
    FeedsPacket(i, other);
    assert other[..INV_LEN] == other;
  }

  /** Then one quiet second, and a remote packet comes out that no inverter vouches
      for, although another one was known and confirmed before. */
  lemma {:induction false} OtherGetsOut(f: Frame, known: seq<byte>, other: seq<byte>)
    requires Withheld(f) && KnownAndIdle(f, known) && f.sinceInverter + INV_LEN <= 4096
    requires AnyInverter(other)
    ensures var i := Idle(OtherArrives(f, other), 1.0);
      && i.id.None? && i.probe.None? && Confirmed(i.log)
      && Feed(i, REMOTE).log == i.log + [Packet(Remote, REMOTE)] && Leaks(Feed(i, REMOTE))
  {
    hide Feed, AnyInverter, Idle, Confirmed, Leaks, OtherArrives;
    var h := OtherArrives(f, other);
    OtherOnProbation(f, known, other);
    var more := IdleLogs(h, 1.0);
    assert h.log == f.log + h.log[|f.log|..];
    ConfirmedStays(f.log, h.log[|f.log|..]);
    ConfirmedStays(h.log, more);
    GivenUpGetsOut(h, 1.0);
  }

  /** The sample's packet with another model's number. */
  const OTHER: seq<byte> := SAMPLE[14 := 0x14]

  /** From the initial state: two cycles of the sample's inverter, then that. */
  lemma {:induction false} OtherGetsOutIsReached()
    ensures var f := FeedAll(INIT, [SAMPLE, REMOTE, REPLY, SAMPLE, REMOTE, REPLY]);
      f.sinceInverter + INV_LEN <= 4096 &&
      var i := Idle(OtherArrives(f, OTHER), 1.0);
      && i.id.None? && i.probe.None? && Confirmed(i.log)
      && Feed(i, REMOTE).log == i.log + [Packet(Remote, REMOTE)] && Leaks(Feed(i, REMOTE))
  {
    hide FeedAll, Feed, Idle, OtherArrives, Confirmed, Leaks, Withheld, Cycles, Sound, Accounts, CountFF;
    var cycles := [SAMPLE, REMOTE, REPLY, SAMPLE, REMOTE, REPLY];
    KnownAndIdleIsReached();
    EveryRunIsFaithful(cycles);
    OtherIsInverter();
    OtherGetsOut(FeedAll(INIT, cycles), SAMPLE, OTHER);
  }

  lemma {:induction false} OtherIsInverter()
    ensures AnyInverter(OTHER) && OTHER[14] != SAMPLE[14]
  {}

  // ----- Every run of feeds and idle calls -----

  lemma {:induction false} SettleCounts(g: Frame)
    requires Counted(g)
    ensures Counted(Settle(g))
  {
    CountSnoc(g.log, Packet(Unknown, g.buf));
  }

  lemma {:induction false} IdleCounts(f: Frame, quiet: real)
    requires Counted(f)
    ensures Counted(Idle(f, quiet))
  {
    hide Settle, HeldDrop, Kinds, UnknownBytes;
    DropCounts(f);
    var g := GiveUp(f, quiet);
    SettleCounts(if g.phase != Hunt then Bad(g) else g);
  }

  lemma {:induction false} IdleKeepsProbation(f: Frame, quiet: real)
    requires Probation(f)
    ensures Probation(Idle(f, quiet))
  {}

  lemma {:induction false} IdleSound(f: Frame, quiet: real)
    requires Sound(f)
    ensures Sound(Idle(f, quiet))
    ensures |f.buf| <= INV_LEN ==> |Idle(f, quiet).buf| <= INV_LEN
  {
    assert |f.buf| <= INV_LEN ==> |Idle(f, quiet).buf| <= INV_LEN;
    hide Idle, Probation, Counted, HeldCycle, Vouches, Cycles, Shaped;
    IdleKeepsProbation(f, quiet);
    IdleCounts(f, quiet);
    IdleKeepsHeldCycle(f, quiet);
    IdleCyclesExactlyWhen(f, quiet, false);
    IdleShaped(f, quiet);
    var more := IdleLogs(f, quiet);
    MoreVouched(f, Idle(f, quiet), more);
  }

  /** What happens to a framer: bytes, or a call after so many seconds' quiet. */
  datatype Event = Heard(data: seq<byte>) | Quiet(seconds: real)

  function After(events: seq<Event>): (f: Frame)
    ensures |f.buf| <= INV_LEN
  {
    if events == [] then INIT
    else
      var f := After(events[..|events| - 1]);
      match events[|events| - 1]
      case Heard(data) => Feed(f, data)
      case Quiet(s) => Idle(f, s)
  }

  function HeardBytes(events: seq<Event>): seq<byte> {
    if events == [] then []
    else HeardBytes(events[..|events| - 1]) + if events[|events| - 1].Heard? then events[|events| - 1].data else []
  }

  /** However bytes and quiet alternate: packets are held exactly while probing,
      the counters are the sums over the log, every inverter packet is of an
      inverter that a pair of them confirmed, and every other packet comes right
      behind its cycle's inverter packet, delivered or given up. */
  lemma {:induction false} EveryRunIsSound(events: seq<Event>)
    ensures Sound(After(events))
    decreases |events|
  {
    hide Sound, Feed, Idle;
    if events == [] {
      InitFaithful();
    } else {
      var f := After(events[..|events| - 1]);
      EveryRunIsSound(events[..|events| - 1]);
      match events[|events| - 1]
      case Heard(data) => FeedSafe(f, data);
      case Quiet(s) => IdleSound(f, s);
    }
  }

  ghost predicate AlwaysSafe(events: seq<Event>)
    decreases |events|
  {
    Safe(After(events)) && (events != [] ==> AlwaysSafe(events[..|events| - 1]))
  }

  /** No idle call of the run gives a candidate up in mid-cycle. */
  predicate NeverGivesUpMidCycle(events: seq<Event>)
    decreases |events|
  {
    events == [] ||
    var init, last := events[..|events| - 1], events[|events| - 1];
    NeverGivesUpMidCycle(init) && (last.Quiet? ==> !GivesUpMidCycle(After(init), last.seconds))
  }

  predicate NeverOvertakes(events: seq<Event>)
    decreases |events|
  {
    events == [] ||
    var init, last := events[..|events| - 1], events[|events| - 1];
    NeverOvertakes(init) && (last.Quiet? ==> !Overtaking(After(init), last.seconds))
  }

  /** A run is safe all along if and only if it never does that. */
  lemma {:induction false} RunIsSafeExactlyWhen(events: seq<Event>)
    ensures AlwaysSafe(events) <==> NeverGivesUpMidCycle(events)
    decreases |events|
  {
    hide Sound, Safe, Feed, Idle, GivesUpMidCycle;
    if events == [] {
      InitFaithful();
    } else {
      var init, last := events[..|events| - 1], events[|events| - 1];
      var f := After(init);
      RunIsSafeExactlyWhen(init);
      EveryRunIsSound(init);
      SoundIsProbation(f);
      if AlwaysSafe(init) {
        match last
        case Heard(data) => FeedSafe(f, data);
        case Quiet(s) => IdleIsSafeExactlyWhen(f, s);
      }
    }
  }

  /** A run whose idle calls never overtake a held packet keeps stream order and
      the byte counts, whether or not it is safe. */
  lemma {:induction false} QuietRunIsOrdered(events: seq<Event>)
    requires NeverOvertakes(events)
    ensures Ordered(After(events), HeardBytes(events))
    decreases |events|
  {
    hide Feed, Idle, Ordered, Overtaking, Safe;
    if events == [] {
      InitFaithful();
    } else {
      var init, last := events[..|events| - 1], events[|events| - 1];
      var f := After(init);
      QuietRunIsOrdered(init);
      match last
      case Heard(data) => FeedOrdered(f, data, HeardBytes(init));
      case Quiet(s) =>
        IdleOrdered(f, s, HeardBytes(init));
        assert HeardBytes(init) + [] == HeardBytes(init);
    }
  }

  /** And one that does neither is as faithful to its input as a run of feeds. */
  lemma {:induction false} QuietRunIsFaithful(events: seq<Event>)
    requires NeverGivesUpMidCycle(events) && NeverOvertakes(events)
    ensures Faithful(After(events), HeardBytes(events))
  {
    hide After, Ordered, Safe;
    QuietRunIsOrdered(events);
    RunIsSafeExactlyWhen(events);
  }

  lemma {:induction false} IdleOrdered(f: Frame, quiet: real, input: seq<byte>)
    requires Ordered(f, input) && !Overtaking(f, quiet)
    ensures Ordered(Idle(f, quiet), input)
  {
    hide Sound, Idle, Accounts, CountFF;
    SoundIsProbation(f);
    IdleSound(f, quiet);
    var gaps :| Accounts(f, input, gaps);
    IdleKeepsOrder(f, quiet, input, gaps);
    IdleSameFed(f, quiet);
  }

  lemma {:induction false} IdleSameFed(f: Frame, quiet: real)
    ensures Idle(f, quiet).bytesRead == f.bytesRead && Idle(f, quiet).ffBytes == f.ffBytes
  {}
}
