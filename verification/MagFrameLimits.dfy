/** Where the header's first promise stops: a relearn makes the result depend on
    how the input was cut. */
module MagFrameLimits {
  import opened Bytes
  import opened MagFrame
  import opened MagFrameReference
  import opened MagFrameRefinement
  import opened MagFrameStream
  import opened MagFrameWire

  // ----- Relearning -----

  const NOISE: byte := 0x55

  function Noise(n: nat): (s: seq<byte>)
    ensures |s| == n && forall i :: 0 <= i < n ==> s[i] == NOISE
  {
    seq(n, _ => NOISE)
  }

  /** Behind an inverter packet, noise is neither a packet nor a stray byte. */
  lemma {:induction false} NoiseIsSkipped(t: Tap, n: nat)
    requires t.phase == AfterInverter && t.buf == Noise(n) && n >= INV_LEN
    ensures TapRun(t) == SkipMany(BadTap(t), n - (INV_LEN - 1))
  {
    var u := BadTap(t);
    assert TapStep(t) == Some(u);
    forall j | 0 <= j < n - (INV_LEN - 1) ensures !StartsAt(u.id, u.buf, j) {
      assert u.buf[j..j + INV_LEN][20] == NOISE;
    }
    SkipManyRuns(u, n - (INV_LEN - 1));
    assert TapStep(SkipMany(u, n - (INV_LEN - 1))).None?;
  }

  predicate KnownAndIdle(f: Frame, packet: seq<byte>) {
    && Probation(f) && f.buf == [] && f.phase == Hunt
    && AnyInverter(packet) && f.id == Some(Ident(packet[14], packet[10]))
  }

  /** What taking an inverter packet leaves behind. */
  lemma {:induction false} TakeLeaves(t: Tap, packet: seq<byte>, n: nat)
    requires t.phase == Hunt && t.held == [] && t.probe.None? && n >= INV_LEN
    requires |packet| == INV_LEN && IsInverter(t.id, packet) && t.buf == packet + Noise(n)
    ensures TapStep(t) == Some(Take(t))
    ensures var u, p := Take(t), Packet(Inverter, packet);
      && u.phase == AfterInverter && u.buf == Noise(n)
      && (t.id.Some? ==> u.runs == t.runs + [p] && u.held == [])
      && (t.id.None? ==> u.runs == t.runs && u.held == [p])
  {
    assert t.buf[..INV_LEN] == packet && t.buf[INV_LEN..] == Noise(n);
  }

  lemma {:induction false} SkipsNothingTyped(t: Tap, n: nat)
    requires 0 < n <= |t.buf|
    ensures Typed(SkipMany(t, n).runs) == Typed(t.runs)
  {
    hide Typed, AddUnknown;
    UnknownIsNotTyped(t.runs, AllBytes(t.held));
    UnknownIsNotTyped(Abandon(t).runs, t.buf[..n]);
  }

  lemma {:induction false} TakeThenNoise(t: Tap, packet: seq<byte>, n: nat)
    requires t.phase == Hunt && t.held == [] && t.probe.None? && n >= INV_LEN
    requires |packet| == INV_LEN && IsInverter(t.id, packet)
    requires t.buf == packet + Noise(n)
    ensures t.id.Some? ==> Typed(TapRun(t).runs) == Typed(t.runs) + [Packet(Inverter, packet)]
    ensures t.id.None? ==> Typed(TapRun(t).runs) == Typed(t.runs)
  {
    hide Typed, TapStep, Take, SkipMany, IsInverter;
    TakeLeaves(t, packet, n);
    var u := Take(t);
    assert TapRun(t) == TapRun(u);
    NoiseIsSkipped(u, n);
    SkipsNothingTyped(BadTap(u), n - (INV_LEN - 1));
    if t.id.Some? {
      LastOf(t.runs, Packet(Inverter, packet));
    }
  }

  lemma {:induction false} UnknownIsNotTyped(runs: seq<Packet>, b: seq<byte>)
    ensures Typed(AddUnknown(runs, b)) == Typed(runs)
  {
    var r := AddUnknown(runs, b);
    if b != [] && runs != [] && runs[|runs| - 1].kind == Unknown {
      assert r[..|r| - 1] == runs[..|runs| - 1];
    } else if b != [] {
      assert r[..|r| - 1] == runs;
    }
  }

  lemma {:induction false} FeedIsARun(f: Frame, data: seq<byte>)
    requires Probation(f) && |f.buf| <= INV_LEN && data != []
    ensures Abs(Feed(f, data)) == TapRun(Extend(Abs(FeedStart(f, data)), data))
    ensures Typed(Feed(f, data).log) == Typed(TapRun(Extend(Abs(FeedStart(f, data)), data)).runs)
    ensures Probation(Feed(f, data))
  {
    FeedLoopRefines(FeedStart(f, data), data);
    MergeMeaning(Feed(f, data).log);
  }

  /** "A stalled reader changes nothing" fails when the chunk a stall builds up
      sets off the relearn: a packet of the known inverter followed by noise is
      delivered when the two are read apart, and lost when read together. */
  lemma {:induction false} RelearnDependsOnTheCut(f: Frame, packet: seq<byte>, n: nat)
    requires KnownAndIdle(f, packet) && INV_LEN <= n && f.sinceInverter + INV_LEN <= 4096
    requires f.sinceInverter + INV_LEN + n > 4096
    ensures Typed(FeedAll(f, [packet + Noise(n)]).log) == Typed(f.log)
    ensures Typed(FeedAll(f, [packet, Noise(n)]).log) == Typed(f.log) + [Packet(Inverter, packet)]
  {
    hide Typed, Feed;
    ReadTogether(f, packet, n);
    ReadApart(f, packet, n);
    OneFeed(f, packet + Noise(n));
    TwoFeeds(f, packet, Noise(n));
  }

  /** For this input the two cuts agree if and only if no relearn fires. */
  lemma {:induction false} CutsAgreeExactlyWhen(f: Frame, packet: seq<byte>, n: nat)
    requires KnownAndIdle(f, packet) && INV_LEN <= n && f.sinceInverter + INV_LEN <= 4096
    ensures Merge(FeedAll(f, [packet + Noise(n)]).log) == Merge(FeedAll(f, [packet, Noise(n)]).log)
       <==> f.sinceInverter + INV_LEN + n <= 4096
  {
    hide Typed, Feed, FeedAll, Merge, Process;
    var one, two := [packet + Noise(n)], [packet, Noise(n)];
    MergeMeaning(FeedAll(f, one).log);
    MergeMeaning(FeedAll(f, two).log);
    if f.sinceInverter + INV_LEN + n > 4096 {
      RelearnDependsOnTheCut(f, packet, n);
    } else {
      NoRelearnHere(f, packet, n);
      assert Flatten(one) == Flatten(two) by { SameBytes(packet, Noise(n)); }
      ChunkIndependence(f, one, two);
    }
  }

  lemma {:induction false} SameBytes(a: seq<byte>, b: seq<byte>)
    ensures Flatten([a + b]) == Flatten([a, b])
  {
    assert [a + b][1..] == [] && [a, b][1..] == [b] && [b][1..] == [];
  }

  lemma {:induction false} NoRelearnHere(f: Frame, packet: seq<byte>, n: nat)
    requires KnownAndIdle(f, packet) && INV_LEN <= n && f.sinceInverter + INV_LEN + n <= 4096
    ensures NoRelearn(f, [packet + Noise(n)]) && NoRelearn(f, [packet, Noise(n)])
  {
    hide Feed;
    TakesKnown(f, packet);
    var one, two := [packet + Noise(n)], [packet, Noise(n)];
    assert one[..0] == [] && two[..1] == [packet] && [packet][..0] == [];
    OneFeed(f, packet);
    assert NoRelearn(f, []);
    assert NoRelearn(f, [packet]);
  }

  lemma {:induction false} OneFeed(f: Frame, a: seq<byte>)
    requires |f.buf| <= INV_LEN
    ensures FeedAll(f, [a]) == Feed(f, a)
  {
    hide Feed;
    assert [a][..0] == [];
  }

  lemma {:induction false} TwoFeeds(f: Frame, a: seq<byte>, b: seq<byte>)
    requires |f.buf| <= INV_LEN
    ensures FeedAll(f, [a, b]) == Feed(Feed(f, a), b)
  {
    hide Feed;
    assert [a, b][..1] == [a];
    OneFeed(f, a);
  }

  lemma {:induction false} ReadTogether(f: Frame, packet: seq<byte>, n: nat)
    requires KnownAndIdle(f, packet) && INV_LEN <= n && f.sinceInverter + INV_LEN + n > 4096
    ensures Typed(Feed(f, packet + Noise(n)).log) == Typed(f.log)
  {
    hide Typed, Feed, TapRun;
    var t := Extend(Abs(FeedStart(f, packet + Noise(n))), packet + Noise(n));
    FeedIsARun(f, packet + Noise(n));
    TakeThenNoise(t, packet, n);
    MergeMeaning(f.log);
  }

  lemma {:induction false} ReadApart(f: Frame, packet: seq<byte>, n: nat)
    requires KnownAndIdle(f, packet) && INV_LEN <= n && f.sinceInverter + INV_LEN <= 4096
    ensures Typed(Feed(Feed(f, packet), Noise(n)).log) == Typed(f.log) + [Packet(Inverter, packet)]
  {
    hide Typed, Feed;
    TakesKnown(f, packet);
    NoiseAddsNothing(Feed(f, packet), n);
  }

  /** Behind a packet, with nothing held, noise gives no typed packet. */
  lemma {:induction false} NoiseAddsNothing(g: Frame, n: nat)
    requires g.buf == [] && g.phase == AfterInverter && g.probe == None && g.held == [] && INV_LEN <= n
    ensures Typed(Feed(g, Noise(n)).log) == Typed(g.log)
  {
    hide Typed, Feed, TapRun, SkipMany, Merge;
    FeedIsARun(g, Noise(n));
    var u := Extend(Abs(FeedStart(g, Noise(n))), Noise(n));
    assert u.buf == Noise(n);
    NoiseIsSkipped(u, n);
    SkipsNothingTyped(BadTap(u), n - (INV_LEN - 1));
    MergeMeaning(g.log);
  }

  /** A whole inverter packet in an empty buffer is taken at once. */
  lemma {:induction false} TakesPacket(f: Frame, packet: seq<byte>)
    requires |packet| == INV_LEN && IsInverter(f.id, packet) && f.phase == Hunt && f.buf == packet
    ensures Process(f) == Accept(f).(buf := [])
  {
    assert packet[0..INV_LEN] == packet && packet[INV_LEN..] == [];
    assert StartsAt(f.id, f.buf, 0);
    assert Step(f) == Some(Accept(f).(buf := []));
    assert Step(Accept(f).(buf := [])).None?;
  }

  /** Whether it is an inverter's depends on what is known after the relearn. */
  lemma {:induction false} FeedsPacket(f: Frame, packet: seq<byte>)
    requires |packet| == INV_LEN && IsInverter(FeedStart(f, packet).id, packet) && f.phase == Hunt && f.buf == []
    ensures Feed(f, packet) == Accept(FeedStart(f, packet).(buf := packet)).(buf := [])
  {
    hide Process, Accept, IsInverter;
    var s := FeedStart(f, packet);
    var b := s.(buf := packet);
    assert packet[..INV_LEN] == packet && packet[INV_LEN..] == [];
    assert s.(buf := s.buf + packet[..INV_LEN]) == b;
    TakesPacket(b, packet);
    assert FeedLoop(Process(b), []) == Process(b);
    assert FeedLoop(s, packet) == FeedLoop(Process(b), packet[INV_LEN..]);
  }

  lemma {:induction false} TakesKnown(f: Frame, packet: seq<byte>)
    requires KnownAndIdle(f, packet) && f.sinceInverter + INV_LEN <= 4096
    ensures var g := Feed(f, packet);
      && Probation(g) && g.buf == [] && g.phase == AfterInverter && g.sinceInverter == 0 && g.probe.None?
      && g.id == f.id && Typed(g.log) == Typed(f.log) + [Packet(Inverter, packet)]
  {
    FeedsPacket(f, packet);
    assert packet[..INV_LEN] == packet;
    LastOf(f.log, Packet(Inverter, packet));
  }

  // ----- Such a state is reached -----

  /** An inverter packet: its model is known, everything else is zero. */
  const SAMPLE: seq<byte> := [0, 0, 0, 0, 0, 0, 0, 0, 0, 0, 0, 0, 0, 0, 0x0F, 0, 0, 0, 0, 0, 0]

  /** A remote packet that is nothing else. */
  const REMOTE: seq<byte> := [0, 0, 0, 0, 0, 0, 0, 0, 0, 0, 0, 0, 0, 0, 0, 0, 0, 0, 0, 0, 0x11]

  /** A reply of two bytes. */
  const REPLY: seq<byte> := [0x91, 0]

  /** What follows an inverter packet in a cycle, and how it is delivered. */
  function NextData(p: Phase): seq<byte> {
    if p == AfterInverter then REMOTE else REPLY
  }

  function NextPacket(p: Phase): Packet {
    Packet(if p == AfterInverter then Remote else Rtr91, NextData(p))
  }

  lemma {:induction false} RemoteStep(f: Frame)
    requires f.phase == AfterInverter && f.buf == REMOTE
    ensures Step(f) == Some(Emit(f, Packet(Remote, REMOTE)).(phase := AfterRemote, buf := []))
  {
    hide Emit, IsInverter;
    assert |REMOTE| == REMOTE_LEN && REMOTE[..REMOTE_LEN] == REMOTE && REMOTE[REMOTE_LEN..] == [];
    assert REMOTE[0] == 0 && REMOTE[20] == 0x11;
  }

  lemma {:induction false} ReplyStep(f: Frame)
    requires f.phase == AfterRemote && f.buf == REPLY
    ensures Step(f) == Some(Emit(f, Packet(Rtr91, REPLY)).(phase := Hunt, buf := []))
  {
    assert |REPLY| == 2 && REPLY[..2] == REPLY && REPLY[2..] == [] && REPLY[0] == 0x91;
    var h := f.(phase := Hunt);
    assert AfterRemoteStep(f) == (Emit(h, Packet(Rtr91, REPLY)), Used(2));
    hide IsInverter, HeldDrop;
  }

  lemma {:induction false} CycleStep(f: Frame)
    requires f.phase != Hunt && f.buf == NextData(f.phase)
    ensures Step(f) == Some(
      Emit(f, NextPacket(f.phase)).(phase := if f.phase == AfterInverter then AfterRemote else Hunt, buf := []))
  {
    hide Emit, Step;
    if f.phase == AfterInverter {
      RemoteStep(f);
    } else {
      ReplyStep(f);
    }
  }

  /** Fed behind an inverter packet, it is emitted at once. */
  lemma {:induction false} FeedsNext(f: Frame)
    requires f.phase != Hunt && f.buf == []
    ensures var s := FeedStart(f, NextData(f.phase));
      Feed(f, NextData(f.phase)) == Emit(s.(buf := NextData(f.phase)), NextPacket(f.phase)).(
        phase := if f.phase == AfterInverter then AfterRemote else Hunt, buf := [])
  {
    var data := NextData(f.phase);
    var s := FeedStart(f, data);
    var g := s.(buf := data);
    CycleStep(g);
    hide FeedStart, CountFF, Emit;
    assert |data| <= INV_LEN && [] + data[..|data|] == data && data[|data|..] == [];
    var h := Step(g).value;
    assert Step(h).None? && Process(h) == h;
    assert Process(g) == h;
    assert FeedLoop(s, data) == FeedLoop(h, []);
  }

  /** The rest of a cycle: held while a candidate is on probation, else delivered. */
  lemma {:induction false} RestOfCycle(f: Frame)
    requires f.phase == AfterInverter && f.buf == [] && f.sinceInverter == 0
    requires if f.probe.Some? then |f.held| == 1 else f.held == []
    ensures var g := Feed(Feed(f, REMOTE), REPLY);
      && g.phase == Hunt && g.buf == [] && g.sinceInverter == 23 && g.synced == f.synced
      && g.id == f.id && g.probe == f.probe
      && g.held == if f.probe.Some? then f.held + [Packet(Remote, REMOTE)] + [Packet(Rtr91, REPLY)] else []
  {
    hide Feed, CountFF;
    SampleIsInverter();
    FeedsNext(f);
    FeedsNext(Feed(f, REMOTE));
  }

  lemma {:induction false} FirstCycle()
    ensures var f := Feed(Feed(Feed(INIT, SAMPLE), REMOTE), REPLY);
      && f.phase == Hunt && f.buf == [] && f.synced && f.id.None? && f.probe == Some(IdentOf(SAMPLE))
  {
    hide Feed, CountFF, IsInverter;
    SampleIsInverter();
    FeedsPacket(INIT, SAMPLE);
    assert SAMPLE[..INV_LEN] == SAMPLE;
    RestOfCycle(Feed(INIT, SAMPLE));
  }

  lemma {:induction false} SecondCycle(f: Frame)
    requires f.phase == Hunt && f.buf == [] && f.synced && f.id.None? && f.probe == Some(IdentOf(SAMPLE))
    ensures var g := Feed(Feed(Feed(f, SAMPLE), REMOTE), REPLY);
      && g.phase == Hunt && g.buf == [] && g.sinceInverter == 23 && g.id == f.probe && g.probe.None? && g.held == []
  {
    hide Feed, CountFF, IsInverter, Kinds;
    SampleIsInverter();
    FeedsPacket(f, SAMPLE);
    assert SAMPLE[..INV_LEN] == SAMPLE;
    RestOfCycle(Feed(f, SAMPLE));
  }

  /** Two cycles leave the sample's inverter known and the framer between cycles. */
  lemma {:induction false} KnownAndIdleIsReached()
    ensures var f := FeedAll(INIT, [SAMPLE, REMOTE, REPLY, SAMPLE, REMOTE, REPLY]);
      KnownAndIdle(f, SAMPLE) && f.sinceInverter + INV_LEN <= 4096
  {
    hide Feed, IsInverter, InverterShape;
    FirstCycle();
    SecondCycle(Feed(Feed(Feed(INIT, SAMPLE), REMOTE), REPLY));
    SixFeeds(INIT, SAMPLE, REMOTE, REPLY);
    SampleIsInverter();
  }

  lemma {:induction false} SampleIsInverter()
    ensures |SAMPLE| == INV_LEN && IsInverter(None, SAMPLE) && InverterShape(SAMPLE) && IdentAccepted(None, SAMPLE)
    ensures |REMOTE| == INV_LEN && |REPLY| == 2
  {}

  lemma {:induction false} SixFeeds(f: Frame, a: seq<byte>, b: seq<byte>, c: seq<byte>)
    requires |f.buf| <= INV_LEN
    ensures FeedAll(f, [a, b, c, a, b, c]) == Feed(Feed(Feed(Feed(Feed(Feed(f, a), b), c), a), b), c)
  {
    hide Feed;
    TwoFeeds(f, a, b);
    assert [a, b, c][..2] == [a, b] && [a, b, c, a][..3] == [a, b, c];
    assert [a, b, c, a, b][..4] == [a, b, c, a] && [a, b, c, a, b, c][..5] == [a, b, c, a, b];
    assert FeedAll(f, [a, b, c]) == Feed(FeedAll(f, [a, b]), c);
    assert FeedAll(f, [a, b, c, a]) == Feed(FeedAll(f, [a, b, c]), a);
    assert FeedAll(f, [a, b, c, a, b]) == Feed(FeedAll(f, [a, b, c, a]), b);
  }
}
