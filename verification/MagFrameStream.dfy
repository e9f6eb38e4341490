/** What holds after every run of feeds: the framer's output is the input cut
    into slices in stream order, its counters are sums over its output, and no
    typed packet comes out but in the cycle of an inverter seen twice in step. */
module MagFrameStream {
  import opened Bytes
  import opened MagFrame
  import opened MagFrameMoves
  import opened MagFrameRefinement
  import opened MagFrameIdentity
  import opened MagFrameCycles
  import opened MagFrameKinds
  import opened MagFrameWire

  // ----- The input, cut up -----

  /** Everything taken from the stream: delivered first, then held. */
  function Outs(f: Frame): seq<Packet> {
    f.log + f.held
  }

  /** The stream that these packets and these gaps after them come from. */
  function Weave(outs: seq<Packet>, gaps: seq<seq<byte>>): seq<byte>
    requires |gaps| == |outs|
  {
    if outs == [] then []
    else
      var n := |outs| - 1;
      Weave(outs[..n], gaps[..n]) + outs[n].bytes + gaps[n]
  }

  /** Only turnaround bytes are lost, and only behind an inverter packet. */
  predicate GapsOk(outs: seq<Packet>, gaps: seq<seq<byte>>) {
    && |gaps| == |outs|
    && forall k :: 0 <= k < |gaps| && gaps[k] != [] ==>
         InverterBytes(outs[k].bytes) && forall i :: 0 <= i < |gaps[k]| ==> LineRelease(gaps[k][i])
  }

  predicate BehindInverter(f: Frame) {
    f.phase == AfterInverter ==> Outs(f) != [] && InverterBytes(Outs(f)[|Outs(f)| - 1].bytes)
  }

  ghost predicate Accounts(f: Frame, input: seq<byte>, gaps: seq<seq<byte>>) {
    && GapsOk(Outs(f), gaps)
    && Weave(Outs(f), gaps) + f.buf == input
    && BehindInverter(f)
  }

  lemma {:induction false} WeaveSnoc(outs: seq<Packet>, gaps: seq<seq<byte>>, p: Packet, g: seq<byte>)
    requires |gaps| == |outs|
    ensures Weave(outs + [p], gaps + [g]) == Weave(outs, gaps) + p.bytes + g
  {
    assert (outs + [p])[..|outs|] == outs && (gaps + [g])[..|gaps|] == gaps;
  }

  /** The kinds do not matter to what stream packets come from. */
  lemma {:induction false} WeaveBytes(a: seq<Packet>, b: seq<Packet>, gaps: seq<seq<byte>>)
    requires |a| == |b| == |gaps|
    requires forall i :: 0 <= i < |a| ==> a[i].bytes == b[i].bytes
    ensures Weave(a, gaps) == Weave(b, gaps)
  {
    if a != [] {
      var n := |a| - 1;
      WeaveBytes(a[..n], b[..n], gaps[..n]);
    }
  }

  lemma {:induction false} SameBytesAccounts(f: Frame, g: Frame, input: seq<byte>, gaps: seq<seq<byte>>)
    requires Accounts(f, input, gaps) && g.buf == f.buf && BehindInverter(g)
    requires |Outs(g)| == |Outs(f)|
    requires forall i :: 0 <= i < |Outs(f)| ==> Outs(g)[i].bytes == Outs(f)[i].bytes
    ensures Accounts(g, input, gaps)
  {
    WeaveBytes(Outs(f), Outs(g), gaps);
  }

  /** A packet cut from the front of the buffer is the next slice. */
  lemma {:induction false} EmitAccounts(f: Frame, kind: Kind, n: nat, g: Frame, input: seq<byte>, gaps: seq<seq<byte>>)
    requires Accounts(f, input, gaps) && n <= |f.buf|
    requires Outs(g) == Outs(f) + [Packet(kind, f.buf[..n])] && g.buf == f.buf[n..]
    requires BehindInverter(g)
    ensures Accounts(g, input, gaps + [[]])
  {
    var p := Packet(kind, f.buf[..n]);
    WeaveSnoc(Outs(f), gaps, p, []);
    assert Weave(Outs(f), gaps) + p.bytes + [] + g.buf == Weave(Outs(f), gaps) + (f.buf[..n] + f.buf[n..]);
    assert f.buf[..n] + f.buf[n..] == f.buf;
    var more := gaps + [[]];
    forall k | 0 <= k < |more| && more[k] != []
      ensures InverterBytes(Outs(g)[k].bytes) && forall i :: 0 <= i < |more[k]| ==> LineRelease(more[k][i])
    {
      assert more[k] == gaps[k];
    }
  }

  lemma {:induction false} WeaveWider(outs: seq<Packet>, gaps: seq<seq<byte>>, more: seq<byte>)
    requires |gaps| == |outs| > 0
    ensures var n := |outs| - 1; Weave(outs, gaps[..n] + [gaps[n] + more]) == Weave(outs, gaps) + more
  {
    var n := |outs| - 1;
    assert outs == outs[..n] + [outs[n]] && gaps == gaps[..n] + [gaps[n]];
    hide Weave;
    WeaveSnoc(outs[..n], gaps[..n], outs[n], gaps[n]);
    WeaveSnoc(outs[..n], gaps[..n], outs[n], gaps[n] + more);
  }

  /** A stray byte widens the gap behind the inverter packet. */
  lemma {:induction false} StrayAccounts(f: Frame, input: seq<byte>, gaps: seq<seq<byte>>)
    returns (wider: seq<seq<byte>>)
    requires Accounts(f, input, gaps) && f.phase == AfterInverter
    requires f.buf != [] && LineRelease(f.buf[0])
    ensures Accounts(f.(buf := f.buf[1..]), input, wider)
  {
    var outs, n := Outs(f), |Outs(f)| - 1;
    wider := gaps[..n] + [gaps[n] + f.buf[..1]];
    WeaveWider(outs, gaps, f.buf[..1]);
    assert f.buf[..1] + f.buf[1..] == f.buf;
    hide Weave;
    assert Weave(outs, wider) + f.buf[1..] == Weave(outs, gaps) + (f.buf[..1] + f.buf[1..]);
    forall k | 0 <= k < |wider| && wider[k] != []
      ensures InverterBytes(outs[k].bytes) && forall i :: 0 <= i < |wider[k]| ==> LineRelease(wider[k][i])
    {
      if k < n {
        assert wider[k] == gaps[k];
      }
    }
  }

  lemma {:induction false} DropAccounts(f: Frame, input: seq<byte>, gaps: seq<seq<byte>>)
    requires Accounts(f, input, gaps)
    ensures Accounts(HeldDrop(f), input, gaps)
  {
    SameBytesAccounts(f, HeldDrop(f), input, gaps);
  }

  lemma {:induction false} SkipAccounts(f: Frame, n: nat, input: seq<byte>, gaps: seq<seq<byte>>)
    requires Probation(f) && Accounts(f, input, gaps) && f.phase == Hunt && 0 < n <= |f.buf|
    ensures Accounts(Skip(f, n).(buf := f.buf[n..]), input, gaps + [[]])
  {
    DropAccounts(f, input, gaps);
    var g := if f.probe.Some? then HeldDrop(f) else f;
    assert Accounts(g, input, gaps);
    EmitAccounts(g, Unknown, n, Skip(f, n).(buf := f.buf[n..]), input, gaps);
  }

  lemma {:induction false} JudgeAccounts(f: Frame, input: seq<byte>, gaps: seq<seq<byte>>)
    requires Accounts(f, input, gaps) && f.phase == Hunt && INV_LEN <= |f.buf|
    ensures Accounts(Judge(f), input, gaps)
  {
    SameBytesAccounts(f, Judge(f), input, gaps);
  }

  lemma {:induction false} AcceptAccounts(f: Frame, input: seq<byte>, gaps: seq<seq<byte>>)
    requires Probation(f) && Accounts(f, input, gaps) && f.phase == Hunt
    requires INV_LEN <= |f.buf| && InverterBytes(f.buf[..INV_LEN])
    ensures Accounts(Accept(f).(buf := f.buf[INV_LEN..]), input, gaps + [[]])
  {
    JudgeAccounts(f, input, gaps);
    JudgeKeepsProbation(f);
    hide Accounts, Judge, Emit, InverterBytes;
    EmitAccounts(Judge(f), Inverter, INV_LEN, Accept(f).(buf := f.buf[INV_LEN..]), input, gaps);
  }

  lemma {:induction false} MoveAccounts(f: Frame, m: Move, input: seq<byte>, gaps: seq<seq<byte>>)
    returns (next: seq<seq<byte>>)
    requires Probation(f) && Accounts(f, input, gaps) && Legal(f, m)
    ensures Accounts(Apply(f, m), input, next)
  {
    next := gaps + [[]];
    match m {
      case Skipped(n) => SkipAccounts(f, n, input, gaps);
      case Took =>
        InverterOfShape(f);
        AcceptAccounts(f, input, gaps);
      case Dismissed(_) =>
        next := gaps;
        SameBytesAccounts(f, Apply(f, m), input, gaps);
      case Stray => next := StrayAccounts(f, input, gaps);
      case Followed(kind, n) => EmitAccounts(f, kind, n, Apply(f, m), input, gaps);
    }
  }

  lemma {:induction false} ProcessAccounts(f: Frame, input: seq<byte>, gaps: seq<seq<byte>>)
    returns (last: seq<seq<byte>>)
    requires Probation(f) && Accounts(f, input, gaps)
    ensures Accounts(Process(f), input, last)
    decreases |f.buf|, PhaseRank(f.phase)
  {
    last := gaps;
    if Step(f).Some? {
      var m := StepIsAMove(f);
      var next := MoveAccounts(f, m, input, gaps);
      MoveKeepsProbation(f, m);
      last := ProcessAccounts(Apply(f, m), input, next);
    }
  }

  // ----- Counters -----

  /** Bytes delivered as unknown. */
  function UnknownBytes(ps: seq<Packet>): nat {
    if ps == [] then 0
    else
      var p := ps[|ps| - 1];
      UnknownBytes(ps[..|ps| - 1]) + if p.kind == Unknown then |p.bytes| else 0
  }

  predicate Counted(f: Frame) {
    f.stats.packets == Kinds(f.log) && f.stats.unknown == UnknownBytes(f.log)
  }

  lemma {:induction false} CountSnoc(log: seq<Packet>, p: Packet)
    ensures Kinds(log + [p]) == Kinds(log) + KindOf(p)
    ensures UnknownBytes(log + [p]) == UnknownBytes(log) + if p.kind == Unknown then |p.bytes| else 0
  {
    assert (log + [p])[..|log|] == log;
  }

  lemma {:induction false} CountTyped(log: seq<Packet>, ps: seq<Packet>)
    requires HeldOk(ps)
    ensures Kinds(log + ps) == Kinds(log) + Kinds(ps)
    ensures UnknownBytes(log + ps) == UnknownBytes(log)
  {
    if ps == [] {
      assert log + ps == log;
    } else {
      var init, p := ps[..|ps| - 1], ps[|ps| - 1];
      assert log + ps == (log + init) + [p];
      assert HeldOk(init) && p.kind != Unknown;
      CountTyped(log, init);
      CountSnoc(log + init, p);
      assert Kinds(ps) == Kinds(init) + KindOf(p);
    }
  }

  lemma {:induction false} CountDowngraded(log: seq<Packet>, ps: seq<Packet>)
    ensures Kinds(log + DowngradeAll(ps)) == Kinds(log)
    ensures UnknownBytes(log + DowngradeAll(ps)) == UnknownBytes(log) + |AllBytes(ps)|
  {
    if ps == [] {
      assert log + DowngradeAll(ps) == log;
    } else {
      var init, p := ps[..|ps| - 1], ps[|ps| - 1];
      assert DowngradeAll(ps) == DowngradeAll(init) + [Downgrade(p)];
      assert log + DowngradeAll(ps) == (log + DowngradeAll(init)) + [Downgrade(p)];
      CountDowngraded(log, init);
      CountSnoc(log + DowngradeAll(init), Downgrade(p));
    }
  }

  lemma {:induction false} DropCounts(f: Frame)
    requires Counted(f)
    ensures Counted(HeldDrop(f))
  {
    CountDowngraded(f.log, f.held);
  }

  lemma {:induction false} JudgeCounts(f: Frame)
    requires Probation(f) && Counted(f) && INV_LEN <= |f.buf|
    ensures Counted(Judge(f))
  {
    DropCounts(f);
    CountTyped(f.log, f.held);
    hide AllBytes, Kinds, UnknownBytes;
  }

  lemma {:induction false} EmitCounts(f: Frame, p: Packet)
    requires Counted(f) && p.kind != Unknown && |p.bytes| <= INV_LEN && |f.held| < HELD_MAX
    ensures Counted(Emit(f, p))
  {
    CountSnoc(f.log, p);
  }

  lemma {:induction false} AcceptCounts(f: Frame)
    requires Probation(f) && Counted(f) && f.phase == Hunt && INV_LEN <= |f.buf|
    ensures Counted(Accept(f))
  {
    JudgeCounts(f);
    assert |Judge(f).held| < HELD_MAX;
    hide Judge, Kinds, UnknownBytes;
    EmitCounts(Judge(f).(sinceInverter := 0, synced := true), Packet(Inverter, f.buf[..INV_LEN]));
  }

  lemma {:induction false} SkipCounts(f: Frame, n: nat)
    requires Probation(f) && Counted(f) && 0 < n <= |f.buf|
    ensures Counted(Skip(f, n))
  {
    DropCounts(f);
    var g := if f.probe.Some? then HeldDrop(f) else f;
    CountSnoc(g.log, Packet(Unknown, f.buf[..n]));
  }

  lemma {:induction false} MoveCounts(f: Frame, m: Move)
    requires Probation(f) && Counted(f) && Legal(f, m)
    ensures Counted(Apply(f, m))
  {
    match m
    case Skipped(n) => SkipCounts(f, n);
    case Took => AcceptCounts(f);
    case Dismissed(_) =>
    case Stray =>
    case Followed(kind, n) => EmitCounts(f, Packet(kind, f.buf[..n]));
  }

  // ----- Confirmation -----

  predicate AllUnknown(ps: seq<Packet>) {
    forall i :: 0 <= i < |ps| ==> ps[i].kind == Unknown
  }

  /** The first typed packet, at k, is an inverter's; the packet of the same
      inverter at j is at most a cycle later with nothing skipped between. */
  predicate ConfirmedAt(log: seq<Packet>, k: nat, j: nat) {
    PairAt(log, k, j) && AllUnknown(log[..k])
  }

  ghost predicate Confirmed(log: seq<Packet>) {
    exists k: nat, j: nat :: ConfirmedAt(log, k, j)
  }

  /** Until a pair confirms an inverter, nothing typed is out and none is known. */
  ghost predicate Withheld(f: Frame) {
    Confirmed(f.log) || (AllUnknown(f.log) && f.id.None?)
  }

  /** Besides, every packet that is out hangs on a delivered inverter packet. */
  ghost predicate Safe(f: Frame) {
    && HeldCycle(f) && Cycles(f, true)
    && Withheld(f)
  }

  lemma {:induction false} ConfirmedStays(log: seq<Packet>, more: seq<Packet>)
    requires Confirmed(log)
    ensures Confirmed(log + more)
  {
    var k: nat, j: nat :| ConfirmedAt(log, k, j);
    assert (log + more)[..k] == log[..k];
    assert ConfirmedAt(log + more, k, j);
  }

  /** The second packet in step confirms: what was held, then it. */
  lemma {:induction false} ConfirmingPair(log: seq<Packet>, held: seq<Packet>, p: Packet)
    requires AllUnknown(log) && HeldOk(held) && 0 < |held| <= 3
    requires held[0].kind == p.kind == Inverter && |held[0].bytes| == |p.bytes| == INV_LEN
    requires held[0].bytes[14] == p.bytes[14] && held[0].bytes[10] == p.bytes[10]
    requires forall i :: 0 < i < |held| ==> held[i].kind != Inverter
    ensures Confirmed(log + held + [p])
  {
    HeldPair(log, held, p);
    assert log + held + [p] == log + (held + [p]) && (log + (held + [p]))[..|log|] == log;
    assert ConfirmedAt(log + held + [p], |log|, |log| + |held|);
  }

  lemma {:induction false} AcceptWithheld(f: Frame)
    requires Probation(f) && HeldCycle(f) && Withheld(f) && f.phase == Hunt && INV_LEN <= |f.buf|
    requires !Confirmed(f.log)
    ensures Withheld(Accept(f))
  {
    var p := Packet(Inverter, f.buf[..INV_LEN]);
    if f.probe.Some? && f.probe.value == IdentOf(f.buf) {
      ConfirmingPair(f.log, f.held, p);
    }
  }

  /** Before anything is delivered, a packet is due only behind one on hold. */
  lemma {:induction false} NothingDue(f: Frame)
    requires Probation(f) && Cycles(f, true) && f.phase != Hunt
    ensures AllUnknown(f.log) ==> f.probe.Some?
  {
    hide InCycle, InverterBytes;
    if f.held == [] {
      assert f.log + f.held == f.log;
    }
  }

  lemma {:induction false} EmitGrows(f: Frame, p: Packet)
    ensures f.log <= Emit(f, p).log
  {}

  lemma {:induction false} DropGrows(f: Frame)
    ensures f.log <= HeldDrop(f).log
  {}

  lemma {:induction false} LogOnlyGrows(f: Frame, m: Move)
    requires Legal(f, m)
    ensures f.log <= Apply(f, m).log
  {
    hide Emit, HeldDrop, IsInverter, Kinds, LineRelease;
    DropGrows(f);
    match m
    case Skipped(n) =>
      var g := if f.probe.Some? then HeldDrop(f) else f;
      EmitGrows(g.(stats := g.stats.(unknown := g.stats.unknown + n)), Packet(Unknown, f.buf[..n]));
    case Took =>
      EmitGrows(Judge(f).(sinceInverter := 0, synced := true), Packet(Inverter, f.buf[..INV_LEN]));
    case Followed(kind, n) =>
      EmitGrows(f, Packet(kind, f.buf[..n]));
    case _ =>
  }

  lemma {:induction false} MoveWithheld(f: Frame, m: Move)
    requires Probation(f) && HeldCycle(f) && Cycles(f, true) && Withheld(f) && Legal(f, m)
    ensures Withheld(Apply(f, m))
  {
    hide HeldCycle, IsInverter, Kinds, Cycles;
    var log := Apply(f, m).log;
    if Confirmed(f.log) {
      LogOnlyGrows(f, m);
      assert log == f.log + log[|f.log|..];
      ConfirmedStays(f.log, log[|f.log|..]);
    } else if m == Took {
      AcceptWithheld(f);
    } else if m.Followed? {
      NothingDue(f);
    }
  }

  lemma {:induction false} MoveSafe(f: Frame, m: Move)
    requires Probation(f) && Safe(f) && Legal(f, m)
    ensures Safe(Apply(f, m))
  {
    hide HeldCycle, Cycles, Confirmed, Apply, Probation, AllUnknown;
    MoveKeepsHeldCycle(f, m);
    MoveCycles(f, m, true);
    MoveWithheld(f, m);
  }

  // ----- Every run of feeds -----

  /** What holds however a run went: probation, the counters, whose inverter
      packets came out, that the others came out behind one, and that each is of its
      kind. */
  ghost predicate Sound(f: Frame) {
    Probation(f) && Counted(f) && HeldCycle(f) && Vouches(f) && Cycles(f, false) && Shaped(f)
  }

  /** The input, in order. */
  ghost predicate Ordered(f: Frame, input: seq<byte>) {
    && Sound(f)
    && f.bytesRead == |input| && f.ffBytes == CountFF(input)
    && |f.buf| <= INV_LEN
    && exists gaps :: Accounts(f, input, gaps)
  }

  /** Everything this module proves, of a framer that has read `input`. */
  ghost predicate Faithful(f: Frame, input: seq<byte>) {
    Ordered(f, input) && Safe(f)
  }

  lemma {:induction false} MoveSound(f: Frame, m: Move)
    requires Sound(f) && Legal(f, m)
    ensures Sound(Apply(f, m))
  {
    hide Probation, Counted, Vouches, Apply, HeldCycle, Cycles, Shaped;
    MoveKeepsProbation(f, m);
    MoveCounts(f, m);
    MoveKeepsHeldCycle(f, m);
    MoveVouches(f, m);
    MoveCycles(f, m, false);
    MoveShaped(f, m);
  }

  lemma {:induction false} SoundIsProbation(f: Frame)
    requires Sound(f)
    ensures Probation(f) && HeldCycle(f) && Vouches(f) && Shaped(f)
  {}

  lemma {:induction false} ProcessSound(f: Frame)
    requires Sound(f)
    ensures Sound(Process(f)) && (Safe(f) ==> Safe(Process(f)))
    decreases |f.buf|, PhaseRank(f.phase)
  {
    hide Sound, Safe, Step, Apply;
    if Step(f).Some? {
      var m := StepIsAMove(f);
      SoundIsProbation(f);
      MoveSound(f, m);
      if Safe(f) {
        MoveSafe(f, m);
      }
      ProcessSound(Apply(f, m));
    }
  }

  lemma {:induction false} SameButBuffer(f: Frame, g: Frame)
    requires Sound(f) && g == f.(buf := g.buf)
    ensures Sound(g) && (Safe(f) ==> Safe(g))
  {
    hide Kinds, UnknownBytes, Vouched, Confirmed, InCycle, Due, AllOfKind, Model;
  }

  lemma {:induction false} FeedLoopSound(f: Frame, data: seq<byte>)
    requires Sound(f) && |f.buf| <= INV_LEN
    ensures Sound(FeedLoop(f, data)) && (Safe(f) ==> Safe(FeedLoop(f, data)))
    decreases |data|
  {
    hide Process, Sound, Safe;
    if data != [] {
      var take := Min(|data|, BUF_SIZE - |f.buf|);
      var g := f.(buf := f.buf + data[..take]);
      SameButBuffer(f, g);
      ProcessSound(g);
      FeedLoopSound(Process(g), data[take..]);
    }
  }

  lemma {:induction false} StartSound(f: Frame, data: seq<byte>)
    requires Sound(f)
    ensures Sound(FeedStart(f, data)) && (Safe(f) ==> Safe(FeedStart(f, data)))
    ensures FeedStart(f, data).buf == f.buf
  {
    hide Kinds, UnknownBytes, Vouched, Confirmed, CountFF, InCycle, Due, AllOfKind, Model;
  }

  /** A feed keeps what is safe, relearn or not. */
  lemma {:induction false} FeedSafe(f: Frame, data: seq<byte>)
    requires Sound(f) && |f.buf| <= INV_LEN
    ensures Sound(Feed(f, data)) && (Safe(f) ==> Safe(Feed(f, data)))
  {
    hide FeedLoop, FeedStart, Sound, Safe;
    if data != [] {
      StartSound(f, data);
      FeedLoopSound(FeedStart(f, data), data);
    }
  }

  /** Ordered, with the gaps named and the feed's own counters left out. */
  ghost predicate Keeps(f: Frame, input: seq<byte>, gaps: seq<seq<byte>>) {
    Sound(f) && Accounts(f, input, gaps)
  }

  lemma {:induction false} PieceKeeps(f: Frame, piece: seq<byte>, input: seq<byte>, gaps: seq<seq<byte>>)
    returns (next: seq<seq<byte>>)
    requires Keeps(f, input, gaps)
    ensures Keeps(Process(f.(buf := f.buf + piece)), input + piece, next)
  {
    hide Process, Sound, Accounts;
    var g := f.(buf := f.buf + piece);
    MoreInput(f, piece, input, gaps);
    SoundIsProbation(g);
    ProcessSound(g);
    next := ProcessAccounts(g, input + piece, gaps);
  }

  /** What arrives waits behind what is in the buffer. */
  lemma {:induction false} MoreInput(f: Frame, piece: seq<byte>, input: seq<byte>, gaps: seq<seq<byte>>)
    requires Keeps(f, input, gaps)
    ensures Keeps(f.(buf := f.buf + piece), input + piece, gaps)
  {
    hide Weave, Sound;
    SameButBuffer(f, f.(buf := f.buf + piece));
    assert Weave(Outs(f), gaps) + f.buf + piece == Weave(Outs(f), gaps) + (f.buf + piece);
  }

  lemma {:induction false} FeedLoopKeeps(f: Frame, data: seq<byte>, input: seq<byte>, gaps: seq<seq<byte>>)
    returns (last: seq<seq<byte>>)
    requires Keeps(f, input, gaps) && |f.buf| <= INV_LEN
    ensures Keeps(FeedLoop(f, data), input + data, last)
    decreases |data|
  {
    hide Process, Keeps;
    if data == [] {
      assert input + data == input;
      last := gaps;
    } else {
      var take := Min(|data|, BUF_SIZE - |f.buf|);
      var piece, rest := data[..take], data[take..];
      var next := PieceKeeps(f, piece, input, gaps);
      last := FeedLoopKeeps(Process(f.(buf := f.buf + piece)), rest, input + piece, next);
      assert input + piece + rest == input + data;
    }
  }

  lemma {:induction false} StartKeeps(f: Frame, data: seq<byte>, input: seq<byte>, gaps: seq<seq<byte>>)
    requires Keeps(f, input, gaps)
    ensures Keeps(FeedStart(f, data), input, gaps)
  {
    hide Weave, CountFF, Sound;
    StartSound(f, data);
  }

  lemma {:induction false} FeedOrdered(f: Frame, data: seq<byte>, input: seq<byte>)
    requires Ordered(f, input)
    ensures Ordered(Feed(f, data), input + data)
  {
    hide FeedLoop, Accounts, Sound, CountFF;
    if data == [] {
      assert input + data == input;
    } else {
      var gaps :| Accounts(f, input, gaps);
      StartKeeps(f, data, input, gaps);
      var last := FeedLoopKeeps(FeedStart(f, data), data, input, gaps);
      CountFFAppend(input, data);
    }
  }

  /** Main result: after every run of feeds from the initial state, however
      cut and whether or not it relearned, the input is the delivered slices,
      the held ones and the buffer in order with only turnaround bytes missing
      behind inverter packets; the counters are the sums over the log; nothing
      typed came out before an inverter was confirmed; every inverter packet
      is of an inverter that a pair of them confirmed; and every other packet
      hangs on the delivered inverter packet of its cycle. */
  lemma {:induction false} EveryRunIsFaithful(chunks: seq<seq<byte>>)
    ensures Faithful(FeedAll(INIT, chunks), Flatten(chunks))
    decreases |chunks|
  {
    hide Sound, Safe, Feed, Accounts;
    if chunks == [] {
      InitFaithful();
    } else {
      var init, last := chunks[..|chunks| - 1], chunks[|chunks| - 1];
      assert chunks == init + [last];
      EveryRunIsFaithful(init);
      FlattenSnoc(init, last);
      FeedOrdered(FeedAll(INIT, init), last, Flatten(init));
      FeedSafe(FeedAll(INIT, init), last);
    }
  }

  lemma {:induction false} InitFaithful()
    ensures Faithful(INIT, [])
  {
    assert Accounts(INIT, [], []);
  }

  /** A typed packet in the log means that its run holds the confirming pair. */
  lemma {:induction false} NothingTypedUnconfirmed(chunks: seq<seq<byte>>)
    ensures var log := FeedAll(INIT, chunks).log; AllUnknown(log) || Confirmed(log)
  {
    EveryRunIsFaithful(chunks);
  }

  /** The packet at i is of the cycle that the inverter packet at k begins. */
  predicate CycleOf(log: seq<Packet>, k: nat, i: nat) {
    && k <= i < |log| && i <= k + 2
    && log[k].kind == Inverter && |log[k].bytes| == INV_LEN
    && forall j :: k < j <= i ==> log[j].kind != Unknown && log[j].kind != Inverter
  }

  /** Every typed packet that is out is of the cycle of a confirmed inverter. */
  lemma {:induction false} TypedIsConfirmed(f: Frame, i: nat)
    requires Probation(f) && Vouches(f) && Cycles(f, true) && i < |f.log| && f.log[i].kind != Unknown
    ensures exists k: nat :: CycleOf(f.log, k, i) && Vouched(f.log, Ident(f.log[k].bytes[14], f.log[k].bytes[10]))
  {
    hide Vouched, InverterBytes;
    PrefixInCycle(f.log, f.held, true);
    assert Due(f.log[..i], Slot(f.log[i].kind), true);
    var k := if f.log[i].kind == Inverter then i else if f.log[i].kind == Remote then i - 1 else i - 2;
    assert f.log[k].kind == Inverter;
    assert Welcome(f.log, f.log[k]);
    assert CycleOf(f.log, k, i);
  }
}
