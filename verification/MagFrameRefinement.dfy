/** The framer refines the byte-at-a-time reference, so cutting its input
    differently changes neither its packets nor its state. */
module MagFrameRefinement {
  import opened Bytes
  import opened MagFrame
  import opened MagFrameMoves
  import opened MagFrameReference

  // ----- Probation -----

  /** How many packets a cycle can have put on hold by each phase. */
  function HeldBound(p: Phase): nat {
    match p
    case AfterInverter => 1
    case AfterRemote => 2
    case Hunt => 3
  }

  predicate HeldOk(held: seq<Packet>) {
    forall i :: 0 <= i < |held| ==> held[i].kind != Unknown && |held[i].bytes| <= INV_LEN
  }

  /** Packets are held exactly while a candidate is on probation, never more
      than one cycle's, and then the framer is in step and knows no inverter. */
  predicate Probation(f: Frame) {
    && (f.probe.Some? <==> f.held != [])
    && (f.probe.Some? ==> f.synced && f.id.None?)
    && |f.held| <= HeldBound(f.phase)
    && HeldOk(f.held)
  }

  lemma {:induction false} JudgeKeepsProbation(f: Frame)
    requires Probation(f) && f.phase == Hunt && INV_LEN <= |f.buf|
    ensures var g := Judge(f);
      && g.held == [] && (g.probe.Some? ==> g.id.None?)
      && g.phase == f.phase && g.buf == f.buf
  {}

  lemma {:induction false} MoveKeepsProbation(f: Frame, m: Move)
    requires Probation(f) && Legal(f, m)
    ensures Probation(Apply(f, m))
  {
    hide Judge, DowngradeAll, Kinds, AllBytes, IsInverter;
    if m.Took? {
      JudgeKeepsProbation(f);
    }
  }

  lemma {:induction false} StepKeepsProbation(f: Frame)
    requires Probation(f) && Step(f).Some?
    ensures Probation(Step(f).value)
  {
    var m := StepIsAMove(f);
    MoveKeepsProbation(f, m);
  }

  /** At most three packets are ever on hold, so emit's overflow branch is
      never taken: a typed packet on probation is always held. */
  lemma {:induction false} HeldNeverOverflows(f: Frame)
    requires Probation(f) && f.probe.Some?
    ensures f.phase != Hunt ==> |f.held| < 3
    ensures forall p: Packet :: f.phase != Hunt && p.kind != Unknown && |p.bytes| <= INV_LEN ==>
      Emit(f, p) == f.(held := f.held + [p])
  {}

  // ----- Refinement -----

  function Abs(f: Frame): Tap {
    Tap(f.buf, f.phase, f.synced, f.id, f.probe, f.held, f.stats, Merge(f.log))
  }

  function SkipMany(t: Tap, n: nat): Tap
    requires 0 < n <= |t.buf|
  {
    var g := Abandon(t);
    g.(buf := g.buf[n..], synced := false, runs := AddUnknown(g.runs, g.buf[..n]),
       stats := g.stats.(unknown := g.stats.unknown + n,
                         resyncs := g.stats.resyncs + if t.synced then 1 else 0))
  }

  lemma {:induction false} SkipOneMore(t: Tap, n: nat)
    requires 1 < n <= |t.buf|
    ensures SkipMany(t, n) == SkipMany(SkipByte(t), n - 1)
  {
    var g := Abandon(t);
    AddUnknownTwice(g.runs, t.buf[..1], t.buf[1..][..n - 1]);
    assert t.buf[..1] + t.buf[1..][..n - 1] == t.buf[..n];
    assert t.buf[1..][n - 1..] == t.buf[n..];
  }

  /** Where no packet starts the reference skips a byte. */
  lemma {:induction false} SkipsOne(t: Tap)
    requires t.phase == Hunt && INV_LEN <= |t.buf| && !StartsAt(t.id, t.buf, 0)
    ensures TapRun(t) == TapRun(SkipByte(t)) && SkipMany(t, 1) == SkipByte(t)
  {
    assert t.buf[0..INV_LEN] == t.buf[..INV_LEN];
    hide IsInverter, AddUnknown;
    assert TapStep(t) == Some(SkipByte(t));
  }

  lemma {:induction false} SkipByteMoves(t: Tap)
    requires t.buf != []
    ensures var u := SkipByte(t); u.phase == t.phase && u.id == t.id && u.buf == t.buf[1..]
  {}

  /** Skipping to the candidate at once is skipping byte by byte. */
  lemma {:induction false} SkipManyRuns(t: Tap, n: nat)
    requires t.phase == Hunt && 0 < n <= |t.buf| - (INV_LEN - 1)
    requires forall j :: 0 <= j < n ==> !StartsAt(t.id, t.buf, j)
    ensures TapRun(t) == TapRun(SkipMany(t, n))
    decreases n
  {
    hide TapRun, SkipByte, SkipMany, IsInverter;
    SkipsOne(t);
    if n > 1 {
      var u := SkipByte(t);
      SkipByteMoves(t);
      forall j | 0 <= j < n - 1 ensures !StartsAt(u.id, u.buf, j) {
        assert !StartsAt(t.id, t.buf, j + 1);
        assert u.buf[j..j + INV_LEN] == t.buf[j + 1..j + 1 + INV_LEN];
      }
      SkipManyRuns(u, n - 1);
      SkipOneMore(t, n);
    }
  }

  lemma {:induction false} DropRefines(f: Frame)
    ensures Abs(HeldDrop(f)) == GiveUp(Abs(f))
  {
    MergeDowngraded(f.log, f.held);
  }

  lemma {:induction false} AbandonRefines(f: Frame)
    ensures Abs(if f.probe.Some? then HeldDrop(f) else f) == Abandon(Abs(f))
  {
    DropRefines(f);
    hide Merge, HeldDrop, GiveUp;
  }

  lemma {:induction false} SkipRefines(f: Frame, n: nat)
    requires 0 < n <= |f.buf|
    ensures Abs(Skip(f, n).(buf := f.buf[n..])) == SkipMany(Abs(f), n)
  {
    hide Merge, AddUnknown, HeldDrop, Abandon, Deliver;
    AbandonRefines(f);
    var g := if f.probe.Some? then HeldDrop(f) else f;
    DeliverRefines(g.(stats := g.stats.(unknown := g.stats.unknown + n)), f.buf[..n]);
    DropKeepsBytes(f);
  }

  lemma {:induction false} DropKeepsBytes(f: Frame)
    ensures HeldDrop(f).synced == f.synced && HeldDrop(f).buf == f.buf
  {}

  lemma {:induction false} DeliverRefines(f: Frame, b: seq<byte>)
    ensures Deliver(f, Packet(Unknown, b)) == f.(log := f.log + [Packet(Unknown, b)])
    ensures Merge(f.log + [Packet(Unknown, b)]) == AddUnknown(Merge(f.log), b)
  {
    MergeSnoc(f.log, Packet(Unknown, b));
  }

  lemma {:induction false} EmitRefines(f: Frame, p: Packet)
    requires p.kind != Unknown && |p.bytes| <= INV_LEN && |f.held| < HELD_MAX
    ensures Abs(Emit(f, p)) == Send(Abs(f), p)
  {
    MergeSnoc(f.log, p);
  }

  lemma {:induction false} JudgeRefines(f: Frame)
    requires Probation(f) && INV_LEN <= |f.buf|
    ensures Abs(Judge(f)) == Weigh(Abs(f))
  {
    DropRefines(f);
    MergeTyped(f.log, f.held);
  }

  lemma {:induction false} AcceptRefines(f: Frame)
    requires Probation(f) && f.phase == Hunt && INV_LEN <= |f.buf|
    ensures Abs(Accept(f).(buf := f.buf[INV_LEN..])) == Take(Abs(f))
  {
    var g, p := Judge(f), Packet(Inverter, f.buf[..INV_LEN]);
    JudgeRefines(f);
    assert g.buf == f.buf && |g.held| < HELD_MAX;
    hide Judge, Weigh;
    EmitRefines(g.(sinceInverter := 0, synced := true), p);
  }

  lemma {:induction false} HuntRefines(f: Frame)
    requires Probation(f) && f.phase == Hunt && INV_LEN <= |f.buf|
    ensures TapRun(Abs(f)) == TapRun(Abs(Step(f).value))
  {
    var i := Candidate(f.id, f.buf, 0);
    if i > 0 {
      SkipManyRuns(Abs(f), i);
      SkipRefines(f, i);
    } else {
      assert StartsAt(f.id, f.buf, 0);
      assert f.buf[0..INV_LEN] == f.buf[..INV_LEN];
      AcceptRefines(f);
    }
  }

  lemma {:induction false} WindowOnly(id: Option<Ident>, p: seq<byte>)
    requires INV_LEN <= |p|
    ensures IsInverter(id, p) == IsInverter(id, p[..INV_LEN])
    ensures IsInverter(id, p) ==> p[20] == 0x00
  {}

  lemma {:induction false} RemoteRefines(f: Frame)
    requires Probation(f) && f.phase == AfterInverter && REMOTE_LEN <= |f.buf|
    ensures var (p, rest) := (Packet(Remote, f.buf[..REMOTE_LEN]), f.buf[REMOTE_LEN..]);
      Abs(Emit(f, p).(phase := AfterRemote, buf := rest)) == Send(Abs(f), p).(phase := AfterRemote, buf := rest)
  {
    hide Merge, Emit, Send;
    EmitRefines(f, Packet(Remote, f.buf[..REMOTE_LEN]));
  }

  /** Outside of hunting a step of one is a step of the other. */
  lemma {:induction false} AfterInverterRefines(f: Frame)
    requires Probation(f) && f.phase == AfterInverter
    ensures TapStep(Abs(f)) == match Step(f) case None => None case Some(g) => Some(Abs(g))
  {
    hide IsInverter, RemoteTypeOk, Turnaround, Merge, Emit, Send;
    if |f.buf| >= INV_LEN {
      WindowOnly(f.id, f.buf);
      RemoteRefines(f);
      hide Probation;
      if |f.buf| > INV_LEN {
        WindowOnly(f.id, f.buf[1..]);
        assert f.buf[1..][..INV_LEN] == f.buf[1..22];
      }
    }
  }

  lemma {:induction false} AfterRemoteRefines(f: Frame)
    requires Probation(f) && f.phase == AfterRemote
    ensures TapStep(Abs(f)) == match Step(f) case None => None case Some(g) => Some(Abs(g))
  {
    hide Merge, Emit;
    if f.buf != [] {
      hide ReplyOk, ReplyLen, ReplyKind;
      var n := ReplyLen(f.buf[0]);
      ReplyIsShort(f.buf[0]);
      if 0 < n <= |f.buf| {
        SameReply(f.buf, n);
        EmitRefines(f.(phase := Hunt), Packet(ReplyKind(f.buf[0]), f.buf[..n]));
      }
    }
  }

  lemma {:induction false} SameReply(p: seq<byte>, n: nat)
    requires p != [] && n == ReplyLen(p[0]) && 0 < n <= |p|
    ensures ReplyOk(p) == ReplyOk(p[..n])
  {}

  /** Parsing a buffer to the end gives what the reference gives. */
  lemma {:induction false} ProcessRefines(f: Frame)
    requires Probation(f)
    ensures Abs(Process(f)) == TapRun(Abs(f))
    ensures Probation(Process(f))
    decreases |f.buf|, PhaseRank(f.phase)
  {
    match f.phase {
      case AfterInverter => AfterInverterRefines(f);
      case AfterRemote => AfterRemoteRefines(f);
      case Hunt => if |f.buf| >= INV_LEN { HuntRefines(f); }
    }
    if Step(f).Some? {
      StepKeepsProbation(f);
      ProcessRefines(Step(f).value);
    }
  }

  // ----- Cutting the input -----

  /** No feed of the run sets off the relearn check. */
  predicate NoRelearn(f: Frame, chunks: seq<seq<byte>>)
    requires |f.buf| <= INV_LEN
    decreases |chunks|
  {
    chunks == [] ||
    var init, last := chunks[..|chunks| - 1], chunks[|chunks| - 1];
    NoRelearn(f, init) && (FeedAll(f, init).id.Some? ==> FeedAll(f, init).sinceInverter + |last| <= 4096)
  }

  lemma {:induction false} PieceRefines(f: Frame, piece: seq<byte>)
    requires Probation(f)
    ensures var g := Process(f.(buf := f.buf + piece));
      Probation(g) && Abs(g) == TapRun(Extend(Abs(f), piece))
  {
    var g := f.(buf := f.buf + piece);
    ProcessRefines(g);
  }

  /** Two pieces in turn run as one. */
  lemma {:induction false} TwoPieces(t: Tap, a: seq<byte>, b: seq<byte>)
    ensures TapRun(Extend(TapRun(Extend(t, a)), b)) == TapRun(Extend(t, a + b))
  {
    RunExtends(Extend(t, a), b);
    assert t.buf + a + b == t.buf + (a + b);
  }

  lemma {:induction false} FeedLoopRefines(f: Frame, data: seq<byte>)
    requires Probation(f) && |f.buf| <= INV_LEN
    ensures Probation(FeedLoop(f, data))
    ensures data != [] ==> Abs(FeedLoop(f, data)) == TapRun(Extend(Abs(f), data))
    decreases |data|
  {
    hide TapRun, Process;
    if data != [] {
      var take := Min(|data|, BUF_SIZE - |f.buf|);
      var piece, rest := data[..take], data[take..];
      PieceRefines(f, piece);
      FeedLoopRefines(Process(f.(buf := f.buf + piece)), rest);
      assert piece + rest == data;
      assert rest == [] ==> piece == data;
      TwoPieces(Abs(f), piece, rest);
    }
  }

  lemma {:induction false} CountFFAppend(a: seq<byte>, b: seq<byte>)
    ensures CountFF(a + b) == CountFF(a) + CountFF(b)
  {
    if b == [] {
      assert a + b == a;
    } else {
      assert (a + b)[..|a + b| - 1] == a + b[..|b| - 1];
      CountFFAppend(a, b[..|b| - 1]);
    }
  }

  lemma {:induction false} FeedRefines(f: Frame, data: seq<byte>)
    requires Probation(f) && |f.buf| <= INV_LEN && !Relearns(f, |data|)
    ensures var r := Feed(f, data);
      && Probation(r)
      && Abs(r) == (if data == [] then Abs(f) else TapRun(Extend(Abs(f), data)))
      && r.bytesRead == f.bytesRead + |data|
      && r.ffBytes == f.ffBytes + CountFF(data)
  {
    if data != [] {
      FeedLoopRefines(FeedStart(f, data), data);
      assert Abs(FeedStart(f, data)) == Abs(f);
    }
  }

  /** A run of feeds computes the reference run of its bytes joined together. */
  lemma {:induction false} FeedAllRefines(f: Frame, chunks: seq<seq<byte>>)
    requires Probation(f) && |f.buf| <= INV_LEN && NoRelearn(f, chunks)
    ensures var all, r := Flatten(chunks), FeedAll(f, chunks);
      && Probation(r)
      && Abs(r) == (if all == [] then Abs(f) else TapRun(Extend(Abs(f), all)))
      && r.bytesRead == f.bytesRead + |all|
      && r.ffBytes == f.ffBytes + CountFF(all)
    decreases |chunks|
  {
    hide TapRun, FeedLoop;
    if chunks != [] {
      var init, last := chunks[..|chunks| - 1], chunks[|chunks| - 1];
      assert chunks == init + [last];
      FeedAllRefines(f, init);
      FlattenSnoc(init, last);
      CountFFAppend(Flatten(init), last);
      FeedRefines(FeedAll(f, init), last);
      TwoPieces(Abs(f), Flatten(init), last);
      assert Flatten(init) == [] ==> Flatten(init) + last == last;
      assert last == [] ==> Flatten(init) + last == Flatten(init);
    }
  }

  /** Main result: the same bytes cut in any two ways give the same packets
      in the same order (skipped runs merged), the same buffer, phase, held
      packets, identity and counters, whenever neither cut sets off a relearn. */
  lemma {:induction false} ChunkIndependence(f: Frame, chunks: seq<seq<byte>>, others: seq<seq<byte>>)
    requires Probation(f) && |f.buf| <= INV_LEN
    requires Flatten(chunks) == Flatten(others)
    requires NoRelearn(f, chunks) && NoRelearn(f, others)
    ensures var a, b := FeedAll(f, chunks), FeedAll(f, others);
      && a.buf == b.buf && a.phase == b.phase && a.synced == b.synced
      && a.id == b.id && a.probe == b.probe && a.held == b.held && a.stats == b.stats
      && a.bytesRead == b.bytesRead && a.ffBytes == b.ffBytes
      && Merge(a.log) == Merge(b.log) && Typed(a.log) == Typed(b.log)
      && AllBytes(a.log) == AllBytes(b.log)
  {
    FeedAllRefines(f, chunks);
    FeedAllRefines(f, others);
    var a, b := FeedAll(f, chunks), FeedAll(f, others);
    assert Abs(a) == Abs(b);
    MergeMeaning(a.log);
    MergeMeaning(b.log);
  }
}
