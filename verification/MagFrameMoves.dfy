/** The few things one step of the framer can do, told apart so that what a
    step keeps is proved move by move. */
module MagFrameMoves {
  import opened Bytes
  import opened MagFrame
  import opened MagFrameWire

  datatype Move =
    | Skipped(n: nat)             // bytes before the candidate
    | Took                        // the candidate at the front
    | Dismissed(bad: bool)        // back to hunting, nothing consumed
    | Stray                       // the byte behind an inverter packet
    | Followed(kind: Kind, n: nat) // the remote packet or a reply

  /** The phase in which packets of this kind are taken. */
  function Slot(kind: Kind): Phase {
    if kind == Unknown || kind == Inverter then Hunt else if kind == Remote then AfterInverter else AfterRemote
  }

  /** An inverter packet begins the buffer, of the known inverter or else of any. */
  predicate InverterHere(id: Option<Ident>, buf: seq<byte>) {
    |buf| >= 21 && match id case None => AnyInverter(buf[..21]) case Some(m) => InverterOf(m, buf[..21])
  }

  predicate Legal(f: Frame, m: Move) {
    match m
    case Skipped(n) => f.phase == Hunt && 0 < n <= |f.buf|
    case Took => f.phase == Hunt && INV_LEN <= |f.buf| && IsInverter(f.id, f.buf[..INV_LEN])
    case Dismissed(bad) =>
      && f.phase != Hunt && f.buf != []
      && (bad <==> if f.phase == AfterInverter then !InverterHere(f.id, f.buf) else BeginsReply(f.buf[0]))
    case Stray => f.phase == AfterInverter && f.buf != [] && LineRelease(f.buf[0])
    case Followed(kind, n) =>
      && f.phase == Slot(kind) != Hunt && n <= |f.buf| && n <= INV_LEN
      && OfItsKind(Packet(kind, f.buf[..n]))
  }

  function Apply(f: Frame, m: Move): Frame
    requires Legal(f, m)
  {
    match m
    case Skipped(n) => Skip(f, n).(buf := f.buf[n..])
    case Took => Accept(f).(buf := f.buf[INV_LEN..])
    case Dismissed(bad) => (if bad then Bad(f) else f).(phase := Hunt)
    case Stray => f.(buf := f.buf[1..])
    case Followed(kind, n) =>
      Emit(f, Packet(kind, f.buf[..n])).(
        phase := if f.phase == AfterInverter then AfterRemote else Hunt, buf := f.buf[n..])
  }

  lemma {:induction false} ReplyIsShort(b: byte)
    ensures ReplyLen(b) <= 18 && ReplyLen(b) != 1 && ReplyKind(b) != Inverter && ReplyKind(b) != Remote
    ensures ReplyLen(b) > 0 <==> ReplyKind(b) != Unknown
  {}

  lemma {:induction false} HuntIsAMove(f: Frame) returns (m: Move)
    requires f.phase == Hunt && Step(f).Some?
    ensures Legal(f, m) && Step(f).value == Apply(f, m)
  {
    hide IsInverter, Skip, Accept;
    var i := Candidate(f.id, f.buf, 0);
    assert i == 0 ==> StartsAt(f.id, f.buf, 0);
    assert f.buf[0..INV_LEN] == f.buf[..INV_LEN];
    m := if i > 0 then Skipped(i) else Took;
  }

  lemma {:induction false} AfterInverterIsAMove(f: Frame) returns (m: Move)
    requires f.phase == AfterInverter && Step(f).Some?
    ensures Legal(f, m) && Step(f).value == Apply(f, m)
  {
    hide IsInverter, Emit, AnyInverter, InverterOf;
    var (g, o) := PhaseStep(f);
    RemoteExactlyWhen(f.buf[..REMOTE_LEN]);
    TurnaroundExactlyWhen(f.buf[0]);
    InverterExactlyWhen(f.id, f.buf);
    m := if o == Used(1) then Stray
         else if o.Used? then Followed(Remote, REMOTE_LEN)
         else Dismissed(!IsInverter(f.id, f.buf));
  }

  lemma {:induction false} AfterRemoteIsAMove(f: Frame) returns (m: Move)
    requires f.phase == AfterRemote && Step(f).Some?
    ensures Legal(f, m) && Step(f).value == Apply(f, m)
  {
    hide IsInverter, AllBytes, DowngradeAll;
    var (g, o) := PhaseStep(f);
    ReplyIsShort(f.buf[0]);
    if o.Used? {
      m := Followed(ReplyKind(f.buf[0]), o.n);
      assert f.buf[..o.n][0] == f.buf[0] && f.buf[..o.n][1] == f.buf[1];
      ReplyExactlyWhen(ReplyKind(f.buf[0]), f.buf[..o.n]);
    } else {
      m := Dismissed(ReplyLen(f.buf[0]) != 0);
      ReplyExactlyWhen(Unknown, f.buf);
    }
  }

  lemma {:induction false} StepIsAMove(f: Frame) returns (m: Move)
    requires Step(f).Some?
    ensures Legal(f, m) && Step(f).value == Apply(f, m)
  {
    hide Step, Legal, Apply;
    match f.phase
    case Hunt => m := HuntIsAMove(f);
    case AfterInverter => m := AfterInverterIsAMove(f);
    case AfterRemote => m := AfterRemoteIsAMove(f);
  }

  // ----- What the counters tell -----

  /** A packet is counted bad when what comes behind an inverter packet is neither a
      remote nor an inverter packet, or a reply is begun and is none; a resync when
      bytes are skipped in step, which ends that until an inverter packet is taken. */
  lemma {:induction false} MoveTells(f: Frame, m: Move)
    requires Legal(f, m)
    ensures var g := Apply(f, m);
      && g.stats.bad == f.stats.bad + (if m == Dismissed(true) then 1 else 0)
      && g.stats.resyncs == f.stats.resyncs + (if m.Skipped? && f.synced then 1 else 0)
      && g.synced == (if m.Skipped? then false else m == Took || f.synced)
  {
    hide IsInverter, OfItsKind, InverterHere, AllBytes, Kinds, DowngradeAll;
  }

  /** And when a packet is cut short by silence. */
  lemma {:induction false} IdleTells(f: Frame, quiet: real)
    ensures var g := Idle(f, quiet);
      && g.stats.bad == f.stats.bad + (if f.buf != [] && quiet >= 0.060 && f.phase != Hunt then 1 else 0)
      && g.stats.resyncs == f.stats.resyncs && g.synced == f.synced
  {
    hide AllBytes, Kinds, DowngradeAll;
  }
}
