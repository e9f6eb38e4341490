/** The Magnum RS-485 framer as a step function over frame values
    (src/magnum/mag_frame.c).  The class in MagFrameObject.dfy, which works in
    place on its buffer, is proved to compute these functions; the theorems
    about a whole run are proved here and in the other MagFrame modules. */
module MagFrame {
  import opened Bytes

  const BUF_SIZE := 4096
  const INV_LEN := 21
  const REMOTE_LEN := 21
  const HELD_MAX := 4
  const RELEARN_BYTES := 4096
  const IDLE_S := 0.060
  const PROBE_S := 1.0

  datatype Kind =
    | Unknown | Inverter | Remote | AgsA1 | AgsA2 | Bmk81 | Rtr91 | PtC1 | PtC2 | PtC3 | AcldD1

  datatype Packet = Packet(kind: Kind, bytes: seq<byte>)

  datatype Phase = Hunt | AfterInverter | AfterRemote

  /** What tells one inverter from another: bytes 14 and 10 of its packet. */
  datatype Ident = Ident(model: byte, revision: byte)

  /** `packets` counts the typed packets delivered, by kind. */
  datatype Stats = Stats(packets: multiset<Kind>, bad: nat, unknown: nat, resyncs: nat)

  /** `id` is have_id with the learned identity, `probe` is probing with the
      candidate's; `log` is every packet and skipped run given to the callback. */
  datatype Frame = Frame(
    buf: seq<byte>,
    phase: Phase,
    synced: bool,
    id: Option<Ident>,
    probe: Option<Ident>,
    held: seq<Packet>,
    sinceInverter: nat,
    bytesRead: nat,
    ffBytes: nat,
    stats: Stats,
    log: seq<Packet>)

  const NO_STATS := Stats(multiset{}, 0, 0, 0)
  const INIT := Frame([], Hunt, false, None, None, [], 0, 0, 0, NO_STATS, [])

  // ----- What a packet looks like -----

  function Signed16(hi: byte, lo: byte): int {
    var v := hi * 256 + lo;
    if v < 0x8000 then v else v - 0x1_0000
  }

  function Signed8(b: byte): int {
    if b < 0x80 then b else b - 0x100
  }

  predicate ModelKnown(m: byte) {
    || m == 0x06 || m == 0x07 || m == 0x08 || m == 0x09 || m == 0x0A || m == 0x0B || m == 0x0C
    || m == 0x0F || m == 0x14 || m == 0x15 || m == 0x19 || m == 0x1E || m == 0x23 || m == 0x24
    || m == 0x28 || m == 0x2C || m == 0x2D || m == 0x2F || m == 0x35 || m == 0x36 || m == 0x37
    || m == 0x3B || m == 0x3F || m == 0x45 || m == 0x4A || m == 0x5A || m == 0x5B || m == 0x67
    || m == 0x68 || m == 0x69 || m == 0x6A || m == 0x6B || m == 0x6F || m == 0x70 || m == 0x72
    || m == 0x73 || m == 0x74 || m == 0x75
  }

  predicate StackModeKnown(s: byte) {
    || s == 0x00 || s == 0x01 || s == 0x02 || s == 0x04 || s == 0x08
  }

  function Multiplier(model: byte): int {
    if model <= 50 then 1 else if model <= 107 then 2 else 4
  }

  /** Length of a peripheral's reply that starts with b, or 0. */
  function ReplyLen(b: byte): nat {
    if b == 0x91 then 2
    else if b == 0xA1 || b == 0xA2 then 6
    else if b == 0xD1 then 8
    else if b == 0xC2 then 13
    else if b == 0xC3 then 14
    else if b == 0xC1 then 16
    else if b == 0x81 then 18
    else 0
  }

  function ReplyKind(b: byte): Kind {
    if b == 0x91 then Rtr91
    else if b == 0xA1 then AgsA1
    else if b == 0xA2 then AgsA2
    else if b == 0xD1 then AcldD1
    else if b == 0xC2 then PtC2
    else if b == 0xC3 then PtC3
    else if b == 0xC1 then PtC1
    else if b == 0x81 then Bmk81
    else Unknown
  }

  predicate ReplyOk(p: seq<byte>)
    requires 2 <= |p|
  {
    if p[0] == 0xA1 then 0 <= Signed8(p[1]) <= 27
    else if p[0] == 0x81 then 0 <= Signed8(p[1]) <= 100
    else true
  }

  predicate RemoteTypeOk(b: byte) {
    || b == 0x00 || b == 0x11 || b == 0x80 || b == 0xA0 || b == 0xA1 || b == 0xA2 || b == 0xA3
    || b == 0xA4 || b == 0xC0 || b == 0xC1 || b == 0xC2 || b == 0xC3 || b == 0xD0
  }

  /** The five values a line that is being released can read as. */
  predicate Turnaround(b: byte) {
    || b == 0xFF || b == 0xFE || b == 0xFC || b == 0xF8 || b == 0xF0
  }

  function IdentOf(p: seq<byte>): Ident
    requires INV_LEN <= |p|
  {
    Ident(p[14], p[10])
  }

  /** Terminator, frequency, temperatures and DC volts are an inverter's. */
  predicate InverterShape(p: seq<byte>) {
    && INV_LEN <= |p|
    && p[20] == 0x00
    && var freq := Signed16(p[18], p[19]);
    && (freq == 0 || 400 <= freq <= 700)
    && p[11] <= 150 && p[12] <= 150 && p[13] <= 150
    && 0 <= Signed16(p[2], p[3]) <= 120 * Multiplier(p[14]) * 2
  }

  /** Once the inverter is known its identity must match; until then the
      model and stack mode must be known ones. */
  predicate IdentAccepted(id: Option<Ident>, p: seq<byte>)
    requires INV_LEN <= |p|
  {
    if id.Some? then IdentOf(p) == id.value else ModelKnown(p[14]) && StackModeKnown(p[15])
  }

  predicate IsInverter(id: Option<Ident>, p: seq<byte>)
    requires INV_LEN <= |p|
  {
    InverterShape(p) && IdentAccepted(id, p)
  }

  // ----- Packets out -----

  /** The typed packets of a list, counted by kind. */
  function Kinds(ps: seq<Packet>): multiset<Kind> {
    if ps == [] then multiset{}
    else Kinds(ps[..|ps| - 1]) + KindOf(ps[|ps| - 1])
  }

  function KindOf(p: Packet): multiset<Kind> {
    if p.kind == Unknown then multiset{} else multiset{p.kind}
  }

  /** All bytes of a list of packets, in order. */
  function AllBytes(ps: seq<Packet>): seq<byte> {
    if ps == [] then [] else AllBytes(ps[..|ps| - 1]) + ps[|ps| - 1].bytes
  }

  function Downgrade(p: Packet): Packet {
    p.(kind := Unknown)
  }

  function DowngradeAll(ps: seq<Packet>): (r: seq<Packet>)
    ensures |r| == |ps|
    ensures forall i :: 0 <= i < |r| ==> r[i] == Downgrade(ps[i])
  {
    seq(|ps|, i requires 0 <= i < |ps| => Downgrade(ps[i]))
  }

  /** Parsing does not touch the counters that a feed keeps. */
  predicate SameFed(f: Frame, g: Frame) {
    g.bytesRead == f.bytesRead && g.ffBytes == f.ffBytes
  }

  function Deliver(f: Frame, p: Packet): Frame {
    f.(log := f.log + [p], stats := f.stats.(packets := f.stats.packets + KindOf(p)))
  }

  /** The held packets keep their types: they join the log unchanged. */
  function HeldFlush(f: Frame): Frame {
    f.(log := f.log + f.held, held := [],
       stats := f.stats.(packets := f.stats.packets + Kinds(f.held)))
  }

  /** The held packets lose their types, and probing ends. */
  function HeldDrop(f: Frame): Frame {
    f.(log := f.log + DowngradeAll(f.held), held := [], probe := None,
       stats := f.stats.(unknown := f.stats.unknown + |AllBytes(f.held)|))
  }

  function Emit(f: Frame, p: Packet): (r: Frame)
    ensures SameFed(f, r)
  {
    if f.probe.Some? && p.kind != Unknown then
      if |f.held| < HELD_MAX && |p.bytes| <= INV_LEN then
        f.(held := f.held + [p])
      else
        var g := HeldDrop(f);
        Deliver(g.(stats := g.stats.(unknown := g.stats.unknown + |p.bytes|)), Downgrade(p))
    else
      Deliver(f, p)
  }

  function Skip(f: Frame, n: nat): (r: Frame)
    requires n <= |f.buf|
    ensures SameFed(f, r)
  {
    if n == 0 then f else
    var g := if f.probe.Some? then HeldDrop(f) else f;
    var h := Emit(g.(stats := g.stats.(unknown := g.stats.unknown + n)), Packet(Unknown, f.buf[..n]));
    if h.synced then h.(synced := false, stats := h.stats.(resyncs := h.stats.resyncs + 1)) else h
  }

  // ----- One step -----

  /** A step waits for bytes, changes the phase without consuming, or consumes. */
  datatype Outcome = Wait | Changed | Used(n: nat)

  predicate StartsAt(id: Option<Ident>, buf: seq<byte>, j: nat) {
    j + INV_LEN <= |buf| && IsInverter(id, buf[j..j + INV_LEN])
  }

  /** First offset from i on where an inverter packet may start, or the
      length less 20: no packet starts before it. */
  function Candidate(id: Option<Ident>, buf: seq<byte>, i: nat): (k: nat)
    requires INV_LEN <= |buf| && i <= |buf| - (INV_LEN - 1)
    ensures i <= k <= |buf| - (INV_LEN - 1)
    ensures forall j :: i <= j < k ==> !StartsAt(id, buf, j)
    ensures k + INV_LEN <= |buf| ==> StartsAt(id, buf, k)
    decreases |buf| - i
  {
    if i + INV_LEN > |buf| || StartsAt(id, buf, i) then i
    else Candidate(id, buf, i + 1)
  }

  /** Whether the candidate at the front confirms the one on probation, or
      goes on probation itself. */
  function Judge(f: Frame): (r: Frame)
    requires INV_LEN <= |f.buf|
    ensures SameFed(f, r)
  {
    var who := IdentOf(f.buf);
    if f.id.Some? then f
    else if f.probe.Some? && f.synced && f.probe.value == who then
      HeldFlush(f.(probe := None, id := Some(who)))
    else
      (if f.probe.Some? then HeldDrop(f) else f).(probe := Some(who))
  }

  function Accept(f: Frame): (r: Frame)
    requires INV_LEN <= |f.buf|
    ensures SameFed(f, r)
  {
    var g := Judge(f).(sinceInverter := 0, synced := true);
    Emit(g, Packet(Inverter, f.buf[..INV_LEN])).(phase := AfterInverter)
  }

  function HuntStep(f: Frame): (r: (Frame, Outcome))
    ensures SameFed(f, r.0)
    ensures r.1.Used? ==> 0 < r.1.n <= |f.buf| && r.0.buf == f.buf
    ensures !r.1.Changed?
  {
    if |f.buf| < INV_LEN then (f, Wait)
    else
      var i := Candidate(f.id, f.buf, 0);
      if i > 0 then (Skip(f, i), Used(i)) else (Accept(f), Used(INV_LEN))
  }

  /** One byte too many in front: the packet due fits the bytes after it. */
  predicate StrayByte(f: Frame)
    requires REMOTE_LEN + 1 <= |f.buf|
  {
    && Turnaround(f.buf[0])
    && (RemoteTypeOk(f.buf[REMOTE_LEN]) || IsInverter(f.id, f.buf[1..]))
  }

  function Bad(f: Frame): Frame {
    f.(stats := f.stats.(bad := f.stats.bad + 1))
  }

  function AfterInverterStep(f: Frame): (r: (Frame, Outcome))
    ensures SameFed(f, r.0)
    ensures r.1.Used? ==> 0 < r.1.n <= |f.buf| && r.0.buf == f.buf
    ensures r.1.Changed? ==> r.0.phase == Hunt && r.0.buf == f.buf
  {
    if |f.buf| < REMOTE_LEN then (f, Wait)
    else if Turnaround(f.buf[0]) && |f.buf| < REMOTE_LEN + 1 then (f, Wait)
    else if Turnaround(f.buf[0]) && StrayByte(f) then (f, Used(1))
    else RemoteOrNot(f)
  }

  /** Behind an inverter packet: a remote packet, the next inverter packet, or
      neither. */
  function RemoteOrNot(f: Frame): (r: (Frame, Outcome))
    requires REMOTE_LEN <= |f.buf|
    ensures SameFed(f, r.0)
    ensures r.1.Used? ==> 0 < r.1.n <= |f.buf| && r.0.buf == f.buf
    ensures r.1.Changed? ==> r.0.phase == Hunt && r.0.buf == f.buf
    ensures !r.1.Wait?
  {
    if RemoteTypeOk(f.buf[20]) && !(f.buf[20] == 0x00 && IsInverter(f.id, f.buf)) then
      (Emit(f, Packet(Remote, f.buf[..REMOTE_LEN])).(phase := AfterRemote), Used(REMOTE_LEN))
    else if IsInverter(f.id, f.buf) then (f.(phase := Hunt), Changed)
    else (Bad(f).(phase := Hunt), Changed)
  }

  function AfterRemoteStep(f: Frame): (r: (Frame, Outcome))
    ensures SameFed(f, r.0)
    ensures r.1.Used? ==> 0 < r.1.n <= |f.buf| && r.0.buf == f.buf
    ensures r.1.Changed? ==> r.0.phase == Hunt && r.0.buf == f.buf
  {
    if |f.buf| < 1 then (f, Wait)
    else
      var n := ReplyLen(f.buf[0]);
      if n == 0 then (f.(phase := Hunt), Changed)
      else if |f.buf| < n then (f, Wait)
      else if !ReplyOk(f.buf) then (Bad(f).(phase := Hunt), Changed)
      else (Emit(f.(phase := Hunt), Packet(ReplyKind(f.buf[0]), f.buf[..n])), Used(n))
  }

  function PhaseStep(f: Frame): (r: (Frame, Outcome))
    ensures SameFed(f, r.0)
    ensures r.1.Used? ==> 0 < r.1.n <= |f.buf| && r.0.buf == f.buf
    ensures r.1.Changed? ==> f.phase != Hunt && r.0.phase == Hunt && r.0.buf == f.buf
    ensures r.1.Wait? ==> r.0 == f && |f.buf| <= INV_LEN
  {
    match f.phase
    case Hunt => HuntStep(f)
    case AfterInverter => AfterInverterStep(f)
    case AfterRemote => AfterRemoteStep(f)
  }

  /** One round of the process loop, consuming included; None: bytes are needed. */
  function Step(f: Frame): (r: Option<Frame>)
    ensures r.Some? ==> |r.value.buf| < |f.buf| || (r.value.buf == f.buf && f.phase != Hunt && r.value.phase == Hunt)
    ensures r.None? ==> |f.buf| <= INV_LEN
    ensures r.Some? ==> SameFed(f, r.value)
  {
    var (g, o) := PhaseStep(f);
    match o
    case Wait => None
    case Changed => Some(g)
    case Used(n) => Some(g.(buf := g.buf[n..]))
  }

  function PhaseRank(p: Phase): nat {
    if p == Hunt then 0 else 1
  }

  /** Parse until bytes are needed: it ends, and leaves at most 21 bytes. */
  function Process(f: Frame): (r: Frame)
    ensures Step(r).None? && |r.buf| <= INV_LEN
    ensures SameFed(f, r)
    decreases |f.buf|, PhaseRank(f.phase)
  {
    match Step(f)
    case None => f
    case Some(g) => Process(g)
  }

  // ----- Feeding -----

  function CountFF(data: seq<byte>): nat {
    if data == [] then 0
    else CountFF(data[..|data| - 1]) + if data[|data| - 1] == 0xFF then 1 else 0
  }

  predicate Relearns(f: Frame, n: nat) {
    f.id.Some? && f.sinceInverter + n > RELEARN_BYTES
  }

  /** What a feed does before it parses: the byte counters and the relearn
      check, which sees the whole chunk's length. */
  function FeedStart(f: Frame, data: seq<byte>): Frame {
    var g := f.(bytesRead := f.bytesRead + |data|, ffBytes := f.ffBytes + CountFF(data),
                sinceInverter := f.sinceInverter + |data|);
    if Relearns(f, |data|) then g.(id := None) else g
  }

  /** Copy in as much as the buffer has room for, parse, repeat. */
  function FeedLoop(f: Frame, data: seq<byte>): (r: Frame)
    requires |f.buf| <= INV_LEN
    ensures |r.buf| <= INV_LEN && SameFed(f, r)
    decreases |data|
  {
    if data == [] then f
    else
      var take := Min(|data|, BUF_SIZE - |f.buf|);
      FeedLoop(Process(f.(buf := f.buf + data[..take])), data[take..])
  }

  function Feed(f: Frame, data: seq<byte>): (r: Frame)
    requires |f.buf| <= INV_LEN
    ensures |r.buf| <= INV_LEN
  {
    if data == [] then f else FeedLoop(FeedStart(f, data), data)
  }

  /** A run of feeds. */
  function FeedAll(f: Frame, chunks: seq<seq<byte>>): (r: Frame)
    requires |f.buf| <= INV_LEN
    ensures |r.buf| <= INV_LEN
    decreases |chunks|
  {
    if chunks == [] then f else Feed(FeedAll(f, chunks[..|chunks| - 1]), chunks[|chunks| - 1])
  }

  /** `quiet` seconds have passed since the last byte. */
  function Idle(f: Frame, quiet: real): Frame {
    var g := if f.probe.Some? && quiet >= PROBE_S then HeldDrop(f) else f;
    if g.buf == [] || quiet < IDLE_S then g
    else
      Settle(if g.phase != Hunt then Bad(g) else g)
  }

  /** The whole buffer is delivered as it is. */
  function Settle(h: Frame): Frame {
    Emit(h.(stats := h.stats.(unknown := h.stats.unknown + |h.buf|)), Packet(Unknown, h.buf)).(buf := [], phase := Hunt)
  }
}
