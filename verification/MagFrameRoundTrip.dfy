/** A bus that keeps to the protocol is read back exactly: whatever it sent,
    after whatever junk, however the bytes were cut. */
module MagFrameRoundTrip {
  import opened Bytes
  import opened MagFrame
  import opened MagFrameMoves
  import opened MagFrameReference
  import opened MagFrameRefinement
  import opened MagFrameWire

  /** What a station puts on the wire: a packet, or a stray byte. */
  datatype Piece = Sent(p: Packet) | StrayOne(b: byte)

  function Wire(x: Piece): seq<byte> {
    match x
    case Sent(p) => p.bytes
    case StrayOne(b) => [b]
  }

  function Encode(ps: seq<Piece>): seq<byte> {
    if ps == [] then [] else Wire(ps[0]) + Encode(ps[1..])
  }

  function Packets(ps: seq<Piece>): seq<Packet> {
    if ps == [] then []
    else (if ps[0].Sent? then [ps[0].p] else []) + Packets(ps[1..])
  }

  /** How many inverter packets were sent. */
  function Inverters(ps: seq<Piece>): nat {
    if ps == [] then 0
    else (if ps[0].Sent? && ps[0].p.kind == Inverter then 1 else 0) + Inverters(ps[1..])
  }

  /** Taken for an inverter packet by a framer that has seen so many of them:
      two and it looks for this inverter, fewer and it looks for any. */
  predicate LooksInverter(m: Ident, seen: nat, b: seq<byte>) {
    if seen >= 2 then InverterOf(m, b) else AnyInverter(b)
  }

  /** A packet of the inverter, of a known model and in a known stack mode until
      two are seen, whose first byte says it is neither a reply nor a stray byte. */
  predicate GoodInverter(m: Ident, seen: nat, phase: Phase, b: seq<byte>) {
    && InverterOf(m, b) && (seen < 2 ==> Model(b[14]) && StackMode(b[15]))
    && (phase == AfterRemote ==> !BeginsReply(b[0]))
    && (phase == AfterInverter ==> !LineRelease(b[0]))
  }

  /** Not mistakable for the next inverter packet, nor for a stray byte. */
  predicate GoodRemote(m: Ident, seen: nat, b: seq<byte>) {
    RemoteBytes(b) && !LineRelease(b[0]) && !LooksInverter(m, seen, b)
  }

  /** The phase a framer in step is in once the piece has been read. */
  function NextPhase(x: Piece): Phase {
    match x
    case StrayOne(_) => AfterInverter
    case Sent(p) => if p.kind == Inverter then AfterInverter else if p.kind == Remote then AfterRemote else Hunt
  }

  function Seen(x: Piece, seen: nat): nat {
    if x.Sent? && x.p.kind == Inverter then seen + 1 else seen
  }

  /** One inverter, a remote packet after it or none, a reply after that or
      none, and so on; a stray byte only between an inverter packet and the
      next packet. */
  predicate Protocol(m: Ident, seen: nat, phase: Phase, ps: seq<Piece>)
    decreases |ps|
  {
    ps == [] ||
    (&& (match ps[0]
         case StrayOne(b) => phase == AfterInverter && LineRelease(b) && |ps| > 1 && ps[1].Sent?
         case Sent(p) =>
           if p.kind == Inverter then GoodInverter(m, seen, phase, p.bytes)
           else if p.kind == Remote then phase == AfterInverter && GoodRemote(m, seen, p.bytes)
           else phase == AfterRemote && ReplyBytes(p.kind, p.bytes))
     && Protocol(m, Seen(ps[0], seen), NextPhase(ps[0]), ps[1..]))
  }

  // ----- One piece -----

  /** In step with inverter m: it is known, or it is on probation, or
      (hunting only) nothing has been seen yet. */
  predicate InStep(m: Ident, seen: nat, t: Tap) {
    && Sureness(t) == (if seen < 2 then seen else 2)
    && (t.id.Some? ==> t.id.value == m && t.probe.None?)
    && (t.probe.Some? ==> t.probe.value == m && t.synced)
    && (t.probe.None? ==> t.held == [])
    && (t.phase != Hunt ==> t.id.Some? || t.probe.Some?)
  }

  /** All packets so far, delivered or on hold. */
  function Sofar(t: Tap): seq<Packet> {
    t.runs + t.held
  }

  predicate NothingWrong(t: Tap, u: Tap) {
    u.stats.bad == t.stats.bad && u.stats.unknown == t.stats.unknown && u.stats.resyncs == t.stats.resyncs
  }

  /** How sure of the inverter: unseen, on probation, known. */
  function Sureness(t: Tap): nat {
    if t.id.Some? then 2 else if t.probe.Some? then 1 else 0
  }

  /** `u` is `t` once the packets have been read. */
  predicate Reads(m: Ident, seen: nat, t: Tap, u: Tap, ps: seq<Packet>, rest: seq<byte>) {
    InStep(m, seen, u) && Sofar(u) == Sofar(t) + ps && u.buf == rest && NothingWrong(t, u)
  }

  /** What the framer in step makes of it. */
  lemma {:induction false} LooksExactlyWhen(m: Ident, seen: nat, t: Tap, b: seq<byte>)
    requires InStep(m, seen, t) && |b| == INV_LEN
    ensures IsInverter(t.id, b) <==> LooksInverter(m, seen, b)
  {
    hide InverterBytes, IsInverter, StackMode, Model;
    InverterExactlyWhen(t.id, b);
    assert b[..21] == b;
  }

  lemma {:induction false} GoodIsTaken(m: Ident, seen: nat, t: Tap, b: seq<byte>)
    requires InStep(m, seen, t) && GoodInverter(m, seen, t.phase, b)
    ensures |b| == INV_LEN && IsInverter(t.id, b) && b[20] == 0x00
    ensures IdentOf(b) == m
    ensures t.phase == AfterRemote ==> ReplyLen(b[0]) == 0
    ensures t.phase == AfterInverter ==> !Turnaround(b[0])
  {
    LooksExactlyWhen(m, seen, t, b);
    hide IsInverter, StackMode, Model, ReplyLen, BeginsReply;
    ReplyExactlyWhen(Unknown, b);
    TurnaroundExactlyWhen(b[0]);
  }

  lemma {:induction false} ReadInverter(m: Ident, seen: nat, t: Tap, p: Packet, rest: seq<byte>) returns (u: Tap)
    requires InStep(m, seen, t) && p.kind == Inverter && GoodInverter(m, seen, t.phase, p.bytes)
    requires t.buf == p.bytes + rest
    ensures TapRun(t) == TapRun(u) && Reads(m, seen + 1, t, u, [p], rest) && u.phase == AfterInverter
  {
    GoodIsTaken(m, seen, t, p.bytes);
    hide IsInverter, GoodInverter, ReplyLen, Turnaround, RemoteTypeOk;
    assert t.buf[..INV_LEN] == p.bytes && t.buf[INV_LEN..] == rest;
    var h := t.(phase := Hunt);
    assert TapRun(t) == TapRun(h) by {
      if t.phase == AfterInverter {
        assert RemoteTypeOk(t.buf[20]) ==> t.buf[20] == 0x00;
        assert TapStep(t) == Some(h);
      } else if t.phase == AfterRemote {
        assert TapStep(t) == Some(h);
      }
    }
    u := Take(h);
    assert TapStep(h) == Some(u);
    assert Sofar(u) == Sofar(t) + [p];
  }

  lemma {:induction false} ReadRemote(m: Ident, seen: nat, t: Tap, p: Packet, rest: seq<byte>) returns (u: Tap)
    requires InStep(m, seen, t) && t.phase == AfterInverter && p.kind == Remote && GoodRemote(m, seen, p.bytes)
    requires t.buf == p.bytes + rest
    ensures TapRun(t) == TapRun(u) && Reads(m, seen, t, u, [p], rest) && u.phase == AfterRemote
  {
    LooksExactlyWhen(m, seen, t, p.bytes);
    RemoteExactlyWhen(p.bytes);
    TurnaroundExactlyWhen(p.bytes[0]);
    hide IsInverter, LooksInverter, RemoteTypeOk, Turnaround;
    assert t.buf[..REMOTE_LEN] == p.bytes && t.buf[REMOTE_LEN..] == rest;
    u := Send(t, p).(phase := AfterRemote, buf := rest);
    assert TapStep(t) == Some(u);
    assert Sofar(u) == Sofar(t) + [p];
  }

  lemma {:induction false} ReadReply(m: Ident, seen: nat, t: Tap, p: Packet, rest: seq<byte>) returns (u: Tap)
    requires InStep(m, seen, t) && t.phase == AfterRemote && ReplyBytes(p.kind, p.bytes)
    requires t.buf == p.bytes + rest
    ensures TapRun(t) == TapRun(u) && Reads(m, seen, t, u, [p], rest) && u.phase == Hunt
  {
    ReplyIsShort(p.bytes[0]);
    ReplyExactlyWhen(p.kind, p.bytes);
    hide ReplyLen, ReplyKind, ReplyOk, ReplyBytes;
    var n := |p.bytes|;
    assert t.buf[..n] == p.bytes && t.buf[n..] == rest;
    u := Send(t, p).(phase := Hunt, buf := rest);
    assert TapStep(t) == Some(u);
    assert Sofar(u) == Sofar(t) + [p];
  }

  lemma {:induction false} ReadStray(m: Ident, seen: nat, t: Tap, b: byte, next: Packet, rest: seq<byte>)
    returns (u: Tap)
    requires InStep(m, seen, t) && t.phase == AfterInverter && LineRelease(b)
    requires RemoteBytes(next.bytes) && t.buf == [b] + (next.bytes + rest)
    ensures TapRun(t) == TapRun(u) && Reads(m, seen, t, u, [], next.bytes + rest) && u.phase == AfterInverter
  {
    RemoteExactlyWhen(next.bytes);
    TurnaroundExactlyWhen(b);
    hide IsInverter, Turnaround, RemoteTypeOk;
    assert t.buf[21] == next.bytes[20] && t.buf[1..] == next.bytes + rest;
    u := t.(buf := t.buf[1..]);
    assert TapStep(t) == Some(u);
    assert Sofar(t) + [] == Sofar(t);
  }

  lemma {:induction false} ReadPiece(m: Ident, seen: nat, t: Tap, ps: seq<Piece>) returns (u: Tap)
    requires ps != [] && Protocol(m, seen, t.phase, ps) && InStep(m, seen, t) && t.buf == Encode(ps)
    ensures TapRun(t) == TapRun(u)
    ensures Reads(m, Seen(ps[0], seen), t, u, Packets(ps[..1]), Encode(ps[1..])) && u.phase == NextPhase(ps[0])
  {
    hide TapRun, InStep, Reads;
    var x, rest := ps[0], ps[1..];
    assert ps[..1] == [x] && Packets(ps[..1]) == if x.Sent? then [x.p] else [];
    match x {
      case Sent(p) =>
        if p.kind == Inverter {
          u := ReadInverter(m, seen, t, p, Encode(rest));
        } else if p.kind == Remote {
          u := ReadRemote(m, seen, t, p, Encode(rest));
        } else {
          u := ReadReply(m, seen, t, p, Encode(rest));
        }
      case StrayOne(b) =>
        var next := rest[0].p;
        assert Encode(rest) == next.bytes + Encode(rest[1..]);
        u := ReadStray(m, seen, t, b, next, Encode(rest[1..]));
    }
  }

  lemma {:induction false} ReadsLeave(m: Ident, seen: nat, t: Tap, u: Tap, ps: seq<Packet>, rest: seq<byte>)
    requires Reads(m, seen, t, u, ps, rest)
    ensures InStep(m, seen, u) && u.buf == rest
  {}

  lemma {:induction false} ReadsOn(
      m: Ident, seen: nat, t: Tap, u: Tap, a: seq<Packet>, mid: seq<byte>, more: nat, v: Tap, b: seq<Packet>,
      rest: seq<byte>)
    requires Reads(m, seen, t, u, a, mid) && Reads(m, more, u, v, b, rest)
    ensures Reads(m, more, t, v, a + b, rest)
  {}

  lemma {:induction false} HeadAndTail(ps: seq<Piece>)
    requires ps != []
    ensures Packets(ps) == Packets(ps[..1]) + Packets(ps[1..])
  {
    assert ps[..1] == [ps[0]];
  }

  lemma {:induction false} ReadNothing(m: Ident, seen: nat, t: Tap)
    requires InStep(m, seen, t) && t.buf == []
    ensures Reads(m, seen, t, TapRun(t), [], [])
  {
    assert TapStep(t).None?;
    assert Sofar(t) + [] == Sofar(t);
  }

  lemma {:induction false} ReadAll(m: Ident, seen: nat, t: Tap, ps: seq<Piece>)
    requires Protocol(m, seen, t.phase, ps) && InStep(m, seen, t) && t.buf == Encode(ps)
    ensures Reads(m, seen + Inverters(ps), t, TapRun(t), Packets(ps), [])
    decreases |ps|
  {
    hide TapRun, GoodInverter, GoodRemote, ReplyBytes, InStep, Reads, LineRelease;
    if ps == [] {
      ReadNothing(m, seen, t);
    } else {
      var u := ReadPiece(m, seen, t, ps);
      var more := Seen(ps[0], seen);
      ReadsLeave(m, more, t, u, Packets(ps[..1]), Encode(ps[1..]));
      ReadAll(m, more, u, ps[1..]);
      HeadAndTail(ps);
      ReadsOn(m, more, t, u, Packets(ps[..1]), Encode(ps[1..]), more + Inverters(ps[1..]), TapRun(u),
              Packets(ps[1..]), []);
    }
  }

  // ----- The whole stream -----

  predicate InverterAt(s: seq<byte>, j: nat) {
    j + 21 <= |s| && AnyInverter(s[j..j + 21])
  }

  lemma {:induction false} StartsExactlyWhen(s: seq<byte>, j: nat)
    ensures StartsAt(None, s, j) <==> InverterAt(s, j)
  {
    hide AnyInverter, IsInverter;
    if j + 21 <= |s| {
      InverterExactlyWhen(None, s[j..j + 21]);
      assert s[j..j + 21][..21] == s[j..j + 21];
    }
  }

  /** No inverter packet can be seen to start inside the junk. */
  predicate Junk(junk: seq<byte>, rest: seq<byte>) {
    forall j :: 0 <= j < |junk| ==> !InverterAt(junk + rest, j)
  }

  lemma {:induction false} SkipJunk(t: Tap, junk: seq<byte>, rest: seq<byte>)
    requires t.buf == junk + rest && junk != [] && |rest| >= INV_LEN - 1
    requires t.phase == Hunt && t.id.None? && t.probe.None? && Junk(junk, rest)
    ensures TapRun(t) == TapRun(SkipMany(t, |junk|))
    ensures SkipMany(t, |junk|).buf == rest
    ensures SkipMany(t, |junk|).runs == AddUnknown(t.runs, junk)
  {
    forall j | 0 <= j < |junk| ensures !StartsAt(None, t.buf, j) {
      StartsExactlyWhen(t.buf, j);
    }
    SkipManyRuns(t, |junk|);
    assert t.buf[|junk|..] == rest && t.buf[..|junk|] == junk;
  }

  lemma {:induction false} OnlyTyped(m: Ident, seen: nat, phase: Phase, ps: seq<Piece>)
    requires Protocol(m, seen, phase, ps)
    ensures AllTyped(Packets(ps))
    ensures |Encode(ps)| >= if Inverters(ps) > 0 then INV_LEN else 0
    decreases |ps|
  {
    if ps != [] {
      OnlyTyped(m, Seen(ps[0], seen), NextPhase(ps[0]), ps[1..]);
    }
  }

  lemma {:induction false} TypedSnoc(runs: seq<Packet>, last: Packet)
    ensures Typed(runs + [last]) == Typed(runs) + if last.kind == Unknown then [] else [last]
  {
    assert (runs + [last])[..|runs|] == runs;
  }

  lemma {:induction false} TypedTail(runs: seq<Packet>, ps: seq<Packet>)
    requires AllTyped(ps)
    ensures Typed(runs + ps) == Typed(runs) + ps
  {
    hide Typed;
    if ps == [] {
      assert runs + ps == runs;
    } else {
      var init, last := ps[..|ps| - 1], ps[|ps| - 1];
      TypedTail(runs, init);
      assert runs + ps == (runs + init) + [last];
      TypedSnoc(runs + init, last);
      assert ps == init + [last];
    }
  }

  function JunkRun(junk: seq<byte>): seq<Packet> {
    if junk == [] then [] else [Packet(Unknown, junk)]
  }

  lemma {:induction false} PastTheJunk(m: Ident, junk: seq<byte>, rest: seq<byte>) returns (t: Tap)
    requires Junk(junk, rest) && |rest| >= INV_LEN - 1
    ensures TapRun(Extend(Abs(INIT), junk + rest)) == TapRun(t)
    ensures t.buf == rest && t.runs == JunkRun(junk) && t.held == [] && t.phase == Hunt
    ensures InStep(m, 0, t)
    ensures t.stats == NO_STATS.(unknown := |junk|)
    ensures Typed(t.runs) == []
  {
    t := Extend(Abs(INIT), junk + rest);
    assert t.buf == junk + rest;
    if junk == [] {
      assert t.buf == rest;
    } else {
      SkipJunk(t, junk, rest);
      t := SkipMany(t, |junk|);
    }
  }

  /** Main result: a stream in protocol with at least two inverter packets is
      read back exactly.  Every packet sent is delivered, in order and with its
      kind; the junk before it is one skipped run; nothing is bad, skipped or
      left over; the inverter is known at the end. */
  lemma {:induction false} StreamReadBack(m: Ident, junk: seq<byte>, ps: seq<Piece>, chunks: seq<seq<byte>>)
    requires Protocol(m, 0, Hunt, ps) && Inverters(ps) >= 2 && Junk(junk, Encode(ps))
    requires Flatten(chunks) == junk + Encode(ps) && NoRelearn(INIT, chunks)
    ensures var r := FeedAll(INIT, chunks);
      && Merge(r.log) == JunkRun(junk) + Packets(ps) && Typed(r.log) == Packets(ps)
      && r.buf == [] && r.held == [] && r.id == Some(m)
      && r.stats.bad == 0 && r.stats.resyncs == 0 && r.stats.unknown == |junk|
  {
    hide TapRun, FeedAll, Merge, Typed, NoRelearn, Flatten, Protocol, Junk, Encode, Packets;
    var r := FeedAll(INIT, chunks);
    FeedAllRefines(INIT, chunks);
    OnlyTyped(m, 0, Hunt, ps);
    var t := PastTheJunk(m, junk, Encode(ps));
    ReadAll(m, 0, t, ps);
    assert Sofar(Abs(r)) == Merge(r.log);
    MergeMeaning(r.log);
    TypedTail(t.runs, Packets(ps));
  }

  /** One feed from the initial state never relearns, so a whole capture fed
      at once is read back without that condition. */
  lemma {:induction false} CaptureReadBack(m: Ident, junk: seq<byte>, ps: seq<Piece>)
    requires Protocol(m, 0, Hunt, ps) && Inverters(ps) >= 2 && Junk(junk, Encode(ps))
    ensures Typed(Feed(INIT, junk + Encode(ps)).log) == Packets(ps)
  {
    var all := junk + Encode(ps);
    var chunks := [all];
    assert chunks[..0] == [] && Flatten(chunks) == all;
    assert FeedAll(INIT, chunks) == Feed(INIT, all);
    StreamReadBack(m, junk, ps, chunks);
  }
}
