/** What the assembler is for: the frames sent are the frames read, however the
    bytes are cut, as long as the chunks leave room for a frame in the buffer. */
module JkReadBack {
  import opened Bytes
  import opened Jk

  /** The widest chunk that fits behind an unfinished frame. */
  const WIDEST := 213

  /** A frame and the noise before it. */
  datatype Segment = Segment(noise: seq<byte>, frame: seq<byte>)

  function Stream(segs: seq<Segment>): seq<byte> {
    if segs == [] then [] else segs[0].noise + segs[0].frame + Stream(segs[1..])
  }

  function Sent(segs: seq<Segment>): seq<seq<byte>> {
    if segs == [] then [] else [segs[0].frame] + Sent(segs[1..])
  }

  function NoiseCount(segs: seq<Segment>): nat {
    if segs == [] then 0 else |segs[0].noise| + NoiseCount(segs[1..])
  }

  predicate FrameAt(s: seq<byte>, i: nat) {
    i + 300 <= |s| && FrameBytes(s[i..i + 300])
  }

  /** A whole frame, and no other begins in the noise: damaged frames, cut ones and
      stray headers are noise too. */
  predicate Clean(s: Segment) {
    FrameBytes(s.frame) && forall i :: 0 <= i < |s.noise| ==> !FrameAt(s.noise + s.frame, i)
  }

  /** Not even a header begins in the noise. */
  predicate Quiet(s: Segment) {
    forall i :: 0 <= i < |s.noise| ==> !MonitorHeader(s.noise + s.frame, i)
  }

  predicate AllQuiet(segs: seq<Segment>) {
    forall i :: 0 <= i < |segs| ==> Quiet(segs[i])
  }

  predicate AllClean(segs: seq<Segment>) {
    forall i :: 0 <= i < |segs| ==> Clean(segs[i])
  }

  // ----- One turn of the drain loop -----

  lemma {:induction false} HeaderInPrefix(a: seq<byte>, b: seq<byte>, i: nat)
    requires i + 4 <= |a|
    ensures HeaderAt(a + b, i) == HeaderAt(a, i)
  {
    assert (a + b)[i..i + 4] == a[i..i + 4];
  }

  /** In a clean stream the first frame is right behind the noise. */
  lemma {:induction false} FirstFrame(segs: seq<Segment>)
    requires AllClean(segs) && segs != []
    ensures var t, n := Stream(segs), |segs[0].noise|;
      && |t| >= n + 300 && t[n..n + 300] == segs[0].frame && HeaderAt(t, n)
      && FrameBytes(segs[0].frame)
      && (forall i :: 0 <= i < n ==> !FrameAt(t, i))
      && (Quiet(segs[0]) ==> forall i :: 0 <= i < n ==> !HeaderAt(t, i))
  {
    hide FrameBytes;
    var s, t := segs[0], Stream(segs);
    var n := |s.noise|;
    assert t == (s.noise + s.frame) + Stream(segs[1..]);
    FrameIsLong(s.frame);
    assert t[n..n + 300] == s.frame;
    assert t[n..n + 4] == s.frame[0..4];
    HeaderExactlyWhen(s.frame, 0);
    forall i | 0 <= i < n ensures !FrameAt(t, i) {
      assert t[i..i + 300] == (s.noise + s.frame)[i..i + 300];
      assert !FrameAt(s.noise + s.frame, i);
    }
    forall i | 0 <= i < n && Quiet(s) ensures !HeaderAt(t, i) {
      HeaderInPrefix(s.noise + s.frame, Stream(segs[1..]), i);
      HeaderExactlyWhen(s.noise + s.frame, i);
    }
  }

  lemma {:induction false} FrameIsLong(f: seq<byte>)
    requires FrameBytes(f)
    ensures |f| == 300 && MonitorHeader(f, 0)
  {}

  /** What a turn finds in a buffer that begins a clean stream. */
  lemma {:induction false} LookClean(buf: seq<byte>, future: seq<byte>, segs: seq<Segment>)
    requires AllClean(segs) && segs != [] && buf + future == Stream(segs)
    ensures var l, n := Look(buf), |segs[0].noise|;
      && (l.NoHeader? ==> |buf| - 4 <= n)
      && (l.HeaderLater? ==> l.at <= n)
      && (l.BadFrame? ==> l.keep <= n && !Quiet(segs[0]))
      && (l.GoodFrame? ==> n == 0 && buf[..FRAME] == segs[0].frame)
  {
    hide FrameBytes, WellFormed, AllClean, Quiet, HeaderAt;
    var t, n := Stream(segs), |segs[0].noise|;
    FirstFrame(segs);
    forall i | 0 <= i && i + 4 <= |buf| ensures HeaderAt(buf, i) == HeaderAt(t, i) {
      HeaderInPrefix(buf, future, i);
    }
    if |buf| >= FRAME {
      assert buf[..FRAME] == t[0..300];
      FrameExactlyWhen(buf[..FRAME]);
      assert n > 0 ==> !FrameAt(t, 0);
      assert HeaderAt(t, 0) && n > 0 ==> !Quiet(segs[0]);
    }
    assert n + 4 <= |buf| ==> FindHeader(buf, 0) <= n;
    assert 1 <= n && n + 4 <= |buf| ==> FindHeader(buf, 1) <= n;
  }

  /** Dropping some of the noise leaves a clean stream. */
  lemma {:induction false} DropNoise(segs: seq<Segment>, k: nat) returns (rest: seq<Segment>)
    requires AllClean(segs) && segs != [] && k <= |segs[0].noise|
    ensures AllClean(rest) && Stream(rest) == Stream(segs)[k..] && Sent(rest) == Sent(segs)
    ensures NoiseCount(rest) + k == NoiseCount(segs)
    ensures AllQuiet(segs) ==> AllQuiet(rest)
  {
    hide FrameBytes;
    var s := segs[0];
    var cut := Segment(s.noise[k..], s.frame);
    var all := s.noise + s.frame;
    rest := [cut] + segs[1..];
    assert rest[1..] == segs[1..];
    assert cut.noise + cut.frame == all[k..];
    forall i | 0 <= i < |cut.noise| ensures !FrameAt(all[k..], i) {
      assert !FrameAt(all, i + k);
      assert i + 300 <= |all[k..]| ==> all[k..][i..i + 300] == all[i + k..i + k + 300];
    }
    assert Clean(cut);
    if AllQuiet(segs) {
      assert Quiet(s);
      forall i | 0 <= i < |cut.noise| ensures !MonitorHeader(all[k..], i) {
        assert !MonitorHeader(all, i + k);
      }
      assert Quiet(cut);
    }
  }

  // ----- Draining -----

  ghost predicate Reads(d: Drained, future: seq<byte>, segs: seq<Segment>, rest: seq<Segment>) {
    && AllClean(rest) && d.buf + future == Stream(rest)
    && Frames(d.pieces) + Sent(rest) == Sent(segs)
    && LostCount(d.pieces) + NoiseCount(rest) == NoiseCount(segs)
    && (AllQuiet(segs) ==> AllQuiet(rest) && d.corrupt == 0)
  }

  lemma {:induction false} ReadsNothing(buf: seq<byte>, future: seq<byte>, segs: seq<Segment>)
    requires AllClean(segs) && buf + future == Stream(segs)
    ensures Reads(Drained(buf, [], 0), future, segs, segs)
  {}

  lemma {:induction false} ReadsLost(
      bytes: seq<byte>, d: Drained, r: Drained, future: seq<byte>, segs: seq<Segment>, next: seq<Segment>,
      rest: seq<Segment>)
    requires Reads(d, future, next, rest) && (AllQuiet(segs) ==> AllQuiet(next))
    requires Sent(next) == Sent(segs) && NoiseCount(next) + |bytes| == NoiseCount(segs)
    requires r.buf == d.buf && r.pieces == [Lost(bytes)] + d.pieces && (AllQuiet(segs) ==> r.corrupt == d.corrupt)
    ensures Reads(r, future, segs, rest)
  {
    hide AllClean, AllQuiet;
    assert r.pieces[1..] == d.pieces;
  }

  lemma {:induction false} ReadsTaken(d: Drained, future: seq<byte>, segs: seq<Segment>, rest: seq<Segment>)
    requires segs != [] && segs[0].noise == [] && Reads(d, future, segs[1..], rest)
    ensures Reads(Prepend(Taken(segs[0].frame), d), future, segs, rest)
  {
    hide AllClean, Quiet;
    var all := [Taken(segs[0].frame)] + d.pieces;
    assert all[1..] == d.pieces;
    assert Frames(all) + Sent(rest) == [segs[0].frame] + (Frames(d.pieces) + Sent(rest));
  }

  lemma {:induction false} DrainReads(buf: seq<byte>, future: seq<byte>, segs: seq<Segment>, room: nat)
      returns (rest: seq<Segment>)
    requires AllClean(segs) && buf + future == Stream(segs)
    ensures Reads(Drain(buf, room), future, segs, rest)
    decreases |buf|
  {
    hide Look, AllClean, AllQuiet, Reads, HeaderAt, WellFormed;
    rest := segs;
    ReadsNothing(buf, future, segs);
    if room > 0 && segs != [] {
      LookClean(buf, future, segs);
      match Look(buf)
      case Short =>
      case NoHeader =>
        var n := |buf| - 4;
        rest := DropNoise(segs, n);
        assert buf[n..] + future == Stream(segs)[n..];
        ReadsNothing(buf[n..], future, rest);
        ReadsLost(buf[..n], Drained(buf[n..], [], 0), Drain(buf, room), future, segs, rest, rest);
      case HeaderLater(h) =>
        var next := DropNoise(segs, h);
        assert buf[h..] + future == Stream(segs)[h..];
        rest := DrainReads(buf[h..], future, next, room);
        ReadsLost(buf[..h], Drain(buf[h..], room), Drain(buf, room), future, segs, next, rest);
      case GoodFrame =>
        FrameTaken(buf, future, segs);
        rest := DrainReads(buf[FRAME..], future, segs[1..], room - 1);
        ReadsTaken(Drain(buf[FRAME..], room - 1), future, segs, rest);
      case BadFrame(k) =>
        var next := DropNoise(segs, k);
        assert buf[k..] + future == Stream(segs)[k..];
        rest := DrainReads(buf[k..], future, next, room);
        NotAllQuiet(segs);
        ReadsLost(buf[..k], Drain(buf[k..], room), Drain(buf, room), future, segs, next, rest);
    } else if room > 0 {
      assert Stream(segs) == [];
      assert buf == [];
      LookEmpty();
    }
  }

  lemma {:induction false} NotAllQuiet(segs: seq<Segment>)
    requires segs != [] && !Quiet(segs[0])
    ensures !AllQuiet(segs)
  {
    hide Quiet;
  }

  lemma {:induction false} LookEmpty()
    ensures Look([]) == Short
  {}

  lemma {:induction false} FrameTaken(buf: seq<byte>, future: seq<byte>, segs: seq<Segment>)
    requires AllClean(segs) && segs != [] && segs[0].noise == [] && buf + future == Stream(segs)
    requires |buf| >= FRAME && buf[..FRAME] == segs[0].frame
    ensures AllClean(segs[1..]) && buf[FRAME..] + future == Stream(segs[1..])
  {
    hide Clean;
    var s := segs[0];
    assert Stream(segs) == s.frame + Stream(segs[1..]);
    assert (buf + future)[FRAME..] == buf[FRAME..] + future;
    assert (s.frame + Stream(segs[1..]))[FRAME..] == Stream(segs[1..]);
  }

  /** A drained buffer holds less than a frame. */
  lemma {:induction false} DrainShrinks(buf: seq<byte>, room: nat)
    requires room > 0 && |buf| < 2 * FRAME
    ensures |Drain(buf, room).buf| < FRAME
    decreases |buf|
  {
    hide Look, WellFormed, HeaderAt;
    match Look(buf)
    case HeaderLater(h) => DrainShrinks(buf[h..], room);
    case BadFrame(keep) => DrainShrinks(buf[keep..], room);
    case _ =>
  }

  // ----- Runs -----

  predicate Within(calls: seq<Call>, width: nat) {
    forall i :: 0 <= i < |calls| ==> |Strip(calls[i].chunk)| <= width && calls[i].room > 0
  }

  /** Chunks of at most 213 bytes never overflow, and every call leaves less
      than a frame behind. */
  lemma {:induction false} NeverOverflows(calls: seq<Call>)
    requires Within(calls, WIDEST)
    ensures RunAll(calls).overflow == 0 && |RunAll(calls).asm.buf| < FRAME
    decreases |calls|
  {
    hide Strip, Next, Within, Drain;
    if calls != [] {
      var before, c := calls[..|calls| - 1], calls[|calls| - 1];
      WithinLast(calls, WIDEST);
      NeverOverflows(before);
      NextFits(RunAll(before), c);
    }
  }

  lemma {:induction false} WithinLast(calls: seq<Call>, width: nat)
    requires Within(calls, width) && calls != []
    ensures Within(calls[..|calls| - 1], width)
    ensures |Strip(calls[|calls| - 1].chunk)| <= width && calls[|calls| - 1].room > 0
  {
    hide Strip;
  }

  lemma {:induction false} NextFits(r: Run, c: Call)
    requires Ok(r.asm) && r.overflow == 0 && |r.asm.buf| < FRAME && |Strip(c.chunk)| <= WIDEST && c.room > 0
    ensures Next(r, c).overflow == 0 && |Next(r, c).asm.buf| < FRAME
  {
    hide Strip, Drain, Wrap, LostCount;
    DrainShrinks(r.asm.buf + Strip(c.chunk), c.room);
  }

  /** What was fed, without the junk around the chunks. */
  function Bodies(calls: seq<Call>): seq<byte> {
    if calls == [] then [] else Bodies(calls[..|calls| - 1]) + Strip(calls[|calls| - 1].chunk)
  }

  ghost predicate HasRead(r: Run, future: seq<byte>, segs: seq<Segment>, rest: seq<Segment>) {
    && AllClean(rest) && r.asm.buf + future == Stream(rest)
    && Frames(r.pieces) + Sent(rest) == Sent(segs)
    && LostCount(r.pieces) + NoiseCount(rest) == NoiseCount(segs)
    && (AllQuiet(segs) ==> AllQuiet(rest) && r.corrupt == 0)
  }

  lemma {:induction false} ReadSoFar(calls: seq<Call>, future: seq<byte>, segs: seq<Segment>)
      returns (rest: seq<Segment>)
    requires Within(calls, WIDEST) && AllClean(segs) && Bodies(calls) + future == Stream(segs)
    ensures HasRead(RunAll(calls), future, segs, rest)
    decreases |calls|
  {
    hide Strip, AllClean, AllQuiet, Reads, Drain, HasRead, FeedChunk, Feed;
    if calls == [] {
      rest := segs;
      NothingRead(future, segs);
    } else {
      var before, c := calls[..|calls| - 1], calls[|calls| - 1];
      var body := Strip(c.chunk);
      assert Bodies(before) + (body + future) == Bodies(calls) + future;
      assert forall i :: 0 <= i < |before| ==> before[i] == calls[i];
      var mid := ReadSoFar(before, body + future, segs);
      NeverOverflows(before);
      NeverOverflows(calls);
      rest := NextReads(RunAll(before), c, future, segs, mid);
    }
  }

  lemma {:induction false} NothingRead(future: seq<byte>, segs: seq<Segment>)
    requires AllClean(segs) && future == Stream(segs)
    ensures HasRead(RunAll([]), future, segs, segs)
  {
    assert [] + future == future;
  }

  lemma {:induction false} NextReads(r: Run, c: Call, future: seq<byte>, segs: seq<Segment>, mid: seq<Segment>)
      returns (rest: seq<Segment>)
    requires Ok(r.asm) && HasRead(r, Strip(c.chunk) + future, segs, mid)
    requires r.overflow == 0 && Next(r, c).overflow == 0
    ensures HasRead(Next(r, c), future, segs, rest)
  {
    hide Strip, AllClean, AllQuiet, Drain, Reads;
    var body := Strip(c.chunk);
    assert (r.asm.buf + body) + future == r.asm.buf + (body + future);
    var f := FeedChunk(r.asm.buf, c.chunk, c.room);
    if body == [] && |r.asm.buf| < FRAME {
      rest := mid;
      assert body + future == future;
      ReadsNothing(r.asm.buf, future, mid);
    } else {
      assert |body| <= CAPACITY - |r.asm.buf|;
      rest := DrainReads(r.asm.buf + body, future, mid, c.room);
    }
    assert Reads(f.drained, future, mid, rest);
    hide FeedChunk, Feed, HasRead;
    Continued(r, Next(r, c), f.drained, body + future, future, segs, mid, rest);
  }

  lemma {:induction false} Continued(
      r: Run, n: Run, d: Drained, before: seq<byte>, future: seq<byte>,
      segs: seq<Segment>, mid: seq<Segment>, rest: seq<Segment>)
    requires HasRead(r, before, segs, mid) && Reads(d, future, mid, rest)
    requires n.asm.buf == d.buf && n.pieces == r.pieces + d.pieces && n.corrupt == r.corrupt + d.corrupt
    ensures HasRead(n, future, segs, rest)
  {
    hide AllClean, AllQuiet;
    FramesAppend(r.pieces, d.pieces);
    assert Frames(n.pieces) + Sent(rest) == Frames(r.pieces) + (Frames(d.pieces) + Sent(rest));
  }

  lemma {:induction false} ShortStreamIsOver(segs: seq<Segment>)
    requires AllClean(segs) && |Stream(segs)| < FRAME
    ensures segs == []
  {}

  /** However a stream is cut into chunks of at most 213 bytes, with or without junk
      around them, the frames read are the frames sent, in order, and all that is
      dropped is the noise, damaged frames included; with no header in the noise
      nothing is counted as corrupt. */
  lemma {:induction false} FramesReadBack(calls: seq<Call>, segs: seq<Segment>)
    requires Within(calls, WIDEST) && AllClean(segs) && Bodies(calls) == Stream(segs)
    ensures var r := RunAll(calls);
      && Frames(r.pieces) == Sent(segs) && r.asm.buf == []
      && r.asm.dropped == Wrap(NoiseCount(segs)) && (AllQuiet(segs) ==> r.asm.corrupt == 0)
  {
    hide Strip, AllClean, AllQuiet, FeedChunk, Feed, Wrap;
    assert Bodies(calls) + [] == Stream(segs);
    var rest := ReadSoFar(calls, [], segs);
    NeverOverflows(calls);
    ShortStreamIsOver(rest);
    EveryRunIsConserved(calls);
    WrapZero();
  }

  lemma {:induction false} WrapZero()
    ensures Wrap(0) == 0
  {}

  // ----- Wider chunks -----

  /** The start of a frame stays in the buffer. */
  lemma {:induction false} StartIsKept(buf: seq<byte>, chunk: seq<byte>)
    requires |buf + chunk| < FRAME && HeaderAt(buf + chunk, 0) && Strip(chunk) == chunk
    ensures FeedChunk(buf, chunk, 1) == Fed(Drained(buf + chunk, [], 0), [])
  {
    hide Strip, WellFormed;
    assert buf + [] == buf;
    assert FindHeader(buf + chunk, 0) == 0;
  }

  /** Nothing has come out of these calls but this much is in. */
  ghost predicate Holds(calls: seq<Call>, buf: seq<byte>) {
    RunAll(calls).asm.buf == buf && RunAll(calls).pieces == [] && RunAll(calls).overflow == 0
  }

  lemma {:induction false} HoldsMore(calls: seq<Call>, buf: seq<byte>, chunk: seq<byte>)
    requires Holds(calls, buf) && |buf + chunk| < FRAME && HeaderAt(buf + chunk, 0) && Strip(chunk) == chunk
    ensures Holds(calls + [Call(chunk, 1)], buf + chunk)
  {
    hide Wrap, HeaderAt, Strip, FeedChunk;
    StartIsKept(buf, chunk);
    assert (calls + [Call(chunk, 1)])[..|calls|] == calls;
  }

  /** The first 513 bytes of two frames: up to one byte before the end of the
      first in two chunks, the rest in a third. */
  function ThreeChunks(t: seq<byte>): seq<Call>
    requires |t| == FRAME + WIDEST
  {
    [Call(t[..85], 1)] + [Call(t[85..FRAME - 1], 1)] + [Call(t[FRAME - 1..], 1)]
  }

  predicate Bare(calls: seq<Call>) {
    forall i :: 0 <= i < |calls| ==> Strip(calls[i].chunk) == calls[i].chunk
  }

  /** The bound is sharp: no chunk is wider than 214 bytes, and one is lost. */
  lemma {:induction false} WiderOverflows(t: seq<byte>)
    requires |t| == FRAME + WIDEST && HeaderAt(t, 0) && Bare(ThreeChunks(t))
    ensures RunAll(ThreeChunks(t)).overflow == 1 && RunAll(ThreeChunks(t)).pieces == []
    ensures forall i :: 0 <= i < 3 ==> |ThreeChunks(t)[i].chunk| <= WIDEST + 1
  {
    hide Strip, FeedChunk;
    var a, b, c := t[..85], t[85..FRAME - 1], t[FRAME - 1..];
    var calls := ThreeChunks(t);
    assert Strip(calls[0].chunk) == a && Strip(calls[1].chunk) == b && Strip(calls[2].chunk) == c;
    assert [] + a == a && a[0..4] == t[0..4] && (a + b)[0..4] == t[0..4];
    var two := [Call(a, 1)] + [Call(b, 1)];
    assert Holds(two, a + b) by {
      assert Holds([], []);
      assert [] + [Call(a, 1)] == [Call(a, 1)];
      HoldsMore([], [], a);
      HoldsMore([Call(a, 1)], a, b);
    }
    LastOverflows(two, a + b, c);
  }

  lemma {:induction false} LastOverflows(calls: seq<Call>, buf: seq<byte>, chunk: seq<byte>)
    requires Holds(calls, buf) && |buf| == FRAME - 1 && Strip(chunk) == chunk && |chunk| == WIDEST + 1
    ensures var r := RunAll(calls + [Call(chunk, 1)]); r.overflow == 1 && r.pieces == []
  {
    hide Wrap, Strip, Drain;
    assert (calls + [Call(chunk, 1)])[..|calls|] == calls;
  }

  /** Nothing is ever lost for lack of room by calls no wider than this. */
  ghost predicate NeverLoses(width: nat) {
    forall calls :: Within(calls, width) ==> RunAll(calls).overflow == 0
  }

  /** A frame of zeros. */
  function ZeroFrame(): (f: seq<byte>)
    ensures WellFormed(f) && forall i :: 5 <= i < FRAME - 1 ==> f[i] == 0
  {
    var f := HEADER + [0x01] + seq(FRAME - 6, _ => 0);
    assert (f + [Sum(f)])[..FRAME - 1] == f && f[0..4] == HEADER;
    f + [Sum(f)]
  }

  /** The beginning of two of them. */
  function ZeroFrames(): (t: seq<byte>)
    ensures |t| == FRAME + WIDEST && HeaderAt(t, 0)
    ensures t[1] == 0xAA && t[84] == t[86] == t[FRAME - 2] == 0 && t[FRAME] == 0x55 && t[FRAME + WIDEST - 1] == 0
  {
    var f := ZeroFrame();
    var t := f + f[..WIDEST];
    assert t[0..4] == f[0..4];
    assert f[0..4][0] == 0x55 && f[0..4][1] == 0xAA;
    t
  }

  lemma {:induction false} ZeroChunksAreBare()
    ensures Bare(ThreeChunks(ZeroFrames()))
  {
    hide Sum, ZeroFrame, ZeroFrames, HeaderAt, Strip;
    var t := ZeroFrames();
    NoJunk(t[..85]);
    NoJunk(t[85..FRAME - 1]);
    NoJunk(t[FRAME - 1..]);
  }

  lemma {:induction false} NoJunk(chunk: seq<byte>)
    requires |chunk| >= 4 && chunk[1] != AT_JUNK[1] && chunk[|chunk| - 1] == 0
    ensures Strip(chunk) == chunk
  {
    assert chunk[..4][1] == chunk[1];
    assert chunk[|chunk| - 4..][3] == 0;
  }

  /** Calls never overflow the buffer, whatever they bring, if and only if they
      are kept to 213 bytes. */
  lemma {:induction false} NeverLosesExactlyWhen(width: nat)
    ensures NeverLoses(width) <==> width <= WIDEST
  {
    hide Strip, RunAll, ZeroFrames;
    if width <= WIDEST {
      forall calls | Within(calls, width) ensures RunAll(calls).overflow == 0 {
        assert Within(calls, WIDEST);
        NeverOverflows(calls);
      }
    } else {
      ZeroChunksAreBare();
      WiderOverflows(ZeroFrames());
      assert Within(ThreeChunks(ZeroFrames()), width);
    }
  }

  /** A full buffer is left alone, and everything fed is dropped, until a call
      brings nothing but junk. */
  lemma {:induction false} FullBufferIsStuck(buf: seq<byte>, chunk: seq<byte>, room: nat)
    requires |buf| == CAPACITY && room > 0
    ensures var f := FeedChunk(buf, chunk, room);
      if Strip(chunk) != [] then f == Fed(Drained(buf, [], 0), Strip(chunk))
      else |f.drained.buf| < FRAME && f.overflow == []
  {
    hide Strip, Drain;
    if Strip(chunk) == [] {
      DrainShrinks(buf + Strip(chunk), room);
    } else {
      assert buf + Strip(chunk)[..0] == buf;
    }
  }

  /** ... so no later call with bytes in it yields a frame. */
  lemma {:induction false} StuckForever(calls: seq<Call>, more: seq<Call>)
    requires |RunAll(calls).asm.buf| == CAPACITY
    requires forall i :: 0 <= i < |more| ==> Strip(more[i].chunk) != [] && more[i].room > 0
    ensures RunAll(calls + more).asm.buf == RunAll(calls).asm.buf
    ensures RunAll(calls + more).pieces == RunAll(calls).pieces
    decreases |more|
  {
    hide Strip, FeedChunk, Wrap;
    if more == [] {
      assert calls + more == calls;
    } else {
      var c := more[|more| - 1];
      var all := calls + more;
      assert all[..|all| - 1] == calls + more[..|more| - 1];
      StuckForever(calls, more[..|more| - 1]);
      FullBufferIsStuck(RunAll(all[..|all| - 1]).asm.buf, c.chunk, c.room);
    }
  }
}
