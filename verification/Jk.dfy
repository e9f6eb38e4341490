/** The JK battery monitor's frame assembler (src/jk/jk_proto.c), as functions
    on byte strings. */
module Jk {
  import opened Bytes

  const FRAME := 300
  const CAPACITY := 512
  const WRAP := 0x1_0000_0000

  /** A 32-bit counter. */
  function Wrap(n: nat): (w: nat)
    ensures w < WRAP
  {
    n % WRAP
  }

  const HEADER: seq<byte> := [0x55, 0xAA, 0xEB, 0x90]
  const AT_JUNK: seq<byte> := [0x41, 0x54, 0x0D, 0x0A]

  /** jk_crc8(): the sum of the bytes in eight bits. */
  function Sum(s: seq<byte>): (c: byte) {
    if s == [] then 0 else (Sum(s[..|s| - 1]) + s[|s| - 1]) % 256
  }

  predicate HeaderAt(s: seq<byte>, i: nat) {
    i + 4 <= |s| && s[i..i + 4] == HEADER
  }

  /** A frame as the monitor sends it: cell info, settings or device info. */
  predicate WellFormed(f: seq<byte>) {
    && |f| == FRAME && HeaderAt(f, 0)
    && f[4] in {0x01, 0x02, 0x03}
    && f[FRAME - 1] == Sum(f[..FRAME - 1])
  }

  // ----- What the monitor sends -----

  function Total(s: seq<byte>): nat {
    if s == [] then 0 else Total(s[..|s| - 1]) + s[|s| - 1]
  }

  predicate MonitorHeader(s: seq<byte>, i: nat) {
    i + 4 <= |s| && s[i] == 0x55 && s[i + 1] == 0xAA && s[i + 2] == 0xEB && s[i + 3] == 0x90
  }

  /** 300 bytes: a header, what it is about, and last the total of all others in
      eight bits. */
  predicate FrameBytes(f: seq<byte>) {
    |f| == 300 && MonitorHeader(f, 0) && 1 <= f[4] <= 3 && f[299] as int == Total(f[..299]) % 256
  }

  lemma {:induction false} SumIsTotal(s: seq<byte>)
    ensures Sum(s) as int == Total(s) % 256
  {
    if s != [] {
      SumIsTotal(s[..|s| - 1]);
    }
  }

  lemma {:induction false} HeaderExactlyWhen(s: seq<byte>, i: nat)
    ensures HeaderAt(s, i) <==> MonitorHeader(s, i)
  {
    if i + 4 <= |s| {
      assert s[i..i + 4] == [s[i], s[i + 1], s[i + 2], s[i + 3]];
    }
  }

  /** What the assembler checks is exactly that. */
  lemma {:induction false} FrameExactlyWhen(f: seq<byte>)
    ensures WellFormed(f) <==> FrameBytes(f)
  {
    hide Sum, Total;
    HeaderExactlyWhen(f, 0);
    if |f| == 300 {
      SumIsTotal(f[..299]);
    }
  }

  /** The first header at or after i, or a position too late for one. */
  function FindHeader(s: seq<byte>, i: nat): (h: nat)
    ensures h >= i
    ensures h + 4 <= |s| ==> HeaderAt(s, h)
    ensures forall k :: i <= k < h ==> !HeaderAt(s, k)
    decreases |s| - i
  {
    if i + 4 > |s| || HeaderAt(s, i) then i else FindHeader(s, i + 1)
  }

  // ----- Junk -----

  function Lead(chunk: seq<byte>): (n: nat)
    ensures n <= |chunk|
  {
    if |chunk| >= 4 && chunk[..4] == AT_JUNK then 4 else 0
  }

  function Tail(chunk: seq<byte>): (n: nat)
    ensures n <= |chunk|
  {
    if |chunk| >= 4 && chunk[|chunk| - 4..] == AT_JUNK then 4 else 0
  }

  /** The chunk without the modem's replies around it. */
  function Strip(chunk: seq<byte>): (s: seq<byte>)
    ensures |s| <= |chunk|
  {
    var rest := chunk[Lead(chunk)..];
    rest[..|rest| - Tail(rest)]
  }

  // ----- Draining -----

  datatype Piece = Taken(frame: seq<byte>) | Lost(bytes: seq<byte>)

  /** The buffer, what became of the bytes before it, and the frames found bad. */
  datatype Drained = Drained(buf: seq<byte>, pieces: seq<Piece>, corrupt: nat)

  function Frames(pieces: seq<Piece>): seq<seq<byte>> {
    if pieces == [] then []
    else (if pieces[0].Taken? then [pieces[0].frame] else []) + Frames(pieces[1..])
  }

  function LostCount(pieces: seq<Piece>): nat {
    if pieces == [] then 0
    else (if pieces[0].Lost? then |pieces[0].bytes| else 0) + LostCount(pieces[1..])
  }

  function BytesOf(p: Piece): seq<byte> {
    if p.Taken? then p.frame else p.bytes
  }

  function Contents(pieces: seq<Piece>): seq<byte> {
    if pieces == [] then [] else BytesOf(pieces[0]) + Contents(pieces[1..])
  }

  function Prepend(p: Piece, d: Drained): Drained {
    d.(pieces := [p] + d.pieces)
  }

  /** What one turn of the drain loop finds in the buffer. */
  datatype Sight =
    | Short                // nothing to do yet
    | NoHeader             // only the last four bytes are worth keeping
    | HeaderLater(at: nat)
    | GoodFrame
    | BadFrame(keep: nat)  // where the next header, or the last four bytes, begin

  function Look(buf: seq<byte>): (l: Sight)
    ensures l.Short? ==> |buf| < FRAME
    ensures l.NoHeader? ==> |buf| > 4
    ensures l.HeaderLater? ==> 0 < l.at && l.at + 4 <= |buf|
    ensures l.GoodFrame? ==> |buf| >= FRAME && WellFormed(buf[..FRAME])
    ensures l.BadFrame? ==> |buf| >= FRAME && 0 < l.keep && l.keep + 4 <= |buf|
  {
    var h, next := FindHeader(buf, 0), FindHeader(buf, 1);
    if |buf| < 4 then Short
    else if h + 4 > |buf| then if |buf| > 4 then NoHeader else Short
    else if h > 0 then HeaderLater(h)
    else if |buf| < FRAME then Short
    else if WellFormed(buf[..FRAME]) then GoodFrame
    else BadFrame(if next + 4 <= |buf| then next else |buf| - 4)
  }

  /** The drain loop with room for so many frames. */
  function Drain(buf: seq<byte>, room: nat): (d: Drained)
    ensures |d.buf| <= |buf|
    decreases |buf|
  {
    if room == 0 then Drained(buf, [], 0)
    else
      match Look(buf)
      case Short => Drained(buf, [], 0)
      case NoHeader => Drained(buf[|buf| - 4..], [Lost(buf[..|buf| - 4])], 0)
      case HeaderLater(h) => Prepend(Lost(buf[..h]), Drain(buf[h..], room))
      case GoodFrame => Prepend(Taken(buf[..FRAME]), Drain(buf[FRAME..], room - 1))
      case BadFrame(keep) => Reject(buf[..keep], Drain(buf[keep..], room))
  }

  function Reject(bytes: seq<byte>, d: Drained): Drained {
    Drained(d.buf, [Lost(bytes)] + d.pieces, d.corrupt + 1)
  }

  // ----- Feeding -----

  /** What one feed did: what was drained, and what did not fit. */
  datatype Fed = Fed(drained: Drained, overflow: seq<byte>)

  function FeedChunk(buf: seq<byte>, chunk: seq<byte>, room: nat): (f: Fed)
    requires |buf| <= CAPACITY
    ensures |f.drained.buf| <= CAPACITY && |f.overflow| <= |Strip(chunk)|
  {
    var body := Strip(chunk);
    var avail := CAPACITY - |buf|;
    if body == [] && |buf| < FRAME then Fed(Drained(buf, [], 0), [])
    else if |body| > avail then Fed(Drained(buf + body[..avail], [], 0), body[avail..])
    else Fed(Drain(buf + body, room), [])
  }

  /** jk_frame_assembler_t; the counters are 32 bits wide. */
  datatype Assembler = Assembler(buf: seq<byte>, dropped: nat, corrupt: nat)

  const EMPTY := Assembler([], 0, 0)

  predicate Ok(a: Assembler) {
    |a.buf| <= CAPACITY && a.dropped < WRAP && a.corrupt < WRAP
  }

  function Feed(a: Assembler, chunk: seq<byte>, room: nat): (r: Assembler)
    requires Ok(a)
    ensures Ok(r)
  {
    var f := FeedChunk(a.buf, chunk, room);
    Assembler(f.drained.buf,
              Wrap(a.dropped + (LostCount(f.drained.pieces) + |f.overflow|)),
              Wrap(a.corrupt + f.drained.corrupt))
  }

  // ----- Runs -----

  datatype Call = Call(chunk: seq<byte>, room: nat)

  /** A whole run: the assembler at its end, the bytes it let in and what
      became of them, and how many it did not let in. */
  datatype Run = Run(
    asm: Assembler, entered: seq<byte>, pieces: seq<Piece>, junk: nat, overflow: nat, corrupt: nat)

  function Next(r: Run, c: Call): (n: Run)
    requires Ok(r.asm)
    ensures Ok(n.asm)
  {
    var f, body := FeedChunk(r.asm.buf, c.chunk, c.room), Strip(c.chunk);
    Run(Feed(r.asm, c.chunk, c.room),
        r.entered + body[..|body| - |f.overflow|], r.pieces + f.drained.pieces,
        r.junk + |c.chunk| - |body|, r.overflow + |f.overflow|, r.corrupt + f.drained.corrupt)
  }

  function RunAll(calls: seq<Call>): (r: Run)
    ensures Ok(r.asm)
    decreases |calls|
  {
    if calls == [] then Run(EMPTY, [], [], 0, 0, 0)
    else Next(RunAll(calls[..|calls| - 1]), calls[|calls| - 1])
  }

  function FedBytes(calls: seq<Call>): nat {
    if calls == [] then 0 else FedBytes(calls[..|calls| - 1]) + |calls[|calls| - 1].chunk|
  }

  // ----- Lists of pieces -----

  lemma {:induction false} ContentsAppend(a: seq<Piece>, b: seq<Piece>)
    ensures Contents(a + b) == Contents(a) + Contents(b)
  {
    if a == [] {
      assert a + b == b;
    } else {
      assert (a + b)[1..] == a[1..] + b;
      ContentsAppend(a[1..], b);
      assert Contents(a + b) == BytesOf(a[0]) + (Contents(a[1..]) + Contents(b));
    }
  }

  lemma {:induction false} FirstPiece(pieces: seq<Piece>)
    ensures Frames([]) == [] && LostCount([]) == 0
    ensures pieces != [] ==>
      && Frames(pieces) == (if pieces[0].Taken? then [pieces[0].frame] else []) + Frames(pieces[1..])
      && LostCount(pieces) == (if pieces[0].Lost? then |pieces[0].bytes| else 0) + LostCount(pieces[1..])
  {}

  lemma {:induction false} FramesAppend(a: seq<Piece>, b: seq<Piece>)
    ensures Frames(a + b) == Frames(a) + Frames(b)
    ensures LostCount(a + b) == LostCount(a) + LostCount(b)
  {
    hide Frames, LostCount;
    FirstPiece(a);
    FirstPiece(a + b);
    if a == [] {
      assert a + b == b;
    } else {
      assert (a + b)[1..] == a[1..] + b;
      FramesAppend(a[1..], b);
    }
  }

  lemma {:induction false} Measure(pieces: seq<Piece>)
    requires AllWellFormed(pieces)
    ensures |Contents(pieces)| == FRAME * |Frames(pieces)| + LostCount(pieces)
  {
    if pieces != [] {
      Measure(pieces[1..]);
    }
  }

  predicate AllWellFormed(pieces: seq<Piece>) {
    forall i :: 0 <= i < |pieces| && pieces[i].Taken? ==> FrameBytes(pieces[i].frame)
  }

  // ----- Conservation -----

  predicate Partition(d: Drained, buf: seq<byte>, room: nat) {
    Contents(d.pieces) + d.buf == buf && AllWellFormed(d.pieces) && |Frames(d.pieces)| <= room
  }

  lemma {:induction false} PrependPartitions(p: Piece, d: Drained, rest: seq<byte>, room: nat)
    requires Partition(d, rest, room) && (p.Taken? ==> FrameBytes(p.frame))
    ensures Partition(Prepend(p, d), BytesOf(p) + rest, room + if p.Taken? then 1 else 0)
  {
    var all := [p] + d.pieces;
    assert all[1..] == d.pieces;
    assert Contents(all) + d.buf == BytesOf(p) + (Contents(d.pieces) + d.buf);
    hide FrameBytes;
    assert AllWellFormed(all);
  }

  lemma {:induction false} LostBytes(bytes: seq<byte>, d: Drained, rest: seq<byte>, room: nat)
    requires Partition(d, rest, room)
    ensures Partition(Prepend(Lost(bytes), d), bytes + rest, room)
  {
    PrependPartitions(Lost(bytes), d, rest, room);
  }

  lemma {:induction false} LostAndNoMore(bytes: seq<byte>, rest: seq<byte>, room: nat)
    ensures Partition(Drained(rest, [Lost(bytes)], 0), bytes + rest, room)
  {
    NothingDrained(rest, room);
    LostBytes(bytes, Drained(rest, [], 0), rest, room);
    assert [Lost(bytes)] + [] == [Lost(bytes)];
  }

  lemma {:induction false} TakenFrame(frame: seq<byte>, d: Drained, rest: seq<byte>, room: nat)
    requires Partition(d, rest, room) && WellFormed(frame)
    ensures Partition(Prepend(Taken(frame), d), frame + rest, room + 1)
  {
    FrameExactlyWhen(frame);
    hide WellFormed, FrameBytes;
    PrependPartitions(Taken(frame), d, rest, room);
  }

  lemma {:induction false} RejectPartitions(bytes: seq<byte>, d: Drained, rest: seq<byte>, room: nat)
    requires Partition(d, rest, room)
    ensures Partition(Reject(bytes, d), bytes + rest, room)
  {
    PrependPartitions(Lost(bytes), d, rest, room);
    assert Reject(bytes, d).pieces == Prepend(Lost(bytes), d).pieces;
  }

  /** Draining cuts the buffer into frames, lost bytes and the new buffer, in
      order; the frames are well formed and no more than asked for. */
  lemma {:induction false} DrainPartitions(buf: seq<byte>, room: nat)
    ensures Partition(Drain(buf, room), buf, room)
    decreases |buf|
  {
    hide Look, WellFormed, FrameBytes, Partition, Reject, Prepend, BytesOf, Contents, Frames, HeaderAt, MonitorHeader,
      Sum, Total;
    NothingDrained(buf, room);
    if room > 0 {
      match Look(buf)
      case Short =>
      case NoHeader =>
        var n := |buf| - 4;
        LostAndNoMore(buf[..n], buf[n..], room);
        assert buf[..n] + buf[n..] == buf;
      case HeaderLater(h) =>
        DrainPartitions(buf[h..], room);
        LostBytes(buf[..h], Drain(buf[h..], room), buf[h..], room);
        assert buf[..h] + buf[h..] == buf;
      case GoodFrame =>
        DrainPartitions(buf[FRAME..], room - 1);
        TakenFrame(buf[..FRAME], Drain(buf[FRAME..], room - 1), buf[FRAME..], room - 1);
        assert buf[..FRAME] + buf[FRAME..] == buf;
      case BadFrame(keep) =>
        DrainPartitions(buf[keep..], room);
        RejectPartitions(buf[..keep], Drain(buf[keep..], room), buf[keep..], room);
        assert buf[..keep] + buf[keep..] == buf;
    }
  }

  lemma {:induction false} NothingDrained(buf: seq<byte>, room: nat)
    ensures Partition(Drained(buf, [], 0), buf, room)
  {}

  predicate Ordered(r: Run) {
    Contents(r.pieces) + r.asm.buf == r.entered && AllWellFormed(r.pieces)
  }

  predicate Counted(r: Run, fed: nat) {
    && fed == r.junk + FRAME * |Frames(r.pieces)| + LostCount(r.pieces) + r.overflow + |r.asm.buf|
    && r.asm.dropped == Wrap(LostCount(r.pieces) + r.overflow)
    && r.asm.corrupt == Wrap(r.corrupt)
  }

  /** One call: what was in the buffer and what is let in come out as frames,
      lost bytes and the new buffer, in order. */
  lemma {:induction false} FeedPartitions(buf: seq<byte>, chunk: seq<byte>, room: nat)
    requires |buf| <= CAPACITY
    ensures var f := FeedChunk(buf, chunk, room);
      && Contents(f.drained.pieces) + f.drained.buf + f.overflow == buf + Strip(chunk)
      && AllWellFormed(f.drained.pieces) && |Frames(f.drained.pieces)| <= room
  {
    hide Drain, Strip, AllWellFormed, Contents, Frames;
    var body, avail := Strip(chunk), CAPACITY - |buf|;
    DrainPartitions(buf + body, room);
    NothingDrained(buf, room);
    if |body| > avail {
      NothingDrained(buf + body[..avail], room);
      assert buf + body == buf + body[..avail] + body[avail..];
    } else {
      assert buf + body + [] == buf + body;
    }
  }

  /** Over every run: the bytes let in are the frames, the bytes lost and the
      buffer, in order; every frame is well formed; and all the bytes fed are
      accounted for by the counters. */
  lemma {:induction false} EveryRunIsConserved(calls: seq<Call>)
    ensures Ordered(RunAll(calls)) && Counted(RunAll(calls), FedBytes(calls))
    decreases |calls|
  {
    EmptyIsConserved();
    hide Ordered, Counted, Next, Strip, FeedChunk, Feed, Wrap;
    if calls != [] {
      var before := calls[..|calls| - 1];
      EveryRunIsConserved(before);
      NextIsOrdered(RunAll(before), calls[|calls| - 1]);
      NextIsCounted(RunAll(before), FedBytes(before), calls[|calls| - 1]);
    }
  }

  lemma {:induction false} EmptyIsConserved()
    ensures Ordered(Run(EMPTY, [], [], 0, 0, 0)) && Counted(Run(EMPTY, [], [], 0, 0, 0), 0)
  {}

  lemma {:induction false} SplicedRun(r: Run, n: Run, f: Fed, body: seq<byte>)
    requires Ordered(r) && |f.overflow| <= |body| && AllWellFormed(f.drained.pieces)
    requires Contents(f.drained.pieces) + f.drained.buf + f.overflow == r.asm.buf + body
    requires n.pieces == r.pieces + f.drained.pieces && n.asm.buf == f.drained.buf
    requires n.entered == r.entered + body[..|body| - |f.overflow|]
    ensures Ordered(n)
  {
    hide AllWellFormed, Contents;
    BothWellFormed(r.pieces, f.drained.pieces);
    Spliced(r.pieces, r.asm.buf, r.entered, f, body);
  }

  lemma {:induction false} NextIsOrdered(r: Run, c: Call)
    requires Ordered(r) && Ok(r.asm)
    ensures Ordered(Next(r, c))
  {
    hide FeedChunk, Strip, AllWellFormed, Wrap, Contents, Ordered;
    var f, body := FeedChunk(r.asm.buf, c.chunk, c.room), Strip(c.chunk);
    FeedPartitions(r.asm.buf, c.chunk, c.room);
    SplicedRun(r, Next(r, c), f, body);
  }

  lemma {:induction false} NextIsCounted(r: Run, fed: nat, c: Call)
    requires Counted(r, fed) && Ok(r.asm)
    ensures Counted(Next(r, c), fed + |c.chunk|)
  {
    hide FeedChunk, Strip, AllWellFormed, Wrap, Contents, Frames, LostCount;
    var f := FeedChunk(r.asm.buf, c.chunk, c.room);
    var pieces := f.drained.pieces;
    FeedPartitions(r.asm.buf, c.chunk, c.room);
    FramesAppend(r.pieces, pieces);
    Measure(pieces);
    assert |Contents(pieces)| + |f.drained.buf| + |f.overflow| == |r.asm.buf| + |Strip(c.chunk)|;
    Carried(LostCount(r.pieces) + r.overflow, LostCount(pieces) + |f.overflow|);
    Carried(r.corrupt, f.drained.corrupt);
  }

  lemma {:induction false} BothWellFormed(a: seq<Piece>, b: seq<Piece>)
    requires AllWellFormed(a) && AllWellFormed(b)
    ensures AllWellFormed(a + b)
  {
    hide FrameBytes;
  }

  lemma {:induction false} Spliced(past: seq<Piece>, buf: seq<byte>, entered: seq<byte>, f: Fed, body: seq<byte>)
    requires Contents(past) + buf == entered && |f.overflow| <= |body|
    requires Contents(f.drained.pieces) + f.drained.buf + f.overflow == buf + body
    ensures Contents(past + f.drained.pieces) + f.drained.buf == entered + body[..|body| - |f.overflow|]
  {
    var n := |body| - |f.overflow|;
    hide Contents;
    ContentsAppend(past, f.drained.pieces);
    assert (buf + body)[..|buf| + n] == buf + body[..n];
    assert (Contents(f.drained.pieces) + f.drained.buf + f.overflow)[..|buf| + n]
        == Contents(f.drained.pieces) + f.drained.buf;
    assert Contents(past) + Contents(f.drained.pieces) + f.drained.buf == Contents(past) + (buf + body[..n]);
  }

  lemma {:induction false} Carried(a: nat, b: nat)
    ensures Wrap(Wrap(a) + b) == Wrap(a + b)
  {
    assert a == WRAP * (a / WRAP) + a % WRAP;
    assert a + b == (a % WRAP + b) + WRAP * (a / WRAP);
  }

  // ----- What is counted as corrupt -----

  /** The lost pieces that begin with a header. */
  function Damaged(pieces: seq<Piece>): nat {
    if pieces == [] then 0
    else (if pieces[0].Lost? && MonitorHeader(pieces[0].bytes, 0) then 1 else 0) + Damaged(pieces[1..])
  }

  lemma {:induction false} DamagedAppend(a: seq<Piece>, b: seq<Piece>)
    ensures Damaged(a + b) == Damaged(a) + Damaged(b)
  {
    if a == [] {
      assert a + b == b;
    } else {
      assert (a + b)[1..] == a[1..] + b;
      DamagedAppend(a[1..], b);
    }
  }

  lemma {:induction false} DamagedFirst(p: Piece, rest: seq<Piece>)
    ensures Damaged([p] + rest) == Damaged(rest) + if p.Lost? && MonitorHeader(p.bytes, 0) then 1 else 0
  {
    assert ([p] + rest)[1..] == rest;
  }

  /** A turn that finds a bad frame loses bytes with a header in front, and no other
      turn does. */
  lemma {:induction false} LostBegins(buf: seq<byte>, n: nat)
    ensures Look(buf).NoHeader? && n == |buf| - 4 ==> !MonitorHeader(buf[..n], 0)
    ensures Look(buf).HeaderLater? && n == Look(buf).at ==> !MonitorHeader(buf[..n], 0)
    ensures Look(buf).BadFrame? && n == Look(buf).keep ==> MonitorHeader(buf[..n], 0)
  {
    hide WellFormed;
    HeaderExactlyWhen(buf, 0);
    var next := FindHeader(buf, 1);
    HeaderExactlyWhen(buf, next);
  }

  lemma {:induction false} DrainCorrupt(buf: seq<byte>, room: nat)
    ensures Drain(buf, room).corrupt == Damaged(Drain(buf, room).pieces)
    decreases |buf|
  {
    hide Look, MonitorHeader, Damaged;
    assert Damaged([]) == 0 by { NoneDamaged(); }
    if room > 0 {
      match Look(buf)
      case Short =>
      case NoHeader =>
        LostBegins(buf, |buf| - 4);
        DamagedFirst(Lost(buf[..|buf| - 4]), []);
        assert [Lost(buf[..|buf| - 4])] + [] == [Lost(buf[..|buf| - 4])];
      case HeaderLater(h) =>
        DrainCorrupt(buf[h..], room);
        LostBegins(buf, h);
        DamagedFirst(Lost(buf[..h]), Drain(buf[h..], room).pieces);
      case GoodFrame =>
        DrainCorrupt(buf[FRAME..], room - 1);
        DamagedFirst(Taken(buf[..FRAME]), Drain(buf[FRAME..], room - 1).pieces);
      case BadFrame(keep) =>
        DrainCorrupt(buf[keep..], room);
        LostBegins(buf, keep);
        DamagedFirst(Lost(buf[..keep]), Drain(buf[keep..], room).pieces);
    }
  }

  lemma {:induction false} NoneDamaged()
    ensures Damaged([]) == 0
  {}

  /** Over every run the counter of corrupt frames, in 32 bits, is the number of
      stretches lost that begin with a header. */
  lemma {:induction false} CorruptCounts(calls: seq<Call>)
    ensures RunAll(calls).corrupt == Damaged(RunAll(calls).pieces)
    ensures RunAll(calls).asm.corrupt == Wrap(Damaged(RunAll(calls).pieces))
    decreases |calls|
  {
    hide Drain, Strip, Damaged, Wrap;
    EveryRunIsConserved(calls);
    NoneDamaged();
    if calls != [] {
      var before, c := calls[..|calls| - 1], calls[|calls| - 1];
      CorruptCounts(before);
      var r := RunAll(before);
      DrainCorrupt(r.asm.buf + Strip(c.chunk), c.room);
      DamagedAppend(r.pieces, FeedChunk(r.asm.buf, c.chunk, c.room).drained.pieces);
    }
  }

  // ----- What is stripped -----

  /** The modem's "AT" with an end of line, once in front and once behind. */
  lemma {:induction false} StripsReplies(chunk: seq<byte>)
    ensures var at := [0x41, 0x54, 0x0D, 0x0A];
      var rest := if at <= chunk then chunk[4..] else chunk;
      Strip(chunk) == if |rest| >= 4 && rest[|rest| - 4..] == at then rest[..|rest| - 4] else rest
  {
    var at := [0x41, 0x54, 0x0D, 0x0A];
    assert at <= chunk <==> |chunk| >= 4 && chunk[..4] == at;
  }
}
