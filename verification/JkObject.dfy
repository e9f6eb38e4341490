/** The assembler as the program keeps it: a fixed buffer shifted in place,
    proved against module Jk; and the command frames sent to the monitor. */
module JkObject {
  import opened Bytes
  import opened Jk

  type uint32 = x: int | 0 <= x < WRAP

  class FrameAssembler {
    const buf: array<byte>
    var len: nat
    var dropped: uint32
    var corrupt: uint32

    ghost predicate Valid()
      reads this`len
    {
      buf.Length == CAPACITY && len <= CAPACITY
    }

    ghost function Buffered(): seq<byte>
      requires Valid()
      reads this`len, buf
    {
      buf[..len]
    }

    ghost function State(): Assembler
      requires Valid()
      reads this, buf
    {
      Assembler(Buffered(), dropped, corrupt)
    }

    constructor ()
      ensures Valid() && fresh(buf) && State() == EMPTY
    {
      buf := new byte[CAPACITY](_ => 0);
      len, dropped, corrupt := 0, 0, 0;
    }

    // ----- Reading -----

    /** jk_crc8() over the first n bytes. */
    method Checksum(n: nat) returns (crc: byte)
      requires n <= buf.Length
      ensures crc == Sum(buf[..n])
    {
      crc := 0;
      for i := 0 to n
        invariant crc == Sum(buf[..i])
      {
        assert buf[..i + 1][..i] == buf[..i];
        crc := (crc + buf[i]) % 256;
      }
    }

    method FindHeaderFrom(start: nat) returns (h: nat)
      requires Valid()
      ensures h == FindHeader(Buffered(), start)
    {
      h := start;
      while h + 4 <= len && !(buf[h] == 0x55 && buf[h + 1] == 0xAA && buf[h + 2] == 0xEB && buf[h + 3] == 0x90)
        invariant h >= start && FindHeader(Buffered(), start) == FindHeader(Buffered(), h)
      {
        HeaderBytes(Buffered(), h);
        h := h + 1;
      }
      if h + 4 <= len { HeaderBytes(Buffered(), h); }
    }

    // ----- Changing the buffer -----

    /** The memmove that drops the first k bytes. */
    method Shift(k: nat)
      requires Valid() && k <= len
      modifies this`len, buf
      ensures Valid() && Buffered() == old(Buffered())[k..]
    {
      forall i | 0 <= i < len - k {
        buf[i] := buf[i + k];
      }
      len := len - k;
    }

    method CountDropped(k: nat)
      modifies this`dropped
      ensures dropped == Wrap(old(dropped) + k)
    {
      dropped := (dropped + k) % WRAP;
    }

    method CountCorrupt(bad: bool)
      modifies this`corrupt
      ensures corrupt == Wrap(old(corrupt) + if bad then 1 else 0)
    {
      WrapSmall(corrupt);
      if bad { corrupt := (corrupt + 1) % WRAP; }
    }

    method Append(s: seq<byte>)
      requires Valid() && len + |s| <= CAPACITY
      modifies this`len, buf
      ensures Valid() && Buffered() == old(Buffered()) + s
    {
      forall i | 0 <= i < |s| {
        buf[len + i] := s[i];
      }
      len := len + |s|;
    }

    method IsGoodFrame() returns (good: bool)
      requires Valid() && len >= FRAME && HeaderAt(Buffered(), 0)
      ensures good == WellFormed(Buffered()[..FRAME])
    {
      var crc := Checksum(FRAME - 1);
      assert Buffered()[..FRAME][..FRAME - 1] == buf[..FRAME - 1];
      assert Buffered()[..FRAME][0..4] == Buffered()[0..4];
      good := crc == buf[FRAME - 1] && (buf[4] == 0x02 || buf[4] == 0x01 || buf[4] == 0x03);
    }

    // ----- Draining -----

    /** What is at the front of the buffer. */
    method Sees() returns (sight: Sight)
      requires Valid()
      ensures sight == Look(Buffered()) && Removed(len, sight) <= len
    {
      hide WellFormed, Sum, HeaderAt, FindHeader;
      if len < 4 { return Short; }
      var hpos := FindHeaderFrom(0);
      if hpos + 4 > len { return if len > 4 then NoHeader else Short; }
      if hpos > 0 { return HeaderLater(hpos); }
      if len < FRAME { return Short; }
      var good := IsGoodFrame();
      if good { return GoodFrame; }
      var next := FindHeaderFrom(1);
      return BadFrame(if next + 4 <= len then next else len - 4);
    }

    /** One turn: what is seen, dealt with. */
    method Turn(frameBuf: array<byte>) returns (sight: Sight)
      requires Valid() && frameBuf.Length >= FRAME && frameBuf != buf
      modifies this`len, this`dropped, this`corrupt, buf, frameBuf
      ensures Valid() && sight == Look(old(Buffered()))
      ensures Buffered() == old(Buffered())[Removed(old(len), sight)..]
      ensures dropped == Wrap(old(dropped) + if sight.GoodFrame? then 0 else Removed(old(len), sight))
      ensures corrupt == Wrap(old(corrupt) + if sight.BadFrame? then 1 else 0)
      ensures frameBuf[..FRAME] == if sight.GoodFrame? then old(Buffered())[..FRAME] else old(frameBuf[..FRAME])
    {
      hide WellFormed, Look, Wrap, Buffered;
      sight := Sees();
      WrapSmall(dropped);
      CountCorrupt(sight.BadFrame?);
      if sight.GoodFrame? {
        TakeFrame(frameBuf);
      } else {
        CountDropped(Removed(len, sight));
        Shift(Removed(len, sight));
      }
    }

    method TakeFrame(frameBuf: array<byte>)
      requires Valid() && len >= FRAME && frameBuf.Length >= FRAME && frameBuf != buf
      modifies this`len, buf, frameBuf
      ensures Valid() && Buffered() == old(Buffered())[FRAME..] && frameBuf[..FRAME] == old(Buffered())[..FRAME]
    {
      forall i | 0 <= i < FRAME {
        frameBuf[i] := buf[i];
      }
      Shift(FRAME);
    }

    /** The drain loop: the number of frames; the last of them is in frameBuf. */
    method DrainFrames(frameBuf: array<byte>, maxFrames: nat) returns (n: nat, ghost pieces: seq<Piece>)
      requires Valid() && frameBuf.Length >= FRAME && frameBuf != buf
      modifies this`len, this`dropped, this`corrupt, buf, frameBuf
      ensures Valid()
      ensures var d := Drain(old(Buffered()), maxFrames);
        && pieces == d.pieces && Buffered() == d.buf && n == |Frames(d.pieces)|
        && dropped == Wrap(old(dropped) + LostCount(d.pieces)) && corrupt == Wrap(old(corrupt) + d.corrupt)
        && frameBuf[..FRAME] == LastFrame(d.pieces, old(frameBuf[..FRAME]))
    {
      hide Look, Wrap, Drain, TurnPieces, Frames, LostCount;
      n, pieces := 0, [];
      ghost var bad: nat := 0;
      ghost var whole, first := Drain(Buffered(), maxFrames), frameBuf[..FRAME];
      var going := true;
      NoPieces(dropped, corrupt, first, whole);
      while going && n < maxFrames
        invariant Valid() && n <= maxFrames && n == |Frames(pieces)|
        invariant whole == Rejoined(pieces, bad, Onward(Buffered(), maxFrames - n, going))
        invariant dropped == Wrap(old(dropped) + LostCount(pieces)) && corrupt == Wrap(old(corrupt) + bad)
        invariant frameBuf[..FRAME] == LastFrame(pieces, first)
        decreases going, len
      {
        ghost var was, before, badBefore := Buffered(), pieces, bad;
        var sight := Turn(frameBuf);
        going := !sight.Short? && !sight.NoHeader?;
        ghost var p := TurnPieces(was, sight);
        ghost var mark := if sight.BadFrame? then 1 else 0;
        pieces, bad := before + p, badBefore + mark;
        DrainTurn(was, maxFrames - n, before, badBefore);
        TurnCounts(was, sight, before, first);
        Carried(old(dropped) + LostCount(before), LostCount(p));
        Carried(old(corrupt) + badBefore, mark);
        if sight.GoodFrame? { n := n + 1; }
      }
      DrainOver(Buffered(), maxFrames - n, going);
      assert pieces + [] == pieces;
    }

    // ----- Feeding -----

    method StripJunk(chunk: seq<byte>) returns (body: seq<byte>)
      ensures body == Strip(chunk)
    {
      body := chunk;
      if |body| >= 4 && body[..4] == AT_JUNK { body := body[4..]; }
      if |body| >= 4 && body[|body| - 4..] == AT_JUNK { body := body[..|body| - 4]; }
    }

    /** As much as fits; the rest is dropped. */
    method Overfill(body: seq<byte>)
      requires Valid() && |body| > CAPACITY - len
      modifies this`len, this`dropped, buf
      ensures Valid() && Buffered() == old(Buffered()) + body[..CAPACITY - old(len)]
      ensures dropped == Wrap(old(dropped) + |body[CAPACITY - old(len)..]|)
    {
      var avail := CAPACITY - len;
      Append(body[..avail]);
      dropped := (dropped + (|body| - avail)) % WRAP;
    }

    /** jk_assembler_feed(). */
    method FeedBytes(chunk: seq<byte>, frameBuf: array<byte>, maxFrames: nat) returns (n: nat, ghost pieces: seq<Piece>)
      requires Valid() && frameBuf.Length >= FRAME && frameBuf != buf
      modifies this`len, this`dropped, this`corrupt, buf, frameBuf
      ensures Valid() && State() == Feed(old(State()), chunk, maxFrames)
      ensures pieces == FeedChunk(old(Buffered()), chunk, maxFrames).drained.pieces && n == |Frames(pieces)|
      ensures frameBuf[..FRAME] == LastFrame(pieces, old(frameBuf[..FRAME]))
    {
      hide Drain, Wrap, Strip;
      WrapSmall(dropped);
      WrapSmall(corrupt);
      var body := StripJunk(chunk);
      if |body| == 0 && len < FRAME { return 0, []; }
      if |body| > CAPACITY - len {
        Overfill(body);
        return 0, [];
      }
      Append(body);
      n, pieces := DrainFrames(frameBuf, maxFrames);
    }
  }

  lemma {:induction false} HeaderBytes(s: seq<byte>, i: nat)
    requires i + 4 <= |s|
    ensures HeaderAt(s, i) <==> s[i] == 0x55 && s[i + 1] == 0xAA && s[i + 2] == 0xEB && s[i + 3] == 0x90
  {
    assert s[i..i + 4] == [s[i], s[i + 1], s[i + 2], s[i + 3]];
  }

  function LastFrame(pieces: seq<Piece>, before: seq<byte>): seq<byte> {
    var all := Frames(pieces);
    if all == [] then before else all[|all| - 1]
  }

  function Rejoined(pieces: seq<Piece>, bad: nat, d: Drained): Drained {
    Drained(d.buf, pieces + d.pieces, bad + d.corrupt)
  }

  /** How many bytes a turn takes off the front. */
  function Removed(len: nat, sight: Sight): (n: nat)
    ensures sight.Short? ==> n == 0
  {
    match sight
    case Short => 0
    case NoHeader => if len > 4 then len - 4 else 0
    case HeaderLater(h) => h
    case GoodFrame => FRAME
    case BadFrame(keep) => keep
  }

  /** ... and what becomes of them. */
  function TurnPieces(buf: seq<byte>, sight: Sight): seq<Piece>
    requires sight == Look(buf)
  {
    var front := buf[..Removed(|buf|, sight)];
    if sight.Short? then [] else if sight.GoodFrame? then [Taken(front)] else [Lost(front)]
  }

  /** What is left to do. */
  function Onward(buf: seq<byte>, room: nat, going: bool): Drained {
    if going then Drain(buf, room) else Drained(buf, [], 0)
  }

  lemma {:induction false} DrainOver(buf: seq<byte>, room: nat, going: bool)
    requires !going || room == 0
    ensures Onward(buf, room, going) == Drained(buf, [], 0)
  {}

  /** One turn of the loop, seen from the whole of it. */
  lemma {:induction false} DrainTurn(buf: seq<byte>, room: nat, before: seq<Piece>, bad: nat)
    requires room > 0
    ensures var sight := Look(buf); var pieces := before + TurnPieces(buf, sight);
      Rejoined(before, bad, Drain(buf, room)) ==
        Rejoined(pieces, bad + (if sight.BadFrame? then 1 else 0),
                 Onward(buf[Removed(|buf|, sight)..], room - (if sight.GoodFrame? then 1 else 0),
                        !sight.Short? && !sight.NoHeader?))
  {
    hide Look, Drain;
    var sight := Look(buf);
    var p := TurnPieces(buf, sight);
    DrainUnfolds(buf, room);
    if !sight.Short? && !sight.NoHeader? {
      var d := Drain(buf[Removed(|buf|, sight)..], room - if sight.GoodFrame? then 1 else 0);
      assert before + (p + d.pieces) == (before + p) + d.pieces;
    } else {
      assert before + (p + []) == (before + p) + [];
    }
  }

  lemma {:induction false} DrainUnfolds(buf: seq<byte>, room: nat)
    requires room > 0
    ensures var sight := Look(buf); var n := Removed(|buf|, sight);
      if sight.Short? || sight.NoHeader? then Drain(buf, room) == Drained(buf[n..], TurnPieces(buf, sight), 0)
      else
        var d := Drain(buf[n..], room - if sight.GoodFrame? then 1 else 0);
        Drain(buf, room) == Drained(d.buf, TurnPieces(buf, sight) + d.pieces,
          d.corrupt + if sight.BadFrame? then 1 else 0)
  {
    hide Look;
    assert buf[0..] == buf;
  }

  lemma {:induction false} TurnCounts(buf: seq<byte>, sight: Sight, before: seq<Piece>, first: seq<byte>)
    requires sight == Look(buf)
    ensures var p := TurnPieces(buf, sight);
      && |Frames(before + p)| == |Frames(before)| + (if sight.GoodFrame? then 1 else 0)
      && LostCount(before + p) == LostCount(before) + LostCount(p)
      && LostCount(p) == (if sight.GoodFrame? then 0 else Removed(|buf|, sight))
      && LastFrame(before + p, first) == if sight.GoodFrame? then buf[..FRAME] else LastFrame(before, first)
  {
    hide Look;
    FramesAppend(before, TurnPieces(buf, sight));
  }

  lemma {:induction false} NoPieces(dropped: uint32, corrupt: uint32, first: seq<byte>, d: Drained)
    ensures Frames([]) == [] && Wrap(dropped + LostCount([])) == dropped && Wrap(corrupt + 0) == corrupt
    ensures LastFrame([], first) == first && Rejoined([], 0, d) == d
  {}

  lemma {:induction false} WrapSmall(n: nat)
    requires n < WRAP
    ensures Wrap(n) == n
  {}
}
