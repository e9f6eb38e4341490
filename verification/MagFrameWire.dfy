/** What stations put on the wire, byte by byte, as the header of the framer and
    the model table of the decoder have it (src/magnum/mag_frame.h:17-34,
    src/magnum/mag_decode.c:42-85), and that the framer's checks are exactly that. */
module MagFrameWire {
  import opened Bytes
  import opened MagFrame

  /** Two bytes, the high one first. */
  function Word(b: seq<byte>, i: nat): nat
    requires i + 2 <= |b|
  {
    var high: nat := b[i];
    high * 256 + b[i + 1]
  }

  predicate Model(b: byte) {
    b in {0x06, 0x07, 0x08, 0x09, 0x0A, 0x0B, 0x0C, 0x0F, 0x14, 0x15, 0x19, 0x1E, 0x23, 0x24, 0x28, 0x2C, 0x2D, 0x2F,
          0x35, 0x36, 0x37, 0x3B, 0x3F, 0x45, 0x4A, 0x5A, 0x5B, 0x67, 0x68, 0x69, 0x6A, 0x6B, 0x6F, 0x70, 0x72, 0x73,
          0x74, 0x75}
  }

  /** Stand alone, or master or slave of a parallel or series stack. */
  predicate StackMode(b: byte) {
    b in {0, 1, 2, 4, 8}
  }

  /** Twice the nominal voltage of a 12, 24 or 48 V model, in tenths. */
  function HighestVolts(model: byte): nat {
    if model <= 50 then 240 else if model <= 107 then 480 else 960
  }

  /** An inverter's 21 bytes: the last is zero, the frequency is off or 40 to 70
      Hz, three temperatures and the DC volts are in range; all else is free. */
  predicate InverterBytes(b: seq<byte>) {
    && |b| == 21 && b[20] == 0x00
    && (Word(b, 18) == 0 || 400 <= Word(b, 18) <= 700)
    && b[11] <= 150 && b[12] <= 150 && b[13] <= 150
    && Word(b, 2) <= HighestVolts(b[14])
  }

  /** One of any inverter. */
  predicate AnyInverter(b: seq<byte>) {
    InverterBytes(b) && Model(b[14]) && StackMode(b[15])
  }

  /** One of this inverter: its model is byte 14, its revision byte 10. */
  predicate InverterOf(m: Ident, b: seq<byte>) {
    InverterBytes(b) && b[14] == m.model && b[10] == m.revision
  }

  /** A remote's 21 bytes: the last says which peripheral it polls. */
  predicate RemoteBytes(b: seq<byte>) {
    |b| == 21 && b[20] in {0x00, 0x11, 0x80, 0xA0, 0xA1, 0xA2, 0xA3, 0xA4, 0xC0, 0xC1, 0xC2, 0xC3, 0xD0}
  }

  /** A peripheral's reply of its own length behind its own first byte. */
  predicate ReplyBytes(kind: Kind, b: seq<byte>) {
    match kind
    case Rtr91 => |b| == 2 && b[0] == 0x91
    case AgsA1 => |b| == 6 && b[0] == 0xA1 && b[1] <= 27
    case AgsA2 => |b| == 6 && b[0] == 0xA2
    case AcldD1 => |b| == 8 && b[0] == 0xD1
    case PtC2 => |b| == 13 && b[0] == 0xC2
    case PtC3 => |b| == 14 && b[0] == 0xC3
    case PtC1 => |b| == 16 && b[0] == 0xC1
    case Bmk81 => |b| == 18 && b[0] == 0x81 && b[1] <= 100
    case _ => false
  }

  /** How a reply may begin. */
  predicate BeginsReply(b: byte) {
    b in {0x81, 0x91, 0xA1, 0xA2, 0xC1, 0xC2, 0xC3, 0xD1}
  }

  /** How a line reads that is let go of: low bits clear, high bits set. */
  predicate LineRelease(b: byte) {
    b in {0xFF, 0xFE, 0xFC, 0xF8, 0xF0}
  }

  /** A packet's bytes are of the kind it is delivered as. */
  predicate OfItsKind(p: Packet) {
    match p.kind
    case Unknown => true
    case Inverter => InverterBytes(p.bytes) && Model(p.bytes[14])
    case Remote => RemoteBytes(p.bytes)
    case _ => ReplyBytes(p.kind, p.bytes)
  }

  // ----- The framer's checks -----

  lemma {:induction false} ShapeExactlyWhen(b: seq<byte>)
    requires |b| >= INV_LEN
    ensures InverterShape(b) <==> InverterBytes(b[..21])
  {}

  /** An inverter packet is recognised by its identity once the inverter is known,
      and until then by a known model and stack mode. */
  lemma {:induction false} InverterExactlyWhen(id: Option<Ident>, b: seq<byte>)
    requires |b| >= INV_LEN
    ensures IsInverter(id, b) <==> match id case None => AnyInverter(b[..21]) case Some(m) => InverterOf(m, b[..21])
  {
    ShapeExactlyWhen(b);
    hide InverterShape, InverterBytes;
  }

  lemma {:induction false} AnyIsInverter(b: seq<byte>)
    requires AnyInverter(b)
    ensures |b| == INV_LEN && IsInverter(None, b)
  {
    InverterExactlyWhen(None, b);
    assert b[..21] == b;
  }

  lemma {:induction false} RemoteExactlyWhen(b: seq<byte>)
    requires |b| == REMOTE_LEN
    ensures RemoteTypeOk(b[20]) <==> RemoteBytes(b)
  {}

  lemma {:induction false} TurnaroundExactlyWhen(b: byte)
    ensures Turnaround(b) <==> LineRelease(b)
  {}

  /** A reply is expected exactly behind its first byte, and is as long as it says. */
  lemma {:induction false} ReplyExactlyWhen(kind: Kind, b: seq<byte>)
    requires b != []
    ensures ReplyLen(b[0]) > 0 <==> BeginsReply(b[0])
    ensures ReplyBytes(kind, b) <==>
      kind != Unknown && kind == ReplyKind(b[0]) && |b| == ReplyLen(b[0]) && 2 <= |b| && ReplyOk(b)
  {}
}
