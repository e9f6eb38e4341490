/** The command frames sent to the JK monitor (jk_build_command() and
    jk_build_register_cmd() in src/jk/jk_proto.c), and reading them back. */
module JkCommand {
  import opened Bytes
  import opened Jk

  const COMMAND := 20
  const PAYLOAD := 13
  const COMMAND_HEADER: seq<byte> := [0xAA, 0x55, 0x90, 0xEB]

  type uint32 = x: int | 0 <= x < WRAP

  function Zeros(n: nat): (z: seq<byte>)
    ensures |z| == n && forall i :: 0 <= i < n ==> z[i] == 0
  {
    seq(n, _ => 0)
  }

  /** The payload field: as much of the value as fits, or the counter when
      there is no value. */
  function Payload(value: seq<byte>, counter: byte): (p: seq<byte>)
    ensures |p| == PAYLOAD
  {
    if value == [] then Zeros(10) + [counter] + Zeros(2)
    else
      var n := Min(|value|, PAYLOAD);
      value[..n] + Zeros(PAYLOAD - n)
  }

  function Command(cmd: byte, value: seq<byte>, counter: byte): (f: seq<byte>)
    ensures |f| == COMMAND
  {
    var body := COMMAND_HEADER + [cmd, |value| % 256] + Payload(value, counter);
    body + [Sum(body)]
  }

  function LittleEndian(v: uint32): (s: seq<byte>)
    ensures |s| == 4
  {
    [v % 256, v / 0x100 % 256, v / 0x1_0000 % 256, v / 0x100_0000]
  }

  function Number(s: seq<byte>): (v: nat) {
    if s == [] then 0 else s[0] + 256 * Number(s[1..])
  }

  /** What the frame says: its command and as many bytes as it declares. */
  function ReadCommand(f: seq<byte>): Option<(byte, seq<byte>)> {
    if |f| == 20 && f[0] == 0xAA && f[1] == 0x55 && f[2] == 0x90 && f[3] == 0xEB && f[5] <= 13
       && f[19] as int == Total(f[..19]) % 256
    then Some((f[4], f[6..6 + f[5]]))
    else None
  }

  /** Byte by byte: the header, the command, the length asked for, the value as far
      as 13 bytes go or else the counter at 16, zeros, and last the total. */
  lemma {:induction false} CommandBytes(cmd: byte, value: seq<byte>, counter: byte)
    ensures var f := Command(cmd, value, counter);
      && f[0] == 0xAA && f[1] == 0x55 && f[2] == 0x90 && f[3] == 0xEB && f[4] == cmd && f[5] as int == |value| % 256
      && (forall i :: 0 <= i < 13 ==>
            f[6 + i] == if i < |value| then value[i] else if value == [] && i == 10 then counter else 0)
      && f[19] as int == Total(f[..19]) % 256
  {
    hide Sum, Total, Payload;
    var f := Command(cmd, value, counter);
    assert f[..19] == COMMAND_HEADER + [cmd, |value| % 256] + Payload(value, counter);
    SumIsTotal(f[..19]);
    PayloadBytes(value, counter);
    forall i | 0 <= i < 13 ensures f[6 + i] == Payload(value, counter)[i] {}
  }

  lemma {:induction false} PayloadBytes(value: seq<byte>, counter: byte)
    ensures forall i :: 0 <= i < 13 ==>
      Payload(value, counter)[i] == if i < |value| then value[i] else if value == [] && i == 10 then counter else 0
  {}

  /** A command reads back as it was exactly when its value fits: a longer one
      is cut, but its own length is declared. */
  lemma {:induction false} CommandReadsBack(cmd: byte, value: seq<byte>, counter: byte)
    ensures ReadCommand(Command(cmd, value, counter)) == Some((cmd, value)) <==> |value| <= 13
  {
    var f := Command(cmd, value, counter);
    CommandBytes(cmd, value, counter);
    hide Total, Command;
    if |value| <= 13 {
      forall i | 0 <= i < |value| ensures f[6..6 + |value|][i] == value[i] {
        assert f[6 + i] == value[i];
      }
      assert f[6..6 + |value|] == value;
    }
  }

  /** A register write carries the whole 32-bit value. */
  lemma {:induction false} RegisterReadsBack(reg: byte, v: uint32)
    ensures var r := ReadCommand(Command(reg, LittleEndian(v), 0));
      r.Some? && r.value.0 == reg && Number(r.value.1) == v
    ensures var f := Command(reg, LittleEndian(v), 0);
      && f[6] as int == v % 256 && f[7] as int == v / 256 % 256
      && f[8] as int == v / 65536 % 256 && f[9] as int == v / 16777216
  {
    CommandReadsBack(reg, LittleEndian(v), 0);
    CommandBytes(reg, LittleEndian(v), 0);
    hide Command, ReadCommand, Total;
    assert forall i :: 0 <= i < 4 ==> Command(reg, LittleEndian(v), 0)[6 + i] == LittleEndian(v)[i];
    LittleEndianNumber(v);
  }

  lemma {:induction false} LittleEndianNumber(v: uint32)
    ensures Number(LittleEndian(v)) == v
  {
    hide Number;
    NumberOfFour(v % 256, v / 0x100 % 256, v / 0x1_0000 % 256, v / 0x100_0000);
    FourDigits(v);
  }

  lemma {:induction false} NumberOfFour(a: byte, b: byte, c: byte, d: byte)
    ensures Number([a, b, c, d]) == a as int + 256 * (b as int + 256 * (c as int + 256 * d as int))
  {
    var s := [a, b, c, d];
    assert s[1..] == [b, c, d] && s[1..][1..] == [c, d] && s[1..][1..][1..] == [d] && s[1..][1..][1..][1..] == [];
    assert Number([d]) == d;
    assert Number([c, d]) == c as int + 256 * Number([d]);
    assert Number([b, c, d]) == b as int + 256 * Number([c, d]);
  }

  lemma {:induction false} FourDigits(v: nat)
    ensures v == v % 256 + 256 * (v / 0x100 % 256 + 256 * (v / 0x1_0000 % 256 + 256 * (v / 0x100_0000)))
  {
    assert v == v % 256 + 256 * (v / 0x100);
    assert v / 0x100 == v / 0x100 % 256 + 256 * (v / 0x1_0000);
    assert v / 0x1_0000 == v / 0x1_0000 % 256 + 256 * (v / 0x100_0000);
  }

  /** jk_build_command(): the frame is built in place, in a buffer that keeps
      the command before. */
  method BuildCommand(frame: array<byte>, cmd: byte, value: seq<byte>, counter: byte)
    requires frame.Length == COMMAND
    modifies frame
    ensures frame[..] == Command(cmd, value, counter)
  {
    hide Sum, Payload;
    for i := 0 to COMMAND
      invariant forall k :: 0 <= k < i ==> frame[k] == 0
    {
      frame[i] := 0;
    }
    Fill(frame, cmd, value, counter);
    var crc := Checksum(frame);
    frame[COMMAND - 1] := crc;
    assert frame[..] == frame[..COMMAND - 1] + [crc];
  }

  /** All but the sum, in a cleared buffer. */
  method Fill(frame: array<byte>, cmd: byte, value: seq<byte>, counter: byte)
    requires frame.Length == COMMAND && forall k :: 0 <= k < COMMAND ==> frame[k] == 0
    modifies frame
    ensures frame[..COMMAND - 1] == COMMAND_HEADER + [cmd, |value| % 256] + Payload(value, counter)
  {
    frame[0], frame[1], frame[2], frame[3] := 0xAA, 0x55, 0x90, 0xEB;
    frame[4] := cmd;
    frame[5] := |value| % 256;
    if |value| > 0 {
      var n := if |value| > PAYLOAD then PAYLOAD else |value|;
      forall i | 0 <= i < n {
        frame[6 + i] := value[i];
      }
    } else {
      frame[16] := counter;
    }
    ghost var p := Payload(value, counter);
    forall k | 0 <= k < PAYLOAD ensures frame[6 + k] == p[k] {}
    assert frame[..COMMAND - 1] == COMMAND_HEADER + [cmd, |value| % 256] + p;
  }

  method Checksum(frame: array<byte>) returns (crc: byte)
    requires frame.Length == COMMAND
    ensures crc == Sum(frame[..COMMAND - 1])
  {
    crc := 0;
    for i := 0 to COMMAND - 1
      invariant crc == Sum(frame[..i])
    {
      assert frame[..i + 1][..i] == frame[..i];
      crc := (crc + frame[i]) % 256;
    }
  }

  method BuildRegisterCommand(frame: array<byte>, reg: byte, v: uint32)
    requires frame.Length == COMMAND
    modifies frame
    ensures frame[..] == Command(reg, LittleEndian(v), 0)
  {
    var b0, b1, b2, b3 := v % 256, v / 0x100 % 256, v / 0x1_0000 % 256, v / 0x100_0000;
    BuildCommand(frame, reg, [b0, b1, b2, b3], 0);
  }
}
