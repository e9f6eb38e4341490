/** put_text() and tb_message() as the program runs them, in a buffer with
    moving offsets, proved against module Message. */
module MessageObject {
  import opened Bytes
  import opened Utf8
  import opened Message

  /** A full buffer takes no more. */
  lemma {:induction false} PutTextFull(out: seq<byte>, s: seq<byte>, i: nat, cap: nat)
    requires i <= |s| && |PutText(out, s[..i], cap)| + 1 >= cap
    ensures PutText(out, s, cap) == PutText(out, s[..i], cap)
    decreases |s|
  {
    if i < |s| {
      assert s[..|s| - 1][..i] == s[..i];
      PutTextFull(out, s[..|s| - 1], i, cap);
    } else {
      assert s[..i] == s;
    }
  }

  /** put_text(): the end of the text now in the buffer. */
  method PutInto(buf: array<byte>, off: nat, s: seq<byte>) returns (end: nat)
    requires off < buf.Length
    modifies buf
    ensures end < buf.Length && buf[..end] == PutText(old(buf[..off]), s, buf.Length)
    ensures buf[end] == 0
  {
    ghost var start := buf[..off];
    var i := 0;
    end := off;
    while i < |s| && end + 1 < buf.Length
      invariant i <= |s| && end < buf.Length
      invariant buf[..end] == PutText(start, s[..i], buf.Length)
    {
      assert s[..i + 1][..i] == s[..i];
      var ch: byte := if s[i] < SPACE then SPACE else s[i];
      if !(ch == SPACE && (end == 0 || buf[end - 1] == SPACE)) {
        buf[end] := ch;
        end := end + 1;
      }
      i := i + 1;
    }
    assert s[..|s|] == s;
    if i < |s| {
      PutTextFull(start, s, i, buf.Length);
    }
    buf[end] := 0;
  }

  method TrimEnd(buf: array<byte>, off: nat) returns (end: nat)
    requires off <= buf.Length
    ensures end <= off && buf[..end] == Trim(buf[..off])
  {
    end := off;
    while end > 0 && buf[end - 1] == SPACE
      invariant end <= off && Trim(buf[..end]) == Trim(buf[..off])
    {
      assert buf[..end][..end - 1] == buf[..end - 1];
      end := end - 1;
    }
  }

  method FindCut(buf: array<byte>, off: nat, p: nat) returns (q: nat)
    requires p < off <= buf.Length
    ensures q == BackOff(buf[..off], p)
  {
    q := p;
    while q > 0 && Tail(buf[q])
      invariant q <= p && BackOff(buf[..off], p) == BackOff(buf[..off], q)
    {
      q := q - 1;
    }
  }

  method BuildHead(buf: array<byte>, title: seq<byte>) returns (off: nat)
    requires buf.Length == BUF
    modifies buf
    ensures off < BUF && buf[..off] == Head(title)
  {
    hide PutText, Trim;
    off := PutInto(buf, 0, title);
    assert buf[..0] == [];
    assert buf[..off] == PutText([], title, BUF);
    off := TrimEnd(buf, off);
    ghost var h := buf[..off];
    if off > 0 && off + 2 < BUF {
      buf[off], buf[off + 1] := 58, 32;
      off := off + 2;
      assert buf[..off] == h + COLON;
    }
  }

  /** Cut to the limit, with dots. */
  method CutToLimit(buf: array<byte>, end: nat, max: nat) returns (off: nat)
    requires buf.Length == BUF && 4 <= max < end < BUF && max <= MSG_MAX
    modifies buf
    ensures off < BUF
    ensures buf[..off] == Trim(old(buf[..end])[..BackOff(old(buf[..end]), max - 3)]) + DOTS
  {
    hide Trim, BackOff;
    var q := FindCut(buf, end, max - 3);
    assert buf[..q] == buf[..end][..q];
    off := TrimEnd(buf, q);
    ghost var p := buf[..off];
    buf[off], buf[off + 1], buf[off + 2] := 46, 46, 46;
    off := off + 3;
    assert buf[..off] == p + DOTS;
  }

  /** The snprintf() into the caller's buffer. */
  method CopyOut(buf: array<byte>, off: nat, out: array<byte>) returns (n: nat)
    requires off <= buf.Length && out.Length > 0 && out != buf
    modifies out
    ensures n == Min(off, out.Length - 1) && out[n] == 0 && out[..n] == buf[..off][..n]
  {
    n := if off < out.Length - 1 then off else out.Length - 1;
    forall i | 0 <= i < n {
      out[i] := buf[i];
    }
    out[n] := 0;
  }

  /** Title and message, before the cut. */
  method BuildWhole(buf: array<byte>, title: seq<byte>, message: seq<byte>) returns (off: nat)
    requires buf.Length == BUF
    modifies buf
    ensures off < BUF && buf[..off] == Trim(PutText(Head(title), message, BUF))
  {
    hide PutText, Head, Trim;
    off := BuildHead(buf, title);
    off := PutInto(buf, off, message);
    off := TrimEnd(buf, off);
  }

  /** The message by itself: whether it shows anything. */
  method ShowsNothing(buf: array<byte>, message: seq<byte>) returns (blank: bool)
    requires buf.Length == BUF
    modifies buf
    ensures blank <==> PutText([], message, BUF) == []
  {
    hide PutText;
    var off := PutInto(buf, 0, message);
    assert buf[..0] == [];
    assert buf[..off] == PutText([], message, BUF);
    blank := off == 0;
  }

  /** tb_message(): the length of the text written to out, before its
      terminator. */
  method BuildText(title: seq<byte>, message: seq<byte>, out: array<byte>) returns (n: nat)
    modifies out
    ensures out.Length == 0 ==> n == 0
    ensures out.Length > 0 ==> n < out.Length && out[n] == 0 && out[..n] == Text(title, message, out.Length)
  {
    hide PutText, Head, Trim, BackOff, Text;
    if out.Length == 0 { return 0; }
    var max := if out.Length - 1 < MSG_MAX then out.Length - 1 else MSG_MAX;
    var buf := new byte[BUF](_ => 0);
    var blank := ShowsNothing(buf, message);
    if blank {
      BlankText(title, message, out.Length);
      out[0] := 0;
      return 0;
    }
    var off := BuildWhole(buf, title, message);
    ghost var whole := buf[..off];
    if off > max && max >= 4 { off := CutToLimit(buf, off, max); }
    FinishedText(title, message, out.Length, whole, buf[..off]);
    n := CopyOut(buf, off, out);
  }

  /** What is in the buffer at the end is the text, up to the caller's room. */
  lemma {:induction false} FinishedText(
      title: seq<byte>, message: seq<byte>, cap: nat, whole: seq<byte>, final: seq<byte>)
    requires cap > 0 && PutText([], message, BUF) != [] && whole == Trim(PutText(Head(title), message, BUF))
    requires final ==
      if |whole| > Limit(cap) && Limit(cap) >= 4 then Trim(whole[..BackOff(whole, Limit(cap) - 3)]) + DOTS else whole
    ensures Text(title, message, cap) == final[..Min(|final|, cap - 1)]
  {
    hide PutText, Head, Trim, BackOff;
    if |whole| > Limit(cap) && Limit(cap) >= 4 {
      assert |final| <= cap - 1;
      assert final[..|final|] == final;
    }
  }

  lemma {:induction false} BlankText(title: seq<byte>, message: seq<byte>, cap: nat)
    requires cap > 0 && PutText([], message, BUF) == []
    ensures Text(title, message, cap) == []
  {}
}
