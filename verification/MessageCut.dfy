/** The text of a message without the program's own functions: which words it has,
    and where it is cut. */
module MessageCut {
  import opened Bytes
  import opened Utf8
  import opened Message

  // ----- Words -----

  lemma {:induction false} WordsSnoc(s: seq<byte>, b: byte)
    ensures Words(s + [b]) ==
      if b <= 32 then Words(s)
      else if s == [] || s[|s| - 1] <= 32 then Words(s) + [[b]]
      else Lengthen(Words(s), b)
    ensures s != [] && s[|s| - 1] > 32 ==> Words(s) != []
  {
    assert (s + [b])[..|s|] == s;
    WordsAreWords(s);
  }

  /** The last word gets one more byte. */
  function Lengthen(ws: seq<seq<byte>>, b: byte): seq<seq<byte>> {
    if ws == [] then [[b]] else ws[..|ws| - 1] + [ws[|ws| - 1] + [b]]
  }

  lemma {:induction false} LengthenBehind(v: seq<seq<byte>>, w: seq<seq<byte>>, b: byte)
    requires w != []
    ensures Lengthen(v + w, b) == v + Lengthen(w, b)
  {
    assert (v + w)[..|v + w| - 1] == v + w[..|w| - 1];
  }

  /** Bytes up to 32 part words... */
  lemma {:induction false} WordsPart(a: seq<byte>, b: byte, c: seq<byte>)
    requires b <= 32
    ensures Words(a + [b] + c) == Words(a) + Words(c)
    decreases |c|
  {
    hide Words, Lengthen;
    if c == [] {
      assert a + [b] + c == a + [b];
      WordsSnoc(a, b);
      NoWord();
    } else {
      var d, x := c[..|c| - 1], c[|c| - 1];
      WordsPart(a, b, d);
      assert a + [b] + c == (a + [b] + d) + [x] && c == d + [x];
      WordsSnoc(a + [b] + d, x);
      WordsSnoc(d, x);
      if x > 32 && d != [] && d[|d| - 1] > 32 {
        LengthenBehind(Words(a), Words(d), x);
      }
    }
  }

  /** ... and others make one. */
  lemma {:induction false} OneWord(w: seq<byte>)
    requires w != [] && forall i :: 0 <= i < |w| ==> w[i] > 32
    ensures Words(w) == [w]
  {
    hide Words;
    var d, x := w[..|w| - 1], w[|w| - 1];
    assert w == d + [x];
    WordsSnoc(d, x);
    if d == [] {
      NoWord();
    } else {
      OneWord(d);
    }
  }

  lemma {:induction false} NoWord()
    ensures Words([]) == []
  {}

  /** Words with one space between them. */
  lemma {:induction false} JoinIs(ws: seq<seq<byte>>, w: seq<byte>)
    ensures Join([]) == [] && Join([w]) == w
    ensures ws != [] ==> Join(ws + [w]) == Join(ws) + [32] + w
  {
    JoinLast(ws, w);
  }

  // ----- The cut -----

  predicate Continues(b: byte) {
    0x80 <= b < 0xC0
  }

  /** `r` is the text up to the last character that begins at or before `last`,
      without spaces at its end, and three dots. */
  predicate CutAt(full: seq<byte>, r: seq<byte>, last: nat, q: nat) {
    && q <= last < |full| && (q == 0 || !Continues(full[q])) && (forall i :: q < i <= last ==> Continues(full[i]))
    && 3 <= |r| <= q + 3 && r == full[..|r| - 3] + [46, 46, 46]
    && (forall i :: |r| - 3 <= i < q ==> full[i] == 32) && (|r| > 3 ==> full[|r| - 4] != 32)
  }

  predicate IsCut(full: seq<byte>, r: seq<byte>, last: nat) {
    exists q :: 0 <= q <= last && CutAt(full, r, last, q)
  }

  lemma {:induction false} ShownIsCut(full: seq<byte>, cap: nat, max: nat)
    requires cap >= 5 && max == Limit(cap) && |full| > max
    ensures IsCut(full, Shown(full, cap), max - 3)
  {
    hide BackOff, Trim;
    var q := BackOff(full, max - 3);
    TrimmedAt(full[..q]);
    var t := Trim(full[..q]);
    assert t == full[..|t|];
    forall i | |t| <= i < q ensures full[i] == 32 {
      assert full[..q][i] == full[i];
    }
    assert CutAt(full, t + DOTS, max - 3, q);
  }

  /** The message is its title, a colon and its words, or its words alone, if that fits
      the buffer and 320 bytes; if not, it is cut there.  A message without words
      is nothing. */
  lemma {:induction false} TextIsCut(title: seq<byte>, message: seq<byte>, cap: nat)
    requires cap >= 5
    ensures var max := if cap <= 320 then cap - 1 else 320;
      var r, body := Text(title, message, cap), Join(Words(message));
      var full := if Words(title) == [] then body else Join(Words(title)) + [58, 32] + body;
      if Words(message) == [] then r == []
      else if |full| <= max then r == full
      else IsCut(full, r, max - 3)
  {
    hide Text, Words, Join, Shown, IsCut;
    TextIsShown(title, message, cap);
    var max := if cap <= 320 then cap - 1 else 320;
    var full := Full(title, message);
    assert Limit(cap) == max;
    if |full| > max {
      ShownIsCut(full, cap, max);
    } else {
      ShownWhole(full, cap);
    }
  }

  lemma {:induction false} ShownWhole(full: seq<byte>, cap: nat)
    requires cap > 0 && |full| <= Limit(cap)
    ensures Shown(full, cap) == full
  {}

  lemma {:induction false} TrimmedAt(s: seq<byte>)
    ensures var t := Trim(s);
      && |t| <= |s| && t == s[..|t|] && (forall i :: |t| <= i < |s| ==> s[i] == 32)
      && (t != [] ==> t[|t| - 1] != 32)
  {
    if s != [] && s[|s| - 1] == SPACE {
      TrimmedAt(s[..|s| - 1]);
    }
  }
}
