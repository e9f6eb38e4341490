/** The text of a message (put_text() and tb_message() in src/textbelt/tb.c):
    what it is, word by word, and what the program builds byte by byte. */
module Message {
  import opened Bytes
  import opened Utf8

  const MSG_MAX := 320
  const BUF := MSG_MAX * 2 + 8
  const SPACE: byte := 32
  const DOTS: seq<byte> := [46, 46, 46]
  const COLON: seq<byte> := [58, 32]

  // ----- What the text is -----

  predicate Blank(b: byte) {
    b <= SPACE
  }

  /** The words between blanks and controls. */
  function Words(s: seq<byte>): seq<seq<byte>> {
    if s == [] then []
    else
      var before, b := s[..|s| - 1], s[|s| - 1];
      var ws := Words(before);
      if Blank(b) then ws
      else if before == [] || Blank(before[|before| - 1]) || ws == [] then ws + [[b]]
      else ws[..|ws| - 1] + [ws[|ws| - 1] + [b]]
  }

  /** One space between words. */
  function Join(ws: seq<seq<byte>>): seq<byte> {
    if ws == [] then []
    else if |ws| == 1 then ws[0]
    else Join(ws[..|ws| - 1]) + [SPACE] + ws[|ws| - 1]
  }

  function Display(s: seq<byte>): seq<byte> {
    Join(Words(s))
  }

  /** The whole text: the title, if it has words, and the message. */
  function Full(title: seq<byte>, message: seq<byte>): seq<byte> {
    if Words(title) == [] then Display(message) else Display(title) + COLON + Display(message)
  }

  // ----- What the program does -----

  /** One character of put_text(). */
  function Put(out: seq<byte>, b: byte): seq<byte> {
    var ch: byte := if b < SPACE then SPACE else b;
    if ch == SPACE && (out == [] || out[|out| - 1] == SPACE) then out else out + [ch]
  }

  /** put_text(), in a buffer of so many bytes with its terminator. */
  function PutText(out: seq<byte>, s: seq<byte>, cap: nat): (r: seq<byte>)
    ensures |r| >= |out| && r[..|out|] == out
    ensures |out| < cap ==> |r| < cap
  {
    if s == [] then out
    else
      var r := PutText(out, s[..|s| - 1], cap);
      if |r| + 1 < cap then Put(r, s[|s| - 1]) else r
  }

  function Trim(s: seq<byte>): (r: seq<byte>)
    ensures |r| <= |s| && r == s[..|r|]
  {
    if s != [] && s[|s| - 1] == SPACE then Trim(s[..|s| - 1]) else s
  }

  /** The last place at or before p that does not continue a character. */
  function BackOff(s: seq<byte>, p: nat): (q: nat)
    requires p < |s|
    ensures q <= p && (q == 0 || !Tail(s[q])) && forall i :: q < i <= p ==> Tail(s[i])
  {
    if p > 0 && Tail(s[p]) then BackOff(s, p - 1) else p
  }

  function Limit(cap: nat): nat
    requires cap > 0
  {
    Min(cap - 1, MSG_MAX)
  }

  function Head(title: seq<byte>): (h: seq<byte>)
    ensures |h| < BUF
  {
    var h := Trim(PutText([], title, BUF));
    if h != [] && |h| + 2 < BUF then h + COLON else h
  }

  /** tb_message(): the bytes before the terminator. */
  function Text(title: seq<byte>, message: seq<byte>, cap: nat): (r: seq<byte>)
    requires cap > 0
  {
    if PutText([], message, BUF) == [] then []
    else
      var whole, max := Trim(PutText(Head(title), message, BUF)), Limit(cap);
      if |whole| > max && max >= 4 then Trim(whole[..BackOff(whole, max - 3)]) + DOTS
      else whole[..Min(|whole|, cap - 1)]
  }

  // ----- Without the buffer's bound -----

  function PutAll(out: seq<byte>, s: seq<byte>): seq<byte> {
    if s == [] then out else Put(PutAll(out, s[..|s| - 1]), s[|s| - 1])
  }

  function Prefix(s: seq<byte>, n: nat): seq<byte> {
    s[..Min(|s|, n)]
  }

  lemma {:induction false} PutTextIsPrefix(out: seq<byte>, s: seq<byte>, cap: nat)
    requires |out| < cap
    ensures PutText(out, s, cap) == Prefix(PutAll(out, s), cap - 1)
  {
    if s != [] {
      PutTextIsPrefix(out, s[..|s| - 1], cap);
    }
  }

  predicate EndsBlank(s: seq<byte>) {
    s != [] && Blank(s[|s| - 1])
  }

  predicate EndsInSpace(s: seq<byte>) {
    s != [] && s[|s| - 1] == SPACE
  }

  /** Words have no blank in them and are not empty. */
  lemma {:induction false} WordsAreWords(s: seq<byte>)
    ensures forall w :: w in Words(s) ==> w != [] && !Blank(w[|w| - 1])
    ensures s != [] && !EndsBlank(s) ==> Words(s) != []
  {
    if s != [] {
      WordsAreWords(s[..|s| - 1]);
    }
  }

  lemma {:induction false} JoinNone()
    ensures Join([]) == []
  {}

  lemma {:induction false} JoinLast(ws: seq<seq<byte>>, w: seq<byte>)
    ensures Join(ws + [w]) == if ws == [] then w else Join(ws) + [SPACE] + w
  {
    assert (ws + [w])[..|ws|] == ws;
  }

  /** Text that ends in a word, and its next byte. */
  lemma {:induction false} JoinLonger(ws: seq<seq<byte>>, b: byte)
    requires ws != []
    ensures Join(ws[..|ws| - 1] + [ws[|ws| - 1] + [b]]) == Join(ws) + [b]
  {
    JoinLast(ws[..|ws| - 1], ws[|ws| - 1] + [b]);
    JoinLast(ws[..|ws| - 1], ws[|ws| - 1]);
    assert ws == ws[..|ws| - 1] + [ws[|ws| - 1]];
  }

  lemma {:induction false} JoinEnds(ws: seq<seq<byte>>)
    requires ws != [] && forall w :: w in ws ==> w != [] && !Blank(w[|w| - 1])
    ensures Join(ws) != [] && !Blank(Join(ws)[|Join(ws)| - 1])
  {
    assert ws[|ws| - 1] in ws;
  }

  lemma {:induction false} DisplayNone()
    ensures Words([]) == [] && Display([]) == []
  {}

  /** What one more byte does to the text. */
  lemma {:induction false} DisplaySnoc(before: seq<byte>, b: byte)
    ensures Words(before + [b]) == [] <==> Words(before) == [] && Blank(b)
    ensures Display(before + [b]) ==
      if Blank(b) then Display(before)
      else if Words(before) == [] then [b]
      else if EndsBlank(before) then Display(before) + [SPACE] + [b]
      else Display(before) + [b]
    ensures Words(before) != [] ==> Display(before) != [] && !Blank(Display(before)[|Display(before)| - 1])
    ensures Words(before) == [] ==> Display(before) == [] && (before == [] || EndsBlank(before))
  {
    hide Join;
    var ws := Words(before);
    assert (before + [b])[..|before|] == before;
    JoinNone();
    WordsAreWords(before);
    if ws != [] {
      JoinEnds(ws);
    }
    if !Blank(b) {
      if before == [] || EndsBlank(before) {
        JoinLast(ws, [b]);
      } else {
        JoinLonger(ws, b);
      }
    }
  }

  /** put_text() writes the words with one space between them, and one more if
      a blank comes after the last. */
  lemma {:induction false} PutAllDisplays(s: seq<byte>)
    ensures PutAll([], s) == Display(s) + if Words(s) != [] && EndsBlank(s) then [SPACE] else []
  {
    hide Words, Join, Display;
    if s == [] {
      DisplayNone();
    } else {
      var before, b := s[..|s| - 1], s[|s| - 1];
      assert s == before + [b];
      PutAllDisplays(before);
      DisplaySnoc(before, b);
    }
  }

  lemma {:induction false} DisplayEnds(s: seq<byte>)
    ensures (Display(s) == []) == (Words(s) == [])
    ensures !EndsInSpace(Display(s))
  {
    WordsAreWords(s);
    if Words(s) != [] {
      JoinEnds(Words(s));
    }
  }

  lemma {:induction false} TrimDisplay(s: seq<byte>)
    ensures Trim(PutAll([], s)) == Display(s)
  {
    PutAllDisplays(s);
    DisplayEnds(s);
    if Words(s) != [] && EndsBlank(s) {
      assert (Display(s) + [SPACE])[..|Display(s)|] == Display(s);
    }
  }

  /** Behind nothing, or behind a space, text is put as in an empty buffer. */
  lemma {:induction false} PutBehind(out: seq<byte>, s: seq<byte>)
    requires out == [] || EndsInSpace(out)
    ensures PutAll(out, s) == out + PutAll([], s)
  {
    if s != [] {
      PutBehind(out, s[..|s| - 1]);
    }
  }

  lemma {:induction false} TrimBehind(a: seq<byte>, b: seq<byte>)
    requires b != [] && !EndsInSpace(Trim(b)) && Trim(b) != []
    ensures Trim(a + b) == a + Trim(b)
    decreases |b|
  {
    if EndsInSpace(b) {
      assert (a + b)[..|a + b| - 1] == a + b[..|b| - 1];
      TrimBehind(a, b[..|b| - 1]);
    }
  }

  // ----- Tidy text -----

  /** Nothing below a space, no space first, none behind another. */
  predicate Tidy(s: seq<byte>) {
    && (forall i :: 0 <= i < |s| ==> s[i] >= SPACE)
    && (forall i :: 0 <= i < |s| && s[i] == SPACE ==> i > 0 && s[i - 1] != SPACE)
  }

  lemma {:induction false} PutAllTidy(out: seq<byte>, s: seq<byte>)
    requires Tidy(out)
    ensures Tidy(PutAll(out, s))
  {
    if s != [] {
      PutAllTidy(out, s[..|s| - 1]);
    }
  }

  lemma {:induction false} TrimTidy(s: seq<byte>)
    requires Tidy(s)
    ensures Tidy(Trim(s)) && |Trim(s)| >= |s| - 1 && !EndsInSpace(Trim(s))
  {
    if EndsInSpace(s) {
      var t := s[..|s| - 1];
      assert s[|s| - 1] == SPACE;
      assert t != [] && t[|t| - 1] == s[|s| - 2];
    }
  }

  lemma {:induction false} TrimStops(s: seq<byte>, n: nat)
    requires 0 < n <= |s| && s[n - 1] != SPACE
    ensures |Trim(s)| >= n
    decreases |s|
  {
    if s[|s| - 1] == SPACE {
      TrimStops(s[..|s| - 1], n);
    }
  }

  lemma {:induction false} TidyPrefix(s: seq<byte>, n: nat)
    requires Tidy(s) && n <= |s|
    ensures Tidy(s[..n])
  {}

  lemma {:induction false} TidyPair(a: seq<byte>, b: seq<byte>)
    requires Tidy(a) && Tidy(b) && a != [] && !EndsInSpace(a)
    ensures Tidy(a + COLON + b)
  {}

  lemma {:induction false} FullTidy(title: seq<byte>, message: seq<byte>)
    requires Words(message) != []
    ensures Tidy(Full(title, message)) && !EndsInSpace(Full(title, message)) && Full(title, message) != []
  {
    hide Words, Display, Full, Tidy;
    DisplayTidy(title);
    DisplayTidy(message);
    DisplayEnds(title);
    DisplayEnds(message);
    FullIs(title, message);
    if Display(title) != [] {
      TidyPair(Display(title), Display(message));
    }
  }

  lemma {:induction false} DisplayTidy(s: seq<byte>)
    ensures Tidy(Display(s))
  {
    PutAllTidy([], s);
    TrimTidy(PutAll([], s));
    TrimDisplay(s);
  }

  // ----- The buffer is large enough -----

  const LONG := MSG_MAX + 1

  /** Equal as far as a message can show. */
  predicate Agree(a: seq<byte>, b: seq<byte>) {
    a == b || (|a| > LONG && |b| > LONG && a[..LONG] == b[..LONG])
  }

  /** Two long beginnings of one text agree. */
  lemma {:induction false} BothBegin(a: seq<byte>, b: seq<byte>, whole: seq<byte>)
    requires LONG < |a| <= |whole| && a == whole[..|a|]
    requires LONG < |b| <= |whole| && b == whole[..|b|]
    ensures Agree(a, b)
  {
    assert a[..LONG] == whole[..LONG] == b[..LONG];
  }

  lemma {:induction false} LongCut(all: seq<byte>)
    requires Tidy(all) && |all| >= BUF
    ensures Agree(Trim(all[..BUF - 1]), Trim(all))
    ensures |Trim(all[..BUF - 1])| + 2 >= BUF && |Trim(all)| + 2 >= BUF
  {
    hide Tidy, Trim;
    TrimTidy(all);
    TidyPrefix(all, BUF - 1);
    var p := all[..BUF - 1];
    TrimTidy(p);
    assert Trim(p) == p[..|Trim(p)|] == all[..|Trim(p)|];
    BothBegin(Trim(p), Trim(all), all);
  }

  /** What is put behind a tidy start that ends in a space, or nothing. */
  lemma {:induction false} PutMessage(head: seq<byte>, s: seq<byte>)
    requires Tidy(head) && (head == [] || EndsInSpace(head)) && |head| < BUF && Words(s) != []
    ensures Agree(Trim(PutText(head, s, BUF)), head + Display(s))
  {
    hide Words, Display, Tidy, Trim, PutAll, PutText;
    var all, full := PutAll(head, s), head + Display(s);
    PutTextIsPrefix(head, s, BUF);
    PutBehind(head, s);
    TrimDisplay(s);
    DisplayEnds(s);
    assert PutAll([], s) != [];
    TrimBehind(head, PutAll([], s));
    assert full == Trim(all);
    if |all| >= BUF {
      PutAllTidy(head, s);
      LongCut(all);
    } else {
      assert Prefix(all, BUF - 1) == all;
    }
  }

  lemma {:induction false} HeadIs(title: seq<byte>)
    ensures var d := Display(title); var h := Head(title);
      if d == [] then h == []
      else if |PutAll([], title)| < BUF && |d| + 2 < BUF then h == d + COLON
      else |h| > LONG && |d| > LONG && h[..LONG] == d[..LONG] && !EndsInSpace(h)
  {
    hide Words, Display, Tidy, Trim, PutAll, PutText;
    var all, d := PutAll([], title), Display(title);
    PutTextIsPrefix([], title, BUF);
    TrimDisplay(title);
    DisplayEnds(title);
    assert Tidy([]) by { TidyNothing(); }
    PutAllTidy([], title);
    if |all| >= BUF {
      LongCut(all);
      TidyPrefix(all, BUF - 1);
      TrimTidy(all[..BUF - 1]);
    } else {
      assert Prefix(all, BUF - 1) == all;
    }
  }

  lemma {:induction false} TidyNothing()
    ensures Tidy([])
  {}

  /** The text built in the buffer is the whole text, as far as it shows. */
  lemma {:induction false} WholeIsFull(title: seq<byte>, message: seq<byte>)
    requires Words(message) != []
    ensures Agree(Trim(PutText(Head(title), message, BUF)), Full(title, message))
  {
    var h, d := Head(title), Display(title);
    hide Head, Full, Display, PutText, Trim;
    HeadIs(title);
    DisplayEnds(title);
    if d == [] {
      PutMessage([], message);
      FullIs(title, message);
      assert [] + Display(message) == Display(message);
    } else if |PutAll([], title)| < BUF && |d| + 2 < BUF {
      DisplayTidy(title);
      assert Tidy(h);
      PutMessage(h, message);
      FullIs(title, message);
    } else {
      LongTitleIsFull(title, message);
    }
  }

  /** A title that fills the buffer. */
  lemma {:induction false} LongTitleIsFull(title: seq<byte>, message: seq<byte>)
    requires Display(title) != [] && !(|PutAll([], title)| < BUF && |Display(title)| + 2 < BUF)
    ensures Agree(Trim(PutText(Head(title), message, BUF)), Full(title, message))
  {
    var h, d := Head(title), Display(title);
    hide Head, Full, Display, PutText, Trim, PutAll, Words;
    HeadIs(title);
    DisplayEnds(title);
    var r := PutText(h, message, BUF);
    assert r[|h| - 1] == h[|h| - 1];
    TrimStops(r, |h|);
    FullIs(title, message);
    assert Full(title, message)[..LONG] == d[..LONG];
    assert Trim(r)[..LONG] == r[..LONG] == r[..|h|][..LONG];
  }

  lemma {:induction false} FullIs(title: seq<byte>, message: seq<byte>)
    ensures Full(title, message) ==
      if Display(title) == [] then Display(message) else Display(title) + COLON + Display(message)
  {
    DisplayEnds(title);
  }

  // ----- What is sent -----

  /** The whole text if it fits, or as much of it as does before the dots. */
  function Shown(full: seq<byte>, cap: nat): seq<byte>
    requires cap > 0
  {
    var max := Limit(cap);
    if |full| <= max then full
    else if max >= 4 then Trim(full[..BackOff(full, max - 3)]) + DOTS
    else full[..cap - 1]
  }

  /** A message is its title and its words, cut where the limit says; a blank
      message is nothing, whatever its title. */
  lemma {:induction false} TextIsShown(title: seq<byte>, message: seq<byte>, cap: nat)
    requires cap > 0
    ensures Text(title, message, cap) == if Words(message) == [] then [] else Shown(Full(title, message), cap)
  {
    hide PutText, Head, Full, Words, Display, Trim, PutAll;
    NothingPut(message);
    if Words(message) != [] {
      WholeIsFull(title, message);
      var whole, full := Trim(PutText(Head(title), message, BUF)), Full(title, message);
      TextIsWhole(title, message, cap);
      hide Text;
      if whole != full {
        AgreeShown(whole, full, cap);
      }
    }
  }

  lemma {:induction false} NothingPut(s: seq<byte>)
    ensures PutText([], s, BUF) == [] <==> Words(s) == []
  {
    hide Words, Trim;
    PutTextIsPrefix([], s, BUF);
    TrimDisplay(s);
    DisplayEnds(s);
    assert PutAll([], s) == [] ==> Trim(PutAll([], s)) == [];
    PutAllDisplays(s);
  }

  lemma {:induction false} TextIsWhole(title: seq<byte>, message: seq<byte>, cap: nat)
    requires cap > 0 && PutText([], message, BUF) != []
    ensures Text(title, message, cap) == Shown(Trim(PutText(Head(title), message, BUF)), cap)
  {
    hide PutText, Head, Trim, BackOff;
    var whole := Trim(PutText(Head(title), message, BUF));
    if |whole| <= Limit(cap) {
      assert whole[..|whole|] == whole;
    }
  }

  lemma {:induction false} AgreeShown(a: seq<byte>, b: seq<byte>, cap: nat)
    requires cap > 0 && |a| > LONG && |b| > LONG && a[..LONG] == b[..LONG]
    ensures Shown(a, cap) == Shown(b, cap)
  {
    var max := Limit(cap);
    assert forall i :: 0 <= i < LONG ==> a[..LONG][i] == a[i] && b[..LONG][i] == b[i];
    if max >= 4 {
      SameBackOff(a, b, max - 3);
      var q := BackOff(a, max - 3);
      assert a[..q] == b[..q];
    } else {
      assert a[..cap - 1] == b[..cap - 1];
    }
  }

  lemma {:induction false} SameBackOff(a: seq<byte>, b: seq<byte>, p: nat)
    requires p < |a| && p < |b| && forall i :: 0 <= i <= p ==> a[i] == b[i]
    ensures BackOff(a, p) == BackOff(b, p)
  {}

  /** With room for five bytes, what is sent fits, has no control and no run of
      spaces, and neither begins nor ends in a space. */
  lemma {:induction false} TextIsTidy(title: seq<byte>, message: seq<byte>, cap: nat)
    requires cap >= 5
    ensures var r := Text(title, message, cap);
      |r| <= Limit(cap) && Tidy(r) && !EndsInSpace(r) && (r == [] <==> Words(message) == [])
  {
    hide Words, Text, Full, Tidy, Trim, BackOff;
    TextIsShown(title, message, cap);
    if Words(message) != [] {
      FullTidy(title, message);
      var full, max := Full(title, message), Limit(cap);
      if |full| > max {
        var q := BackOff(full, max - 3);
        TidyPrefix(full, q);
        TrimTidy(full[..q]);
        TidyDots(Trim(full[..q]));
      }
    } else {
      TidyNothing();
    }
  }

  lemma {:induction false} TidyDots(s: seq<byte>)
    requires Tidy(s)
    ensures Tidy(s + DOTS) && !EndsInSpace(s + DOTS)
  {}

  // ----- It stays valid -----

  lemma {:induction false} PutAllReads(s: seq<byte>)
    requires Read(s) != Bad
    ensures Read(PutAll([], s)) == Read(s)
  {
    hide Step, Read;
    if s != [] {
      var before, b := s[..|s| - 1], s[|s| - 1];
      assert s == before + [b];
      NotBadBefore(s, |s| - 1);
      PutAllReads(before);
      var out := PutAll([], before);
      ReadOne(before, b);
      ReadOne(out, b);
      ReadOne(out, SPACE);
      if b <= SPACE {
        if Read(before).Need? {
          NeedsTail(before);
        }
        AsciiBetween(Read(before), b);
      }
    }
  }

  /** A byte below 128 comes only between characters. */
  lemma {:induction false} AsciiBetween(st: State, b: byte)
    requires b <= SPACE && Step(st, b) != Bad && (st.Need? ==> st.lo >= 0x80)
    ensures st == Between && Step(st, b) == Between && Step(st, SPACE) == Between
  {}

  lemma {:induction false} TrimValid(s: seq<byte>)
    requires Valid(s)
    ensures Valid(Trim(s))
  {
    if EndsInSpace(s) {
      CutExactlyWhen(s, |s| - 1);
      TrimValid(s[..|s| - 1]);
    }
  }

  lemma {:induction false} ReadBehind(a: seq<byte>, b: seq<byte>)
    requires Read(a) == Between
    ensures Read(a + b) == Read(b)
  {
    if b == [] {
      assert a + b == a;
    } else {
      assert a + b == (a + b[..|b| - 1]) + [b[|b| - 1]];
      ReadOne(a + b[..|b| - 1], b[|b| - 1]);
      ReadBehind(a, b[..|b| - 1]);
    }
  }

  lemma {:induction false} DisplayValid(s: seq<byte>)
    requires Valid(s)
    ensures Valid(Display(s))
  {
    ValidExactlyWhen(s);
    PutAllReads(s);
    ValidExactlyWhen(PutAll([], s));
    TrimDisplay(s);
    TrimValid(PutAll([], s));
  }

  lemma {:induction false} FullValid(title: seq<byte>, message: seq<byte>)
    requires Valid(title) && Valid(message)
    ensures Valid(Full(title, message))
  {
    var d, m := Display(title), Display(message);
    DisplayValid(title);
    DisplayValid(message);
    ValidExactlyWhen(d);
    ValidExactlyWhen(m);
    ValidExactlyWhen(d + COLON + m);
    ReadOne(d, 58);
    ReadOne(d + [58], 32);
    assert d + COLON == d + [58] + [32];
    ReadBehind(d + COLON, m);
  }

  /** Valid text in, valid text out: always with room for five bytes, and with
      less exactly when the cut falls between characters. */
  lemma {:induction false} TextIsValid(title: seq<byte>, message: seq<byte>, cap: nat)
    requires cap > 0 && Valid(title) && Valid(message) && Words(message) != []
    ensures var full := Full(title, message);
      Valid(Text(title, message, cap)) <==> cap >= 5 || |full| < cap || !Tail(full[cap - 1])
  {
    hide Full, Words, Text, Valid, Tail, Trim, BackOff;
    TextIsShown(title, message, cap);
    FullValid(title, message);
    var full, max := Full(title, message), Limit(cap);
    if |full| > max {
      if max >= 4 {
        var q := BackOff(full, max - 3);
        CutExactlyWhen(full, q);
        EmptyValid();
        assert full[..0] == [];
        TrimValid(full[..q]);
        DotsValid(Trim(full[..q]));
      } else {
        CutExactlyWhen(full, cap - 1);
      }
    }
  }

  lemma {:induction false} EmptyValid()
    ensures Valid([])
  {}

  lemma {:induction false} DotsValid(s: seq<byte>)
    requires Valid(s)
    ensures Valid(s + DOTS)
  {
    ValidExactlyWhen(s);
    ReadOne(s, 46);
    ReadOne(s + [46], 46);
    ReadOne(s + [46] + [46], 46);
    assert s + DOTS == s + [46] + [46] + [46];
    ValidExactlyWhen(s + DOTS);
  }
}
