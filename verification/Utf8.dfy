/** UTF-8 as section 4 of RFC 3629 gives it, and as a machine that reads one byte
    at a time. */
module Utf8 {
  import opened Bytes

  predicate Tail(b: byte) {
    0x80 <= b <= 0xBF
  }

  /** UTF8-char: the one to four bytes of a character. */
  predicate Character(c: seq<byte>) {
    if |c| == 1 then c[0] <= 0x7F
    else if |c| == 2 then 0xC2 <= c[0] <= 0xDF && Tail(c[1])
    else if |c| == 3 then
      && Tail(c[2])
      && (|| (c[0] == 0xE0 && 0xA0 <= c[1] <= 0xBF)
          || (0xE1 <= c[0] <= 0xEC && Tail(c[1]))
          || (c[0] == 0xED && 0x80 <= c[1] <= 0x9F)
          || (0xEE <= c[0] <= 0xEF && Tail(c[1])))
    else
      && |c| == 4 && Tail(c[2]) && Tail(c[3])
      && (|| (c[0] == 0xF0 && 0x90 <= c[1] <= 0xBF)
          || (0xF1 <= c[0] <= 0xF3 && Tail(c[1]))
          || (c[0] == 0xF4 && 0x80 <= c[1] <= 0x8F))
  }

  /** UTF8-octets: characters, one after the other. */
  predicate Valid(s: seq<byte>) {
    s == [] || exists n :: 1 <= n <= 4 && EndsIn(s, n) && Valid(s[..|s| - n])
  }

  predicate EndsIn(s: seq<byte>, n: nat) {
    n <= |s| && Character(s[|s| - n..])
  }

  // ----- The machine -----

  /** Between characters, or with so many bytes to come, the first in a range. */
  datatype State = Between | Need(n: nat, lo: byte, hi: byte) | Bad

  function Step(st: State, b: byte): State {
    match st
    case Between =>
      if b <= 0x7F then Between
      else if 0xC2 <= b <= 0xDF then Need(1, 0x80, 0xBF)
      else if b == 0xE0 then Need(2, 0xA0, 0xBF)
      else if b == 0xED then Need(2, 0x80, 0x9F)
      else if 0xE1 <= b <= 0xEF then Need(2, 0x80, 0xBF)
      else if b == 0xF0 then Need(3, 0x90, 0xBF)
      else if 0xF1 <= b <= 0xF3 then Need(3, 0x80, 0xBF)
      else if b == 0xF4 then Need(3, 0x80, 0x8F)
      else Bad
    case Need(n, lo, hi) =>
      if !(lo <= b <= hi) then Bad else if n <= 1 then Between else Need(n - 1, 0x80, 0xBF)
    case Bad => Bad
  }

  function Read(s: seq<byte>): State {
    if s == [] then Between else Step(Read(s[..|s| - 1]), s[|s| - 1])
  }

  // ----- They agree -----

  lemma {:induction false} ReadOne(s: seq<byte>, b: byte)
    ensures Read(s + [b]) == Step(Read(s), b)
  {
    assert (s + [b])[..|s|] == s;
  }

  lemma {:induction false} OneByte(a: byte)
    ensures Character([a]) <==> Step(Between, a) == Between
  {}

  lemma {:induction false} TwoBytes(a: byte, b: byte)
    ensures Character([a, b]) <==> Step(Between, a).Need? && Step(Step(Between, a), b) == Between
  {}

  lemma {:induction false} ThreeBytes(a: byte, b: byte, c: byte)
    ensures Character([a, b, c]) <==>
      Step(Between, a).Need? && Step(Step(Between, a), b).Need? && Step(Step(Step(Between, a), b), c) == Between
  {}

  lemma {:induction false} FourBytes(a: byte, b: byte, c: byte, d: byte)
    ensures Character([a, b, c, d]) <==>
      && Step(Between, a).Need? && Step(Step(Between, a), b).Need? && Step(Step(Step(Between, a), b), c).Need?
      && Step(Step(Step(Step(Between, a), b), c), d) == Between
  {}

  lemma {:induction false} ReadCharacter(s: seq<byte>, c: seq<byte>)
    requires Read(s) == Between && Character(c)
    ensures Read(s + c) == Between
  {
    hide Step, Read, Character;
    assert 1 <= |c| <= 4 by { CharacterLength(c); }
    ReadOne(s, c[0]);
    if |c| == 1 {
      assert c == [c[0]];
      OneByte(c[0]);
    } else {
      ReadOne(s + [c[0]], c[1]);
      if |c| == 2 {
        assert c == [c[0], c[1]] && s + [c[0]] + [c[1]] == s + c;
        TwoBytes(c[0], c[1]);
      } else {
        ReadOne(s + [c[0]] + [c[1]], c[2]);
        if |c| == 3 {
          assert c == [c[0], c[1], c[2]] && s + [c[0]] + [c[1]] + [c[2]] == s + c;
          ThreeBytes(c[0], c[1], c[2]);
        } else {
          ReadOne(s + [c[0]] + [c[1]] + [c[2]], c[3]);
          assert c == [c[0], c[1], c[2], c[3]] && s + [c[0]] + [c[1]] + [c[2]] + [c[3]] == s + c;
          FourBytes(c[0], c[1], c[2], c[3]);
        }
      }
    }
  }

  lemma {:induction false} CharacterLength(c: seq<byte>)
    requires Character(c)
    ensures 1 <= |c| <= 4
  {}

  /** A machine waiting for bytes has read the beginning of one character. */
  predicate Begun(s: seq<byte>, k: nat, st: State) {
    && 1 <= k <= 3 && k <= |s| && Read(s[..|s| - k]) == Between
    && st == (if k == 1 then Step(Between, s[|s| - 1])
              else if k == 2 then Step(Step(Between, s[|s| - 2]), s[|s| - 1])
              else Step(Step(Step(Between, s[|s| - 3]), s[|s| - 2]), s[|s| - 1]))
    && st.Need? && st.n + k <= 4
    && (k >= 2 ==> Step(Between, s[|s| - k]).Need?)
    && (k == 3 ==> Step(Step(Between, s[|s| - 3]), s[|s| - 2]).Need?)
  }

  lemma {:induction false} NeedHasBegun(s: seq<byte>) returns (k: nat)
    requires Read(s).Need?
    ensures Begun(s, k, Read(s))
  {
    var p := s[..|s| - 1];
    if Read(p) == Between {
      k := 1;
    } else {
      var j := NeedHasBegun(p);
      k := j + 1;
      assert p[..|p| - j] == s[..|s| - k];
    }
  }

  lemma {:induction false} BetweenIsValid(s: seq<byte>)
    requires Read(s) == Between
    ensures Valid(s)
  {
    if s != [] {
      var p := s[..|s| - 1];
      if Read(p) == Between {
        BetweenIsValid(p);
        assert EndsIn(s, 1);
      } else {
        var k := NeedHasBegun(p);
        assert p[..|p| - k] == s[..|s| - (k + 1)];
        BetweenIsValid(s[..|s| - (k + 1)]);
        LastCharacter(s, p, k);
      }
    }
  }

  lemma {:induction false} EndsWith(s: seq<byte>, c: seq<byte>)
    requires Character(c) && |c| <= |s| && forall i :: 0 <= i < |c| ==> s[|s| - |c| + i] == c[i]
    ensures EndsIn(s, |c|)
  {
    assert s[|s| - |c|..] == c;
  }

  lemma {:induction false} LastCharacter(s: seq<byte>, p: seq<byte>, k: nat)
    requires s != [] && p == s[..|s| - 1] && Begun(p, k, Read(p)) && Step(Read(p), s[|s| - 1]) == Between
    ensures EndsIn(s, k + 1)
  {
    hide Step, Read, Character, EndsIn;
    var last, one := s[|s| - 1], p[|p| - 1];
    if k == 1 {
      TwoBytes(one, last);
      EndsWith(s, [one, last]);
    } else {
      var two := p[|p| - 2];
      if k == 2 {
        ThreeBytes(two, one, last);
        EndsWith(s, [two, one, last]);
      } else {
        var three := p[|p| - 3];
        FourBytes(three, two, one, last);
        EndsWith(s, [three, two, one, last]);
      }
    }
  }

  lemma {:induction false} LastOfValid(s: seq<byte>) returns (n: nat)
    requires Valid(s) && s != []
    ensures 1 <= n <= 4 && EndsIn(s, n) && Valid(s[..|s| - n])
  {
    hide Character;
    n :| 1 <= n <= 4 && EndsIn(s, n) && Valid(s[..|s| - n]);
  }

  lemma {:induction false} ReadNothing()
    ensures Read([]) == Between
  {}

  lemma {:induction false} ValidIsBetween(s: seq<byte>)
    requires Valid(s)
    ensures Read(s) == Between
  {
    hide Valid, Read, Character, Step;
    if s == [] {
      ReadNothing();
    } else {
      var n := LastOfValid(s);
      ValidIsBetween(s[..|s| - n]);
      ReadCharacter(s[..|s| - n], s[|s| - n..]);
      assert s[..|s| - n] + s[|s| - n..] == s;
    }
  }

  /** The machine ends between characters exactly on valid strings. */
  lemma {:induction false} ValidExactlyWhen(s: seq<byte>)
    ensures Valid(s) <==> Read(s) == Between
  {
    hide Valid, Read;
    if Read(s) == Between {
      BetweenIsValid(s);
    }
    if Valid(s) {
      ValidIsBetween(s);
    }
  }

  // ----- Cutting -----

  /** What the machine has not refused before the end it has not refused at any
      earlier point. */
  lemma {:induction false} NotBadBefore(s: seq<byte>, p: nat)
    requires Read(s) != Bad && p <= |s|
    ensures Read(s[..p]) != Bad
  {
    if p < |s| {
      NotBadBefore(s[..|s| - 1], p);
      assert s[..|s| - 1][..p] == s[..p];
    } else {
      assert s[..p] == s;
    }
  }

  lemma {:induction false} NeedsTail(s: seq<byte>)
    requires Read(s).Need?
    ensures 0x80 <= Read(s).lo && Read(s).hi <= 0xBF
  {
    if Read(s[..|s| - 1]).Need? {
      NeedsTail(s[..|s| - 1]);
    }
  }

  /** What the machine takes next, it takes between characters unless it
      continues one. */
  lemma {:induction false} NextByte(st: State, b: byte)
    requires st != Bad && Step(st, b) != Bad && (st.Need? ==> 0x80 <= st.lo && st.hi <= 0xBF)
    ensures st == Between <==> !Tail(b)
  {}

  /** A valid string may be cut exactly where it ends or where the next byte
      does not continue a character. */
  lemma {:induction false} CutExactlyWhen(s: seq<byte>, p: nat)
    requires Valid(s) && p <= |s|
    ensures Valid(s[..p]) <==> p == |s| || !Tail(s[p])
  {
    hide Step, Read, Tail, Valid;
    ValidExactlyWhen(s);
    ValidExactlyWhen(s[..p]);
    NotBadBefore(s, p);
    if p < |s| {
      NotBadBefore(s, p + 1);
      assert s[..p + 1] == s[..p] + [s[p]];
      ReadOne(s[..p], s[p]);
      if Read(s[..p]).Need? {
        NeedsTail(s[..p]);
      }
      NextByte(Read(s[..p]), s[p]);
    } else {
      assert s[..p] == s;
    }
  }
}
