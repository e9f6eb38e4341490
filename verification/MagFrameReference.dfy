/** A reference framer that moves one byte or one packet at a time and keeps
    only merged runs of skipped bytes.  The framer refines it, and it gives the
    same result however its input is cut, so the framer does too: "a stalled
    reader changes nothing" (src/magnum/mag_frame.h:35-38). */
module MagFrameReference {
  import opened Bytes
  import opened MagFrame

  /** The framer's state without the counters a cut can change; `runs` is the
      log with adjacent skipped runs merged. */
  datatype Tap = Tap(
    buf: seq<byte>,
    phase: Phase,
    synced: bool,
    id: Option<Ident>,
    probe: Option<Ident>,
    held: seq<Packet>,
    stats: Stats,
    runs: seq<Packet>)

  // ----- Merged logs -----

  function AddUnknown(runs: seq<Packet>, b: seq<byte>): seq<Packet> {
    if b == [] then runs
    else if runs != [] && runs[|runs| - 1].kind == Unknown then
      runs[..|runs| - 1] + [Packet(Unknown, runs[|runs| - 1].bytes + b)]
    else runs + [Packet(Unknown, b)]
  }

  function Add(runs: seq<Packet>, p: Packet): seq<Packet> {
    if p.kind == Unknown then AddUnknown(runs, p.bytes) else runs + [p]
  }

  function Merge(log: seq<Packet>): seq<Packet> {
    if log == [] then [] else Add(Merge(log[..|log| - 1]), log[|log| - 1])
  }

  function Typed(ps: seq<Packet>): seq<Packet> {
    if ps == [] then []
    else Typed(ps[..|ps| - 1]) + if ps[|ps| - 1].kind == Unknown then [] else [ps[|ps| - 1]]
  }

  lemma {:induction false} AddUnknownTwice(runs: seq<Packet>, a: seq<byte>, b: seq<byte>)
    ensures AddUnknown(AddUnknown(runs, a), b) == AddUnknown(runs, a + b)
  {
    if a == [] {
      assert a + b == b;
    } else if b == [] {
      assert a + b == a;
    } else {
      var one := AddUnknown(runs, a);
      assert one[|one| - 1].kind == Unknown;
      if runs != [] && runs[|runs| - 1].kind == Unknown {
        assert runs[|runs| - 1].bytes + (a + b) == one[|one| - 1].bytes + b;
        assert one[..|one| - 1] == runs[..|runs| - 1];
      } else {
        assert one[..|one| - 1] == runs;
      }
    }
  }

  lemma {:induction false} MergeSnoc(log: seq<Packet>, p: Packet)
    ensures Merge(log + [p]) == Add(Merge(log), p)
  {
    var l := log + [p];
    assert l[..|l| - 1] == log && l[|l| - 1] == p;
  }

  /** Held packets given up add one run of their bytes. */
  lemma {:induction false} MergeDowngraded(log: seq<Packet>, held: seq<Packet>)
    ensures Merge(log + DowngradeAll(held)) == AddUnknown(Merge(log), AllBytes(held))
  {
    if held == [] {
      assert log + DowngradeAll(held) == log;
    } else {
      var init, last := held[..|held| - 1], held[|held| - 1];
      assert DowngradeAll(held) == DowngradeAll(init) + [Downgrade(last)];
      assert log + DowngradeAll(held) == (log + DowngradeAll(init)) + [Downgrade(last)];
      MergeSnoc(log + DowngradeAll(init), Downgrade(last));
      MergeDowngraded(log, init);
      AddUnknownTwice(Merge(log), AllBytes(init), last.bytes);
    }
  }

  predicate AllTyped(ps: seq<Packet>) {
    forall i :: 0 <= i < |ps| ==> ps[i].kind != Unknown
  }

  lemma {:induction false} MergeTyped(log: seq<Packet>, ps: seq<Packet>)
    requires AllTyped(ps)
    ensures Merge(log + ps) == Merge(log) + ps
  {
    if ps == [] {
      assert log + ps == log && Merge(log) + ps == Merge(log);
    } else {
      var init, last := ps[..|ps| - 1], ps[|ps| - 1];
      assert log + ps == (log + init) + [last];
      MergeTyped(log, init);
      MergeSnoc(log + init, last);
      assert Merge(log) + init + [last] == Merge(log) + ps;
    }
  }

  predicate RunsApart(ps: seq<Packet>) {
    forall i :: 0 < i < |ps| && ps[i].kind == Unknown ==> ps[i - 1].kind != Unknown
  }

  lemma {:induction false} LastOf(m: seq<Packet>, p: Packet)
    ensures AllBytes(m + [p]) == AllBytes(m) + p.bytes
    ensures Typed(m + [p]) == Typed(m) + if p.kind == Unknown then [] else [p]
  {
    assert (m + [p])[..|m|] == m;
  }

  lemma {:induction false} AddMeaning(m: seq<Packet>, p: Packet)
    requires RunsApart(m)
    ensures RunsApart(Add(m, p))
    ensures AllBytes(Add(m, p)) == AllBytes(m) + p.bytes
    ensures Typed(Add(m, p)) == Typed(m) + if p.kind == Unknown then [] else [p]
  {
    if p.kind == Unknown && p.bytes == [] {
      assert AllBytes(m) + p.bytes == AllBytes(m);
    } else if p.kind == Unknown && m != [] && m[|m| - 1].kind == Unknown {
      var init, last := m[..|m| - 1], m[|m| - 1];
      assert m == init + [last];
      LastOf(init, last);
      LastOf(init, Packet(Unknown, last.bytes + p.bytes));
    } else {
      LastOf(m, p);
    }
  }

  /** Merging loses nothing: the same typed packets and the same bytes, in
      the same order; no two skipped runs are left side by side. */
  lemma {:induction false} MergeMeaning(log: seq<Packet>)
    ensures Typed(Merge(log)) == Typed(log)
    ensures AllBytes(Merge(log)) == AllBytes(log)
    ensures RunsApart(Merge(log))
  {
    if log != [] {
      MergeMeaning(log[..|log| - 1]);
      AddMeaning(Merge(log[..|log| - 1]), log[|log| - 1]);
    }
  }

  // ----- The reference step -----

  function Send(t: Tap, p: Packet): Tap {
    if t.probe.Some? then t.(held := t.held + [p])
    else t.(runs := t.runs + [p], stats := t.stats.(packets := t.stats.packets + multiset{p.kind}))
  }

  function GiveUp(t: Tap): Tap {
    t.(runs := AddUnknown(t.runs, AllBytes(t.held)), held := [], probe := None,
       stats := t.stats.(unknown := t.stats.unknown + |AllBytes(t.held)|))
  }

  function Abandon(t: Tap): Tap {
    if t.probe.Some? then GiveUp(t) else t
  }

  function SkipByte(t: Tap): Tap
    requires t.buf != []
  {
    var g := Abandon(t);
    g.(buf := g.buf[1..], synced := false, runs := AddUnknown(g.runs, g.buf[..1]),
       stats := g.stats.(unknown := g.stats.unknown + 1,
                         resyncs := g.stats.resyncs + if t.synced then 1 else 0))
  }

  function Confirm(t: Tap, who: Ident): Tap {
    t.(id := Some(who), probe := None, held := [], runs := t.runs + t.held,
       stats := t.stats.(packets := t.stats.packets + Kinds(t.held)))
  }

  function Weigh(t: Tap): Tap
    requires INV_LEN <= |t.buf|
  {
    var who := IdentOf(t.buf);
    if t.id.Some? then t
    else if t.probe == Some(who) && t.synced then Confirm(t, who)
    else Abandon(t).(probe := Some(who))
  }

  function Take(t: Tap): Tap
    requires INV_LEN <= |t.buf|
  {
    Send(Weigh(t), Packet(Inverter, t.buf[..INV_LEN])).(
      synced := true, phase := AfterInverter, buf := t.buf[INV_LEN..])
  }

  function HuntTap(t: Tap): Option<Tap> {
    if |t.buf| < INV_LEN then None
    else if IsInverter(t.id, t.buf[..INV_LEN]) then Some(Take(t))
    else Some(SkipByte(t))
  }

  function BadTap(t: Tap): Tap {
    t.(phase := Hunt, stats := t.stats.(bad := t.stats.bad + 1))
  }

  function AfterInverterTap(t: Tap): Option<Tap> {
    if |t.buf| < REMOTE_LEN || (Turnaround(t.buf[0]) && |t.buf| == REMOTE_LEN) then None
    else
      var inverter := IsInverter(t.id, t.buf[..INV_LEN]);
      if Turnaround(t.buf[0]) && (RemoteTypeOk(t.buf[21]) || IsInverter(t.id, t.buf[1..22])) then
        Some(t.(buf := t.buf[1..]))
      else if RemoteTypeOk(t.buf[20]) && !inverter then
        Some(Send(t, Packet(Remote, t.buf[..REMOTE_LEN])).(phase := AfterRemote, buf := t.buf[REMOTE_LEN..]))
      else if inverter then Some(t.(phase := Hunt))
      else Some(BadTap(t))
  }

  function AfterRemoteTap(t: Tap): Option<Tap> {
    if t.buf == [] then None
    else
      var n := ReplyLen(t.buf[0]);
      if n == 0 then Some(t.(phase := Hunt))
      else if |t.buf| < n then None
      else if !ReplyOk(t.buf[..n]) then Some(BadTap(t))
      else Some(Send(t, Packet(ReplyKind(t.buf[0]), t.buf[..n])).(phase := Hunt, buf := t.buf[n..]))
  }

  /** One byte skipped, one packet taken, or one change of mind. */
  function TapStep(t: Tap): (r: Option<Tap>)
    ensures r.Some? ==> |r.value.buf| < |t.buf| || (r.value.buf == t.buf && t.phase != Hunt && r.value.phase == Hunt)
  {
    match t.phase
    case Hunt => HuntTap(t)
    case AfterInverter => AfterInverterTap(t)
    case AfterRemote => AfterRemoteTap(t)
  }

  function TapRun(t: Tap): Tap
    decreases |t.buf|, PhaseRank(t.phase)
  {
    match TapStep(t)
    case None => t
    case Some(u) => TapRun(u)
  }

  function Extend(t: Tap, more: seq<byte>): Tap {
    t.(buf := t.buf + more)
  }

  // ----- More input never changes a step already possible -----

  lemma {:induction false} TakeExtends(t: Tap, more: seq<byte>)
    requires INV_LEN <= |t.buf|
    ensures Take(Extend(t, more)) == Extend(Take(t), more)
  {
    var long := t.buf + more;
    assert long[..INV_LEN] == t.buf[..INV_LEN];
    assert long[INV_LEN..] == t.buf[INV_LEN..] + more;
  }

  lemma {:induction false} SkipByteExtends(t: Tap, more: seq<byte>)
    requires t.buf != []
    ensures SkipByte(Extend(t, more)) == Extend(SkipByte(t), more)
  {
    var long := t.buf + more;
    assert long[..1] == t.buf[..1] && long[1..] == t.buf[1..] + more;
  }

  lemma {:induction false} HuntExtends(t: Tap, more: seq<byte>)
    requires t.phase == Hunt && INV_LEN <= |t.buf|
    ensures TapStep(Extend(t, more)) == Some(Extend(TapStep(t).value, more))
  {
    assert (t.buf + more)[..INV_LEN] == t.buf[..INV_LEN];
    TakeExtends(t, more);
    SkipByteExtends(t, more);
  }

  lemma {:induction false} AfterInverterExtends(t: Tap, more: seq<byte>)
    requires t.phase == AfterInverter && AfterInverterTap(t).Some?
    ensures TapStep(Extend(t, more)) == Some(Extend(TapStep(t).value, more))
  {
    var long := t.buf + more;
    assert long[..INV_LEN] == t.buf[..INV_LEN];
    assert long[INV_LEN..] == t.buf[INV_LEN..] + more && long[1..] == t.buf[1..] + more;
    if |t.buf| > INV_LEN {
      assert long[1..22] == t.buf[1..22];
    }
  }

  lemma {:induction false} AfterRemoteExtends(t: Tap, more: seq<byte>)
    requires t.phase == AfterRemote && AfterRemoteTap(t).Some?
    ensures TapStep(Extend(t, more)) == Some(Extend(TapStep(t).value, more))
  {
    var long, n := t.buf + more, ReplyLen(t.buf[0]);
    assert long[..n] == t.buf[..n] && long[n..] == t.buf[n..] + more;
  }

  lemma {:induction false} StepExtends(t: Tap, more: seq<byte>)
    requires TapStep(t).Some?
    ensures TapStep(Extend(t, more)) == Some(Extend(TapStep(t).value, more))
  {
    match t.phase
    case Hunt => HuntExtends(t, more);
    case AfterInverter => AfterInverterExtends(t, more);
    case AfterRemote => AfterRemoteExtends(t, more);
  }

  lemma {:induction false} RunExtends(t: Tap, more: seq<byte>)
    ensures TapRun(Extend(TapRun(t), more)) == TapRun(Extend(t, more))
    decreases |t.buf|, PhaseRank(t.phase)
  {
    if TapStep(t).Some? {
      StepExtends(t, more);
      RunExtends(TapStep(t).value, more);
    }
  }
}
