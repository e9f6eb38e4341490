/** mag_frame_t as the source keeps it: a fixed buffer parsed in place, four
    slots for held packets, and a callback, here the log of what it was given.
    Every method computes the step function of the same name in MagFrame. */
module MagFrameObject {
  import opened Bytes
  import M = MagFrame
  import S = MagFrameStream

  lemma {:induction false} OneMoreHeld(ps: seq<M.Packet>, i: nat)
    requires i < |ps|
    ensures M.Kinds(ps[..i + 1]) == M.Kinds(ps[..i]) + M.KindOf(ps[i])
    ensures M.DowngradeAll(ps[..i + 1]) == M.DowngradeAll(ps[..i]) + [M.Downgrade(ps[i])]
    ensures M.AllBytes(ps[..i + 1]) == M.AllBytes(ps[..i]) + ps[i].bytes
  {
    assert ps[..i + 1][..i] == ps[..i];
  }

  lemma {:induction false} NoneHeld()
    ensures M.Kinds([]) == multiset{} && M.DowngradeAll([]) == [] && M.AllBytes([]) == []
  {}

  lemma {:induction false} OneMoreByte(data: seq<byte>, i: nat)
    requires i < |data|
    ensures M.CountFF(data[..i + 1]) == M.CountFF(data[..i]) + if data[i] == 0xFF then 1 else 0
  {
    assert data[..i + 1][..i] == data[..i];
  }

  lemma {:induction false} SliceOfFront(s: seq<byte>, n: nat, i: nat, j: nat)
    requires i <= j <= n <= |s|
    ensures s[..n][i..j] == s[i..j]
  {}

  lemma {:induction false} NoBytes()
    ensures M.CountFF([]) == 0
  {}

  class Framer {
    const buf: array<byte>
    var len: nat
    var phase: M.Phase
    var synced: bool
    var haveId: bool
    var invModel: byte
    var invRevision: byte
    var probing: bool
    var probeModel: byte
    var probeRevision: byte
    const held: array<M.Packet>
    var nheld: nat
    var sinceInverter: nat
    var bytesRead: nat
    var ffBytes: nat
    var st: M.Stats
    var log: seq<M.Packet>

    ghost predicate Valid()
      reads this
    {
      buf.Length == M.BUF_SIZE && len <= M.BUF_SIZE && held.Length == M.HELD_MAX && nheld <= M.HELD_MAX
    }

    /** The learned identity counts only while have_id is set, and the
        candidate's only while probing. */
    function Id(): Option<M.Ident>
      reads this
    {
      if haveId then Some(M.Ident(invModel, invRevision)) else None
    }

    function Probe(): Option<M.Ident>
      reads this
    {
      if probing then Some(M.Ident(probeModel, probeRevision)) else None
    }

    ghost function View(): M.Frame
      requires Valid()
      reads this, buf, held
    {
      M.Frame(buf[..len], phase, synced, Id(), Probe(), held[..nheld], sinceInverter, bytesRead, ffBytes,
              st, log)
    }

    constructor ()
      ensures Valid() && fresh(buf) && fresh(held)
      ensures View() == M.INIT
    {
      buf := new byte[M.BUF_SIZE](_ => 0);
      held := new M.Packet[M.HELD_MAX](_ => M.Packet(M.Unknown, []));
      len, phase, synced := 0, M.Hunt, false;
      haveId, invModel, invRevision := false, 0, 0;
      probing, probeModel, probeRevision, nheld := false, 0, 0, 0;
      sinceInverter, bytesRead, ffBytes := 0, 0, 0;
      st, log := M.NO_STATS, [];
    }

    method Deliver(p: M.Packet)
      requires Valid()
      modifies this`log, this`st
      ensures log == old(log) + [p]
      ensures st == old(st).(packets := old(st.packets) + M.KindOf(p))
    {
      if p.kind != M.Unknown {
        st := st.(packets := st.packets[p.kind := st.packets[p.kind] + 1]);
      }
      log := log + [p];
    }

    method HeldFlush()
      requires Valid()
      modifies this`log, this`st, this`nheld
      ensures Valid() && View() == M.HeldFlush(old(View()))
    {
      hide M.Kinds;
      HandOn();
      nheld := 0;
      assert held[..nheld] == [];
    }

    /** The loop of held_flush(). */
    method HandOn()
      requires Valid()
      modifies this`log, this`st
      ensures log == old(log) + held[..nheld]
      ensures st == old(st).(packets := old(st.packets) + M.Kinds(held[..nheld]))
    {
      hide M.Kinds, M.KindOf;
      ghost var was, log0, st0 := held[..nheld], log, st;
      NoneHeld();
      var i := 0;
      while i < nheld
        invariant 0 <= i <= nheld
        invariant log == log0 + was[..i]
        invariant st == st0.(packets := st0.packets + M.Kinds(was[..i]))
      {
        OneMoreHeld(was, i);
        assert (log0 + was[..i]) + [was[i]] == log0 + was[..i + 1];
        Deliver(held[i]);
        i := i + 1;
      }
      assert was[..nheld] == was;
    }

    method HeldDrop()
      requires Valid()
      modifies this`log, this`nheld, this`st, this`probing
      ensures Valid() && View() == M.HeldDrop(old(View()))
    {
      DeliverAsUnknown();
      nheld := 0;
      probing := false;
    }

    method DeliverUnknown(bytes: seq<byte>)
      requires Valid()
      modifies this`log, this`st
      ensures log == old(log) + [M.Packet(M.Unknown, bytes)]
      ensures st == old(st).(unknown := old(st.unknown) + |bytes|)
    {
      st := st.(unknown := st.unknown + |bytes|);
      Deliver(M.Packet(M.Unknown, bytes));
    }

    /** The loop of held_drop(). */
    method DeliverAsUnknown()
      requires Valid()
      modifies this`log, this`st
      ensures log == old(log) + M.DowngradeAll(held[..nheld])
      ensures st == old(st).(unknown := old(st.unknown) + |M.AllBytes(held[..nheld])|)
    {
      hide M.AllBytes, M.DowngradeAll;
      ghost var was, log0, n0 := held[..nheld], log, st.unknown;
      NoneHeld();
      var i := 0;
      while i < nheld
        invariant 0 <= i <= nheld && was == held[..nheld]
        invariant log == log0 + M.DowngradeAll(was[..i])
        invariant st == old(st).(unknown := n0 + |M.AllBytes(was[..i])|)
      {
        OneMoreHeld(was, i);
        ghost var before := log;
        DeliverUnknown(held[i].bytes);
        assert log == before + [M.Downgrade(was[i])];
        assert log == log0 + (M.DowngradeAll(was[..i]) + [M.Downgrade(was[i])]);
        i := i + 1;
      }
      assert was[..i] == was;
    }

    method Emit(p: M.Packet)
      requires Valid()
      modifies this`log, this`st, this`nheld, this`probing, held
      ensures Valid() && View() == M.Emit(old(View()), p)
    {
      var q := p;
      if probing && p.kind != M.Unknown {
        if nheld < M.HELD_MAX && |p.bytes| <= M.INV_LEN {
          held[nheld] := p;
          nheld := nheld + 1;
          return;
        }
        HeldDrop();
        st := st.(unknown := st.unknown + |p.bytes|);
        q := M.Packet(M.Unknown, p.bytes);
      }
      Deliver(q);
    }

    /** Probing ends if there was any. */
    method Abandon()
      requires Valid()
      modifies this`log, this`nheld, this`st, this`probing
      ensures Valid() && View().buf == old(View()).buf
      ensures View() == if old(probing) then M.HeldDrop(old(View())) else old(View())
    {
      hide M.HeldDrop;
      if probing {
        HeldDrop();
      }
    }

    method CountUnknown(n: nat)
      requires Valid()
      modifies this`st
      ensures var was := old(View()); View() == was.(stats := was.stats.(unknown := was.stats.unknown + n))
    {
      st := st.(unknown := st.unknown + n);
    }

    method Skip(n: nat)
      requires Valid() && n <= len
      modifies this`log, this`st, this`nheld, this`probing, this`synced, held
      ensures Valid() && View() == M.Skip(old(View()), n)
    {
      if n == 0 {
        return;
      }
      hide M.HeldDrop, M.Emit;
      Abandon();
      CountUnknown(n);
      EmitFront(M.Unknown, n);
      LoseStep();
    }

    method LoseStep()
      requires Valid()
      modifies this`st, this`synced
      ensures var was := old(View());
        if was.synced then View() == was.(synced := false, stats := was.stats.(resyncs := was.stats.resyncs + 1))
        else View() == was
    {
      if synced {
        st := st.(resyncs := st.resyncs + 1);
        synced := false;
      }
    }

    /** The loop of hunt(). */
    method Scan() returns (i: nat)
      requires Valid() && M.INV_LEN <= len
      ensures i == M.Candidate(Id(), View().buf, 0)
    {
      hide M.IsInverter;
      ghost var front := buf[..len];
      i := 0;
      while i + M.INV_LEN <= len && !M.IsInverter(Id(), buf[i..i + M.INV_LEN])
        invariant 0 <= i <= len - (M.INV_LEN - 1)
        invariant M.Candidate(Id(), front, 0) == M.Candidate(Id(), front, i)
      {
        SliceOfFront(buf[..], len, i, i + M.INV_LEN);
        i := i + 1;
      }
      if i + M.INV_LEN <= len {
        SliceOfFront(buf[..], len, i, i + M.INV_LEN);
      }
    }

    method Hunt() returns (o: M.Outcome)
      requires Valid() && phase == M.Hunt
      modifies this, held
      ensures Valid() && len == old(len) && (View(), o) == M.HuntStep(old(View()))
    {
      hide M.Skip, M.Accept, M.StartsAt;
      if len < M.INV_LEN {
        return M.Wait;
      }
      var i := Scan();
      if i + M.INV_LEN > len {
        i := len - (M.INV_LEN - 1);
      }
      if i > 0 {
        Skip(i);
        return M.Used(i);
      }
      TakeFront();
      return M.Used(M.INV_LEN);
    }

    /** The inverter packet at the front. */
    method TakeFront()
      requires Valid() && M.INV_LEN <= len
      modifies this, held
      ensures Valid() && len == old(len) && View() == M.Accept(old(View()))
    {
      hide M.Judge, M.Emit;
      Judge();
      ghost var judged := View();
      sinceInverter := 0;
      synced := true;
      assert View() == judged.(sinceInverter := 0, synced := true);
      EmitFront(M.Inverter, M.INV_LEN);
      phase := M.AfterInverter;
    }

    /** The part of hunt() that learns the inverter. */
    method Judge()
      requires Valid() && M.INV_LEN <= len
      modifies this
      ensures Valid() && len == old(len) && View() == M.Judge(old(View()))
      ensures View().buf == old(View().buf)
    {
      hide M.HeldFlush, M.HeldDrop;
      if !haveId {
        if probing && synced && buf[14] == probeModel && buf[10] == probeRevision {
          Confirm();
        } else {
          Suspect();
        }
      }
    }

    /** The packet at the front confirms the candidate. */
    method Confirm()
      requires Valid() && M.INV_LEN <= len
      modifies this
      ensures Valid() && len == old(len)
      ensures View() == M.HeldFlush(old(View()).(probe := None, id := Some(M.IdentOf(old(View()).buf))))
    {
      hide M.HeldFlush;
      ghost var was := View();
      assert M.IdentOf(was.buf) == M.Ident(buf[14], buf[10]);
      probing := false;
      haveId := true;
      invModel := buf[14];
      invRevision := buf[10];
      assert View() == was.(probe := None, id := Some(M.Ident(buf[14], buf[10])));
      HeldFlush();
    }

    /** The packet at the front becomes the candidate. */
    method Suspect()
      requires Valid() && M.INV_LEN <= len
      modifies this
      ensures Valid() && len == old(len)
      ensures var was := old(View());
        View() == (if was.probe.Some? then M.HeldDrop(was) else was).(probe := Some(M.IdentOf(was.buf)))
    {
      hide M.HeldDrop;
      assert M.IdentOf(buf[..len]) == M.Ident(buf[14], buf[10]);
      if probing {
        HeldDrop();
      }
      ghost var mid := View();
      probing := true;
      probeModel := buf[14];
      probeRevision := buf[10];
      assert View() == mid.(probe := Some(M.Ident(buf[14], buf[10])));
    }

    /** The first n bytes are delivered as a packet. */
    method EmitFront(kind: M.Kind, n: nat)
      requires Valid() && n <= len
      modifies this`log, this`st, this`nheld, this`probing, held
      ensures Valid() && View() == M.Emit(old(View()), M.Packet(kind, old(View()).buf[..n]))
    {
      hide M.Emit;
      assert buf[..len][..n] == buf[..n];
      Emit(M.Packet(kind, buf[..n]));
    }

    /** A turnaround byte with a packet right behind it. */
    method IsStray() returns (stray: bool)
      requires Valid() && M.REMOTE_LEN + 1 <= len && M.Turnaround(buf[0])
      ensures stray == M.StrayByte(View())
    {
      hide M.IsInverter, M.RemoteTypeOk;
      assert buf[..len][1..] == buf[1..len];
      stray := M.RemoteTypeOk(buf[M.REMOTE_LEN]) || M.IsInverter(Id(), buf[1..len]);
    }

    method AfterInv() returns (o: M.Outcome)
      requires Valid() && phase == M.AfterInverter
      modifies this, held
      ensures Valid() && len == old(len) && (View(), o) == M.AfterInverterStep(old(View()))
    {
      hide M.RemoteOrNot, M.StrayByte;
      if len < M.REMOTE_LEN {
        return M.Wait;
      }
      if M.Turnaround(buf[0]) {
        if len < M.REMOTE_LEN + 1 {
          return M.Wait;
        }
        var stray := IsStray();
        if stray {
          return M.Used(1);
        }
      }
      o := TakeRemote();
    }

    method TakeRemote() returns (o: M.Outcome)
      requires Valid() && M.REMOTE_LEN <= len
      modifies this, held
      ensures Valid() && len == old(len) && (View(), o) == M.RemoteOrNot(old(View()))
    {
      hide M.IsInverter, M.RemoteTypeOk, M.Emit;
      var inverter := M.IsInverter(Id(), buf[..len]);
      if M.RemoteTypeOk(buf[20]) && !(buf[20] == 0x00 && inverter) {
        EmitFront(M.Remote, M.REMOTE_LEN);
        phase := M.AfterRemote;
        return M.Used(M.REMOTE_LEN);
      }
      phase := M.Hunt;
      if !inverter {
        st := st.(bad := st.bad + 1);
      }
      return M.Changed;
    }

    method AfterRemote() returns (o: M.Outcome)
      requires Valid() && phase == M.AfterRemote
      modifies this, held
      ensures Valid() && len == old(len) && (View(), o) == M.AfterRemoteStep(old(View()))
    {
      if len < 1 {
        return M.Wait;
      }
      ghost var front := buf[..len];
      var n := M.ReplyLen(buf[0]);
      if n == 0 {
        phase := M.Hunt;
        return M.Changed;
      }
      if len < n {
        return M.Wait;
      }
      phase := M.Hunt;
      if !M.ReplyOk(buf[..len]) {
        st := st.(bad := st.bad + 1);
        return M.Changed;
      }
      EmitFront(M.ReplyKind(buf[0]), n);
      return M.Used(n);
    }

    /** Move what is left to the front of the buffer. */
    method Consume(n: nat)
      requires Valid()
      modifies this`len, buf
      ensures Valid() && len == if n >= old(len) then 0 else old(len) - n
      ensures n <= old(len) ==> View() == old(View()).(buf := old(buf[n..len]))
    {
      if n >= len {
        len := 0;
        return;
      }
      forall i | 0 <= i < len - n {
        buf[i] := buf[i + n];
      }
      len := len - n;
    }

    method Process()
      requires Valid()
      modifies this, buf, held
      ensures Valid() && View() == M.Process(old(View()))
      ensures len <= M.INV_LEN
    {
      while true
        invariant Valid() && M.Process(View()) == M.Process(old(View()))
        decreases len, M.PhaseRank(phase)
      {
        ghost var before := View();
        var o;
        match phase {
          case Hunt => o := Hunt();
          case AfterInverter => o := AfterInv();
          case AfterRemote => o := AfterRemote();
        }
        assert (View(), o) == M.PhaseStep(before);
        match o {
          case Changed =>
          case Wait => return;
          case Used(n) =>
            Consume(n);
            assert M.Step(before) == Some(View());
        }
      }
    }

    /** The start of mag_frame_feed(), less the receive time that only idle()
        reads. */
    method FeedStart(data: seq<byte>)
      requires Valid()
      modifies this`bytesRead, this`ffBytes, this`sinceInverter, this`haveId
      ensures View() == M.FeedStart(old(View()), data)
    {
      hide M.CountFF;
      bytesRead := bytesRead + |data|;
      var i := 0;
      NoBytes();
      while i < |data|
        invariant 0 <= i <= |data|
        invariant ffBytes == old(ffBytes) + M.CountFF(data[..i])
        invariant bytesRead == old(bytesRead) + |data|
        invariant haveId == old(haveId) && sinceInverter == old(sinceInverter)
      {
        OneMoreByte(data, i);
        if data[i] == 0xFF {
          ffBytes := ffBytes + 1;
        }
        i := i + 1;
      }
      assert data[..i] == data;
      sinceInverter := sinceInverter + |data|;
      assert View() == old(View()).(bytesRead := bytesRead, ffBytes := ffBytes, sinceInverter := sinceInverter);
      if haveId && sinceInverter > M.RELEARN_BYTES {
        haveId := false;
      }
    }

    method Append(piece: seq<byte>)
      requires Valid() && len + |piece| <= M.BUF_SIZE
      modifies this`len, buf
      ensures Valid() && View() == old(View()).(buf := old(View()).buf + piece)
    {
      forall k | 0 <= k < |piece| {
        buf[len + k] := piece[k];
      }
      len := len + |piece|;
      assert buf[..len] == old(buf[..len]) + piece;
    }

    method Feed(data: seq<byte>)
      requires Valid() && len <= M.INV_LEN
      modifies this, buf, held
      ensures Valid() && len <= M.INV_LEN
      ensures View() == M.Feed(old(View()), data)
    {
      if data == [] {
        return;
      }
      hide M.Process, M.FeedStart;
      FeedStart(data);
      var rest := data;
      while rest != []
        invariant Valid() && len <= M.INV_LEN
        invariant M.FeedLoop(View(), rest) == M.Feed(old(View()), data)
        decreases |rest|
      {
        var room := M.BUF_SIZE - len;
        var take := Min(|rest|, room);
        Append(rest[..take]);
        rest := rest[take..];
        Process();
      }
    }

    /** mag_frame_idle(), `quiet` seconds after the last byte. */
    method Idle(quiet: real)
      requires Valid()
      modifies this, held
      ensures Valid() && View() == M.Idle(old(View()), quiet)
    {
      hide M.HeldDrop, M.Emit, M.Settle;
      assert len != 0 ==> old(View()).buf != [];
      if probing && quiet >= M.PROBE_S {
        HeldDrop();
      }
      if len == 0 || quiet < M.IDLE_S {
        return;
      }
      if phase != M.Hunt {
        st := st.(bad := st.bad + 1);
      }
      Settle();
    }

    /** The whole buffer is delivered as it is. */
    method Settle()
      requires Valid()
      modifies this, held
      ensures Valid() && View() == M.Settle(old(View()))
    {
      hide M.Emit;
      st := st.(unknown := st.unknown + len);
      ghost var mid := View();
      Emit(M.Packet(M.Unknown, buf[..len]));
      ghost var sent := View();
      assert sent == M.Emit(mid, M.Packet(M.Unknown, mid.buf));
      len := 0;
      phase := M.Hunt;
      assert View() == sent.(buf := [], phase := M.Hunt);
    }
  }

  /** A framer fed chunk by chunk: what its callback is given is the run the
      theorems are about. */
  method FeedEach(chunks: seq<seq<byte>>) returns (f: Framer)
    ensures fresh(f) && f.Valid()
    ensures f.View() == M.FeedAll(M.INIT, chunks)
    ensures S.Faithful(f.View(), Flatten(chunks))
  {
    f := new Framer();
    var i := 0;
    while i < |chunks|
      invariant 0 <= i <= |chunks|
      invariant fresh(f) && fresh(f.buf) && fresh(f.held) && f.Valid() && f.len <= M.INV_LEN
      invariant f.View() == M.FeedAll(M.INIT, chunks[..i])
    {
      assert chunks[..i + 1][..i] == chunks[..i];
      f.Feed(chunks[i]);
      i := i + 1;
    }
    assert chunks[..i] == chunks;
    S.EveryRunIsFaithful(chunks);
  }
}
