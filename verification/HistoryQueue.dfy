/** The queue loses only its oldest, and only when full; everything else
    reaches its module's file, in order and spaced by the capture interval. */
module HistoryQueue {
  import opened Bytes
  import opened History

  datatype Op = Put(sample: Sample) | Write(rows: nat)

  /** What became of a sample that left the queue. */
  datatype Fate = Written | Overrun | Homeless

  /** A run: the store, the samples taken so far, and the fates of those that
      are out of the queue. */
  datatype Log = Log(store: Store, taken: seq<Sample>, fates: seq<Fate>)

  function PutOne(l: Log, x: Sample): Log {
    var (s, t) := Enqueue(l.store, x);
    if !t.Queued? then l.(store := s)
    else Log(s, l.taken + [x], if |l.store.queue| == RING_CAP then l.fates + [Overrun] else l.fates)
  }

  function WriteOne(l: Log): Log
    requires l.store.queue != []
  {
    Log(WriteOldest(l.store), l.taken,
        l.fates + [if HasHome(l.store, l.store.queue[0]) then Written else Homeless])
  }

  function WriteMany(l: Log, rows: nat): (r: Log)
    ensures r.store == Flush(l.store, rows)
    decreases rows
  {
    if rows == 0 || l.store.queue == [] then l else WriteMany(WriteOne(l), rows - 1)
  }

  function Do(l: Log, op: Op): Log {
    match op
    case Put(x) => PutOne(l, x)
    case Write(n) => WriteMany(l, n)
  }

  function DoAll(l: Log, ops: seq<Op>): Log
    decreases |ops|
  {
    if ops == [] then l else DoAll(Do(l, ops[0]), ops[1..])
  }

  // ----- What every run keeps -----

  /** The rows of one module among the samples written. */
  function RowsOf(taken: seq<Sample>, fates: seq<Fate>, uuid: string): seq<Row>
    requires |fates| <= |taken|
    decreases |fates|
  {
    if fates == [] then []
    else
      var k := |fates| - 1;
      RowsOf(taken, fates[..k], uuid)
        + if fates[k].Written? && taken[k].uuid == uuid then [taken[k].row] else []
  }

  /** The queue holds what was taken and has not left, at most 1024. */
  predicate Fifo(l: Log) {
    && |l.fates| <= |l.taken| && l.store.queue == l.taken[|l.fates|..]
    && |l.store.queue| <= RING_CAP
  }

  /** A sample is overrun only by the 1024th taken after it. */
  predicate OverrunByMany(l: Log) {
    forall i :: 0 <= i < |l.fates| && l.fates[i].Overrun? ==> i + RING_CAP < |l.taken|
  }

  /** Each file is what it was, then the written samples of its module. */
  ghost predicate FilesGrow(l: Log, was: Store)
    requires |l.fates| <= |l.taken|
  {
    forall u: string :: File(l.store, u) == File(was, u) + RowsOf(l.taken, l.fates, u)
  }

  /** No run registers a module or opens a file. */
  predicate SameHomes(a: seq<Module>, b: seq<Module>) {
    |a| == |b| && forall i :: 0 <= i < |a| ==>
      a[i].used == b[i].used && a[i].uuid == b[i].uuid && a[i].ready == b[i].ready
  }

  /** A sample leaves the queue's front into its file if its module has one
      open, and is discarded only if it has none. */
  predicate HomesTold(l: Log, was: Store)
    requires |l.fates| <= |l.taken|
  {
    && SameHomes(l.store.mods, was.mods)
    && (forall i :: 0 <= i < |l.fates| && !l.fates[i].Overrun? ==> (l.fates[i].Written? <==> HasHome(was, l.taken[i])))
  }

  ghost predicate Told(l: Log, was: Store) {
    Fifo(l) && OverrunByMany(l) && FilesGrow(l, was) && HomesTold(l, was)
  }

  /** Samples of one module are at least their interval apart... */
  predicate Spaced(taken: seq<Sample>) {
    forall i, j :: 0 <= i < j < |taken| && taken[i].uuid == taken[j].uuid ==>
      taken[i].row.ts + taken[j].interval <= taken[j].row.ts
  }

  /** ... because each module knows when it last took one. */
  predicate Clocked(l: Log) {
    && (forall i :: 0 <= i < |l.taken| ==> l.taken[i].row.ts >= 0.0 && l.taken[i].interval > 0.0)
    && (forall i :: 0 <= i < |l.taken| ==>
          var k := FindMod(l.store.mods, l.taken[i].uuid);
          k < |l.store.mods| ==> l.taken[i].row.ts <= l.store.mods[k].lastTs)
    && Spaced(l.taken)
  }

  predicate Registered(l: Log) {
    forall i :: 0 <= i < |l.taken| ==> FindMod(l.store.mods, l.taken[i].uuid) < |l.store.mods|
  }

  lemma {:induction false} SameModules(a: seq<Module>, b: seq<Module>, uuid: string)
    requires |a| == |b| && forall i :: 0 <= i < |a| ==> a[i].used == b[i].used && a[i].uuid == b[i].uuid
    ensures FindMod(a, uuid) == FindMod(b, uuid)
  {}

  lemma {:induction false} PutTells(l: Log, x: Sample, was: Store)
    requires Told(l, was)
    ensures Told(PutOne(l, x), was)
  {
    PutKeeps(l, x, was);
    hide OverrunByMany, FilesGrow, HasHome;
  }

  lemma {:induction false} OneMoreHome(l: Log, r: Log, was: Store)
    requires |l.fates| < |l.taken| && r.taken == l.taken && HomesTold(l, was) && SameHomes(r.store.mods, l.store.mods)
    requires r.fates == l.fates + [if HasHome(l.store, l.taken[|l.fates|]) then Written else Homeless]
    ensures HomesTold(r, was)
  {
    SameModules(l.store.mods, was.mods, l.taken[|l.fates|].uuid);
  }

  lemma {:induction false} WriteTells(l: Log, was: Store)
    requires l.store.queue != [] && Told(l, was)
    ensures Told(WriteOne(l), was)
  {
    WriteKeeps(l, was);
    assert l.store.queue[0] == l.taken[|l.fates|];
    hide OverrunByMany, FilesGrow, HomesTold, HasHome;
    OneMoreHome(l, WriteOne(l), was);
  }

  lemma {:induction false} PutIsFifo(l: Log, x: Sample)
    requires Fifo(l) && OverrunByMany(l)
    ensures Fifo(PutOne(l, x)) && OverrunByMany(PutOne(l, x))
  {
    var r := PutOne(l, x);
    if Enqueue(l.store, x).1.Queued? {
      assert r.taken[|l.fates|..] == l.store.queue + [x];
      if |l.store.queue| == RING_CAP {
        assert r.store.queue == r.taken[|r.fates|..];
      }
    }
  }

  lemma {:induction false} PutKeeps(l: Log, x: Sample, was: Store)
    requires Fifo(l) && OverrunByMany(l) && FilesGrow(l, was)
    ensures var r := PutOne(l, x); Fifo(r) && OverrunByMany(r) && FilesGrow(r, was)
  {
    PutIsFifo(l, x);
    hide Fifo, OverrunByMany;
    var r := PutOne(l, x);
    if Enqueue(l.store, x).1.Queued? {
      assert |l.fates| <= |l.taken| && r.taken == l.taken + [x] && r.store.disk == l.store.disk;
      forall u: string ensures File(r.store, u) == File(was, u) + RowsOf(r.taken, r.fates, u) {
        OverrunAddsNothing(l.taken, x, l.fates, r.fates, u);
      }
    }
  }

  lemma {:induction false} OverrunAddsNothing(
      taken: seq<Sample>, x: Sample, fates: seq<Fate>, more: seq<Fate>, uuid: string)
    requires |fates| <= |taken| && |more| <= |taken| + 1 && (more == fates || more == fates + [Overrun])
    ensures RowsOf(taken + [x], more, uuid) == RowsOf(taken, fates, uuid)
  {
    RowsPrefix(taken, [x], fates, uuid);
    if more != fates {
      assert more[..|more| - 1] == fates;
    }
  }

  lemma {:induction false} RowsPrefix(taken: seq<Sample>, more: seq<Sample>, fates: seq<Fate>, uuid: string)
    requires |fates| <= |taken|
    ensures RowsOf(taken + more, fates, uuid) == RowsOf(taken, fates, uuid)
    decreases |fates|
  {
    if fates != [] {
      RowsPrefix(taken, more, fates[..|fates| - 1], uuid);
    }
  }

  lemma {:induction false} WriteKeeps(l: Log, was: Store)
    requires l.store.queue != [] && Fifo(l) && OverrunByMany(l) && FilesGrow(l, was)
    ensures var r := WriteOne(l); Fifo(r) && OverrunByMany(r) && FilesGrow(r, was)
  {
    var r, x := WriteOne(l), l.store.queue[0];
    assert x == l.taken[|l.fates|];
    assert r.store.queue == l.taken[|l.fates|..][1..] == l.taken[|r.fates|..];
    forall u: string ensures File(r.store, u) == File(was, u) + RowsOf(r.taken, r.fates, u) {
      assert r.fates[..|r.fates| - 1] == l.fates;
      assert File(l.store, u) == File(was, u) + RowsOf(l.taken, l.fates, u);
    }
  }

  lemma {:induction false} WriteManyTells(l: Log, was: Store, rows: nat)
    requires Told(l, was)
    ensures var r := WriteMany(l, rows);
      Told(r, was) && r.taken == l.taken && |r.fates| == |l.fates| + Min(rows, |l.store.queue|)
    decreases rows
  {
    hide Fifo, OverrunByMany, FilesGrow, HomesTold;
    if rows > 0 && l.store.queue != [] {
      WriteTells(l, was);
      WriteManyTells(WriteOne(l), was, rows - 1);
    }
  }

  /** Over every run of samples and flushes: the queue is the samples taken and
      not yet gone; one is overrun only when 1024 newer ones were taken, and
      discarded only when its module has no file open; every file is what it
      was followed by its module's written samples, in the order they were
      taken. */
  lemma {:induction false} EveryRunIsFifo(l: Log, ops: seq<Op>, was: Store)
    requires Told(l, was)
    ensures Told(DoAll(l, ops), was)
    decreases |ops|
  {
    hide Told;
    if ops != [] {
      match ops[0] {
        case Put(x) => PutTells(l, x, was);
        case Write(n) => WriteManyTells(l, was, n);
      }
      EveryRunIsFifo(Do(l, ops[0]), ops[1..], was);
    }
  }

  /** With every registered module's file open nothing is discarded: a sample
      that left the queue was written or overrun. */
  lemma {:induction false} ReadyDiscardsNothing(l: Log, ops: seq<Op>, was: Store)
    requires Told(l, was) && Registered(l) && forall k :: 0 <= k < |was.mods| && was.mods[k].used ==> was.mods[k].ready
    ensures Homeless !in DoAll(l, ops).fates
  {
    var r := DoAll(l, ops);
    EveryRunIsFifo(l, ops, was);
    RunIsRegistered(l, ops);
    forall i | 0 <= i < |r.fates| ensures !r.fates[i].Homeless? {
      SameModules(r.store.mods, was.mods, r.taken[i].uuid);
    }
  }

  /** A fresh store begins such a run. */
  lemma {:induction false} FreshRun(s: Store)
    requires s.queue == []
    ensures Told(Log(s, [], []), s) && Clocked(Log(s, [], [])) && Registered(Log(s, [], []))
  {}

  // ----- What is taken has a module -----

  lemma {:induction false} PutIsRegistered(l: Log, x: Sample)
    requires Registered(l)
    ensures Registered(PutOne(l, x))
  {
    var r := PutOne(l, x);
    forall i | 0 <= i < |r.taken| ensures FindMod(r.store.mods, r.taken[i].uuid) < |r.store.mods| {
      SameModules(r.store.mods, l.store.mods, r.taken[i].uuid);
      if i < |l.taken| {
        assert r.taken[i] == l.taken[i];
      }
    }
  }

  lemma {:induction false} WriteManyIsRegistered(l: Log, rows: nat)
    requires Registered(l)
    ensures Registered(WriteMany(l, rows))
    decreases rows
  {
    if rows > 0 && l.store.queue != [] {
      var r := WriteOne(l);
      forall i | 0 <= i < |r.taken| ensures FindMod(r.store.mods, r.taken[i].uuid) < |r.store.mods| {
        SameModules(r.store.mods, l.store.mods, r.taken[i].uuid);
      }
      WriteManyIsRegistered(r, rows - 1);
    }
  }

  lemma {:induction false} RunIsRegistered(l: Log, ops: seq<Op>)
    requires Registered(l)
    ensures Registered(DoAll(l, ops))
    decreases |ops|
  {
    hide Registered;
    if ops != [] {
      match ops[0] {
        case Put(x) => PutIsRegistered(l, x);
        case Write(n) => WriteManyIsRegistered(l, n);
      }
      RunIsRegistered(Do(l, ops[0]), ops[1..]);
    }
  }

  // ----- Spacing -----

  lemma {:induction false} PutIsSpaced(l: Log, x: Sample)
    requires Clocked(l) && x.row.ts >= 0.0 && Enqueue(l.store, x).1.Queued?
    ensures Spaced(l.taken + [x])
  {
    var k := FindMod(l.store.mods, x.uuid);
    forall i | 0 <= i < |l.taken| && l.taken[i].uuid == x.uuid
      ensures l.taken[i].row.ts + x.interval <= x.row.ts
    {
      assert l.taken[i].row.ts <= l.store.mods[k].lastTs;
    }
  }

  lemma {:induction false} PutIsClocked(l: Log, x: Sample)
    requires Clocked(l) && Registered(l) && x.row.ts >= 0.0
    ensures Clocked(PutOne(l, x)) && Registered(PutOne(l, x))
  {
    PutIsRegistered(l, x);
    hide Registered, Spaced;
    var r := PutOne(l, x);
    if Enqueue(l.store, x).1.Queued? {
      PutIsSpaced(l, x);
      forall i | 0 <= i < |r.taken|
        ensures var j := FindMod(r.store.mods, r.taken[i].uuid);
          j < |r.store.mods| ==> r.taken[i].row.ts <= r.store.mods[j].lastTs
      {
        SameModules(r.store.mods, l.store.mods, r.taken[i].uuid);
        if i < |l.taken| {
          assert r.taken[i] == l.taken[i];
        }
      }
    }
  }

  lemma {:induction false} WriteManyIsClocked(l: Log, rows: nat)
    requires Clocked(l)
    ensures Clocked(WriteMany(l, rows))
    decreases rows
  {
    hide Spaced;
    if rows > 0 && l.store.queue != [] {
      var r := WriteOne(l);
      forall i | 0 <= i < |r.taken|
        ensures var j := FindMod(r.store.mods, r.taken[i].uuid);
          j < |r.store.mods| ==> r.taken[i].row.ts <= r.store.mods[j].lastTs
      {
        SameModules(r.store.mods, l.store.mods, r.taken[i].uuid);
      }
      WriteManyIsClocked(r, rows - 1);
    }
  }

  /** With clocks that are never negative, every module's samples are taken at
      least their capture interval apart, even if the clock steps back. */
  lemma {:induction false} EveryRunIsSpaced(l: Log, ops: seq<Op>)
    requires Clocked(l) && Registered(l)
    requires forall i :: 0 <= i < |ops| && ops[i].Put? ==> ops[i].sample.row.ts >= 0.0
    ensures Spaced(DoAll(l, ops).taken) && Clocked(DoAll(l, ops))
    decreases |ops|
  {
    if ops != [] {
      hide Clocked, Registered;
      match ops[0] {
        case Put(x) => PutIsClocked(l, x);
        case Write(n) =>
          WriteManyIsClocked(l, n);
          WriteManyIsRegistered(l, n);
      }
      EveryRunIsSpaced(Do(l, ops[0]), ops[1..]);
    }
  }
}
