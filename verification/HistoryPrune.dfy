/** Pruning deletes only what its module's policy lets go, oldest first, and a
    slice deletes exactly as much of the backlog as it may. */
module HistoryPrune {
  import opened Bytes
  import opened History

  function Expired(rows: seq<Row>, cutoff: real): nat {
    if rows == [] then 0 else Expired(rows[1..], cutoff) + if rows[0].ts < cutoff then 1 else 0
  }

  /** The rows that are not past the cutoff. */
  function Recent(rows: seq<Row>, cutoff: real): seq<Row> {
    if rows == [] then []
    else (if rows[0].ts >= cutoff then [rows[0]] else []) + Recent(rows[1..], cutoff)
  }

  /** The rows deleted, in the order they go. */
  function Deleted(rows: seq<Row>, cutoff: real, n: nat): seq<Row>
    decreases n
  {
    if n == 0 || rows == [] || rows[Oldest(rows)].ts >= cutoff then []
    else [rows[Oldest(rows)]] + Deleted(Delete(rows, Oldest(rows)), cutoff, n - 1)
  }

  // ----- One file -----

  lemma {:induction false} ExpiredSplit(a: seq<Row>, b: seq<Row>, cutoff: real)
    ensures Expired(a + b, cutoff) == Expired(a, cutoff) + Expired(b, cutoff)
    ensures Recent(a + b, cutoff) == Recent(a, cutoff) + Recent(b, cutoff)
  {
    if a == [] {
      assert a + b == b;
    } else {
      assert (a + b)[1..] == a[1..] + b;
      ExpiredSplit(a[1..], b, cutoff);
    }
  }

  lemma {:induction false} DeleteExpired(rows: seq<Row>, k: nat, cutoff: real)
    requires k < |rows| && rows[k].ts < cutoff
    ensures Expired(Delete(rows, k), cutoff) + 1 == Expired(rows, cutoff)
    ensures Recent(Delete(rows, k), cutoff) == Recent(rows, cutoff)
    ensures multiset(Delete(rows, k)) + multiset{rows[k]} == multiset(rows)
  {
    assert rows == rows[..k] + ([rows[k]] + rows[k + 1..]);
    ExpiredSplit(rows[..k], rows[k + 1..], cutoff);
    ExpiredSplit(rows[..k], [rows[k]] + rows[k + 1..], cutoff);
    assert ([rows[k]] + rows[k + 1..])[1..] == rows[k + 1..];
  }

  lemma {:induction false} NoneExpired(rows: seq<Row>, cutoff: real)
    ensures Expired(rows, cutoff) == 0 <==> forall i :: 0 <= i < |rows| ==> rows[i].ts >= cutoff
    ensures Expired(rows, cutoff) <= |rows|
  {
    if rows != [] {
      NoneExpired(rows[1..], cutoff);
      assert forall i :: 0 < i < |rows| ==> rows[i] == rows[1..][i - 1];
      assert Expired(rows[1..], cutoff) == 0 ==> forall i :: 1 <= i < |rows| ==> rows[i].ts >= cutoff;
    }
  }

  /** The DELETE takes as many expired rows as it may and no others. */
  lemma {:induction false} DeleteCounts(rows: seq<Row>, cutoff: real, n: nat)
    ensures var kept, gone := DeleteOldest(rows, cutoff, n), Deleted(rows, cutoff, n);
      && |gone| == Min(n, Expired(rows, cutoff)) && |rows| == |kept| + |gone|
      && Expired(kept, cutoff) == Expired(rows, cutoff) - |gone|
      && Recent(kept, cutoff) == Recent(rows, cutoff)
      && multiset(kept) + multiset(gone) == multiset(rows)
    decreases n
  {
    hide Oldest, Expired, Recent, Delete;
    NoneExpired(rows, cutoff);
    if !(n == 0 || rows == [] || rows[Oldest(rows)].ts >= cutoff) {
      var k := Oldest(rows);
      var rest := Delete(rows, k);
      DeleteExpired(rows, k, cutoff);
      DeleteCounts(rest, cutoff, n - 1);
      var gone := Deleted(rest, cutoff, n - 1);
      assert multiset([rows[k]] + gone) == multiset{rows[k]} + multiset(gone);
      assert |rest| + 1 == |rows| by { DeleteShrinks(rows, k); }
    }
  }

  lemma {:induction false} DeleteShrinks(rows: seq<Row>, k: nat)
    requires k < |rows|
    ensures |Delete(rows, k)| + 1 == |rows|
  {}

  lemma {:induction false} DeleteMembers(rows: seq<Row>, cutoff: real, n: nat)
    ensures forall x :: x in DeleteOldest(rows, cutoff, n) || x in Deleted(rows, cutoff, n) ==> x in rows
    decreases n
  {
    if !(n == 0 || rows == [] || rows[Oldest(rows)].ts >= cutoff) {
      DeleteMembers(Delete(rows, Oldest(rows)), cutoff, n - 1);
    }
  }

  /** In order of time, before the cutoff, none later than a row that stays. */
  predicate OldestFirst(kept: seq<Row>, gone: seq<Row>, cutoff: real) {
    && (forall i :: 0 <= i < |gone| ==> gone[i].ts < cutoff)
    && (forall i, j :: 0 <= i < j < |gone| ==> gone[i].ts <= gone[j].ts)
    && (forall i, x :: 0 <= i < |gone| && x in kept ==> gone[i].ts <= x.ts)
  }

  lemma {:induction false} OldestBefore(row: Row, kept: seq<Row>, gone: seq<Row>, cutoff: real)
    requires OldestFirst(kept, gone, cutoff) && row.ts < cutoff
    requires forall x :: x in kept || x in gone ==> row.ts <= x.ts
    ensures OldestFirst(kept, [row] + gone, cutoff)
  {}

  lemma {:induction false} DeletesOldestFirst(rows: seq<Row>, cutoff: real, n: nat)
    ensures OldestFirst(DeleteOldest(rows, cutoff, n), Deleted(rows, cutoff, n), cutoff)
    decreases n
  {
    hide OldestFirst;
    if n == 0 || rows == [] || rows[Oldest(rows)].ts >= cutoff {
      assert OldestFirst(rows, [], cutoff) by { NothingGone(rows, cutoff); }
    } else {
      var k := Oldest(rows);
      var rest := Delete(rows, k);
      DeletesOldestFirst(rest, cutoff, n - 1);
      DeleteMembers(rest, cutoff, n - 1);
      forall x | x in rest ensures rows[k].ts <= x.ts {
        assert x in rows;
      }
      OldestBefore(rows[k], DeleteOldest(rest, cutoff, n - 1), Deleted(rest, cutoff, n - 1), cutoff);
    }
  }

  lemma {:induction false} NothingGone(rows: seq<Row>, cutoff: real)
    ensures OldestFirst(rows, [], cutoff)
  {}

  // ----- A slice over the modules -----

  predicate Distinct(mods: seq<Module>) {
    forall i, j :: 0 <= i < j < |mods| && mods[i].used && mods[j].used ==> mods[i].uuid != mods[j].uuid
  }

  /** What the module of slot i may delete now. */
  function Owed(s: Store, now: real, i: nat): nat
    requires i < |s.mods|
  {
    var m := s.mods[i];
    if Due(m, now) && KeepDays(m) > 0.0 then Expired(File(s, m.uuid), Cutoff(m, now)) else 0
  }

  function Backlog(s: Store, now: real, i: nat): nat
    requires i <= |s.mods|
    decreases |s.mods| - i
  {
    if i == |s.mods| then 0 else Owed(s, now, i) + Backlog(s, now, i + 1)
  }

  lemma {:induction false} SameBacklog(s: Store, u: Store, now: real, i: nat)
    requires i <= |s.mods| == |u.mods|
    requires forall j :: i <= j < |s.mods| ==> u.mods[j] == s.mods[j]
    requires forall j :: i <= j < |s.mods| && s.mods[j].used ==> File(u, s.mods[j].uuid) == File(s, s.mods[j].uuid)
    ensures Backlog(u, now, i) == Backlog(s, now, i)
    decreases |s.mods| - i
  {
    if i < |s.mods| {
      SameBacklog(s, u, now, i + 1);
    }
  }

  /** The store after the turn of module i, and how many rows that deleted. */
  function Turn(s: Store, now: real, room: nat, i: nat): (Store, nat)
    requires i < |s.mods|
  {
    var (m, kept, n) := PruneModule(s.mods[i], File(s, s.mods[i].uuid), now, room);
    (s.(mods := s.mods[i := m], disk := s.disk[m.uuid := kept]), n)
  }

  lemma {:induction false} PruneStep(s: Store, now: real, room: nat, i: nat)
    requires i < |s.mods| && Due(s.mods[i], now) && room > 0
    ensures var (u, n) := Turn(s, now, room, i);
      n <= room && |u.mods| == |s.mods| &&
      var (r, more) := PruneFrom(u, now, room - n, i + 1);
      PruneFrom(s, now, room, i) == (r, n + more)
  {
    hide PruneModule;
  }

  lemma {:induction false} TurnKeeps(s: Store, now: real, room: nat, i: nat)
    requires i < |s.mods| && s.mods[i].used && Distinct(s.mods)
    ensures var u := Turn(s, now, room, i).0;
      && |u.mods| == |s.mods| && Distinct(u.mods) && u.queue == s.queue
      && u.mods[i] == s.mods[i].(nextPrune := u.mods[i].nextPrune)
      && (forall j :: 0 <= j < |s.mods| && j != i ==> u.mods[j] == s.mods[j])
      && (forall x: string :: x != s.mods[i].uuid ==> File(u, x) == File(s, x))
      && (forall j :: 0 <= j < |s.mods| && j != i && s.mods[j].used ==> s.mods[j].uuid != s.mods[i].uuid)
  {
    hide PruneModule;
    forall j | 0 <= j < |s.mods| && j != i && s.mods[j].used ensures s.mods[j].uuid != s.mods[i].uuid {
      assert s.mods[if i < j then i else j].uuid != s.mods[if i < j then j else i].uuid;
    }
  }

  lemma {:induction false} PruneTurn(s: Store, now: real, room: nat, i: nat)
    requires i < |s.mods| && Due(s.mods[i], now) && Distinct(s.mods) && room > 0
    ensures var (u, n) := Turn(s, now, room, i);
      n == Min(room, Owed(s, now, i)) && |u.mods| == |s.mods| && Owed(u, now, i) == Owed(s, now, i) - n
  {
    DeleteCounts(File(s, s.mods[i].uuid), Cutoff(s.mods[i], now), room);
  }

  /** A slice changes no more of a module than when it is due again, and
      nothing of those before slot i. */
  lemma {:induction false} SliceKeeps(s: Store, now: real, room: nat, i: nat)
    requires i <= |s.mods| && Distinct(s.mods)
    ensures var u := PruneFrom(s, now, room, i).0;
      && |u.mods| == |s.mods| && Distinct(u.mods) && u.queue == s.queue
      && (forall j :: 0 <= j < |s.mods| ==> u.mods[j] == s.mods[j].(nextPrune := u.mods[j].nextPrune))
      && (forall j :: 0 <= j < i ==> u.mods[j] == s.mods[j])
      && (forall j :: 0 <= j < i && s.mods[j].used ==> File(u, s.mods[j].uuid) == File(s, s.mods[j].uuid))
    decreases |s.mods| - i
  {
    hide Turn, PruneModule, File, Distinct;
    if i < |s.mods| && room > 0 {
      if !Due(s.mods[i], now) {
        SliceKeeps(s, now, room, i + 1);
      } else {
        var (u, n) := Turn(s, now, room, i);
        PruneStep(s, now, room, i);
        TurnKeeps(s, now, room, i);
        SliceKeeps(u, now, room - n, i + 1);
      }
    }
  }

  /** A slice deletes exactly as much of the backlog as it has room for. */
  lemma {:induction false} SliceFrom(s: Store, now: real, room: nat, i: nat)
    requires i <= |s.mods| && Distinct(s.mods)
    ensures var (u, done) := PruneFrom(s, now, room, i);
      && |u.mods| == |s.mods| && Distinct(u.mods)
      && done == Min(room, Backlog(s, now, i)) && Backlog(u, now, i) == Backlog(s, now, i) - done
    decreases |s.mods| - i
  {
    hide Owed, Turn, PruneModule, Distinct, File;
    SliceKeeps(s, now, room, i);
    if i < |s.mods| && room > 0 {
      if !Due(s.mods[i], now) {
        SliceFrom(s, now, room, i + 1);
        NotOwed(s, now, i);
        SliceKeeps(s, now, room, i + 1);
        NotOwed(PruneFrom(s, now, room, i + 1).0, now, i);
      } else {
        DueFrom(s, now, room, i);
      }
    }
  }

  lemma {:induction false} DueFrom(s: Store, now: real, room: nat, i: nat)
    requires i < |s.mods| && Due(s.mods[i], now) && Distinct(s.mods) && room > 0
    ensures var (u, done) := PruneFrom(s, now, room, i);
      && |u.mods| == |s.mods|
      && done == Min(room, Backlog(s, now, i)) && Backlog(u, now, i) == Backlog(s, now, i) - done
    decreases |s.mods| - i, 0
  {
    hide Owed, Turn, PruneModule, Distinct, File, PruneFrom;
    var (u, n) := Turn(s, now, room, i);
    PruneStep(s, now, room, i);
    var (r, more) := PruneFrom(u, now, room - n, i + 1);
    TurnKeeps(s, now, room, i);
    PruneTurn(s, now, room, i);
    SliceKeeps(u, now, room - n, i + 1);
    SliceFrom(u, now, room - n, i + 1);
    SameBacklog(s, u, now, i + 1);
    SameOwed(u, r, now, i);
  }

  lemma {:induction false} NotOwed(s: Store, now: real, i: nat)
    requires i < |s.mods| && !Due(s.mods[i], now)
    ensures Owed(s, now, i) == 0
  {}

  lemma {:induction false} SameOwed(s: Store, u: Store, now: real, i: nat)
    requires i < |s.mods| == |u.mods| && u.mods[i] == s.mods[i]
    requires s.mods[i].used ==> File(u, s.mods[i].uuid) == File(s, s.mods[i].uuid)
    ensures Owed(u, now, i) == Owed(s, now, i)
  {}

  /** A slice that returns less than it may leaves no expired row in any
      module it found due. */
  lemma {:induction false} SliceClears(s: Store, now: real, room: nat, i: nat)
    requires i <= |s.mods| && Distinct(s.mods) && PruneFrom(s, now, room, i).1 < room
    ensures var u := PruneFrom(s, now, room, i).0;
      forall j :: i <= j < |s.mods| && Due(s.mods[j], now) && KeepDays(s.mods[j]) > 0.0 ==>
        Expired(File(u, s.mods[j].uuid), Cutoff(s.mods[j], now)) == 0
    decreases |s.mods| - i
  {
    hide PruneModule, Turn, Cutoff, Expired, KeepDays, Distinct, File;
    if i < |s.mods| {
      if !Due(s.mods[i], now) {
        SliceClears(s, now, room, i + 1);
      } else {
        var (u, n) := Turn(s, now, room, i);
        PruneStep(s, now, room, i);
        TurnKeeps(s, now, room, i);
        SliceKeeps(u, now, room - n, i + 1);
        SliceClears(u, now, room - n, i + 1);
        TurnClears(s, now, room, i);
        hide PruneFrom;
        var r := PruneFrom(s, now, room, i).0;
        forall j | i <= j < |s.mods| && Due(s.mods[j], now) && KeepDays(s.mods[j]) > 0.0
          ensures Expired(File(r, s.mods[j].uuid), Cutoff(s.mods[j], now)) == 0
        {
          if j > i {
            assert u.mods[j] == s.mods[j];
          } else {
            assert File(r, u.mods[i].uuid) == File(u, u.mods[i].uuid);
          }
        }
      }
    }
  }

  lemma {:induction false} TurnClears(s: Store, now: real, room: nat, i: nat)
    requires i < |s.mods| && Turn(s, now, room, i).1 < room
    ensures var m := s.mods[i];
      KeepDays(m) > 0.0 ==> Expired(File(Turn(s, now, room, i).0, m.uuid), Cutoff(m, now)) == 0
  {
    DeleteCounts(File(s, s.mods[i].uuid), Cutoff(s.mods[i], now), room);
  }

  /** A slice deletes the whole backlog, up to what it is given. */
  lemma {:induction false} SliceDeletesBacklog(s: Store, now: real, max: nat)
    requires Distinct(s.mods)
    ensures var (u, done) := PruneSlice(s, now, max);
      && done == Min(max, Backlog(s, now, 0)) && Backlog(u, now, 0) == Backlog(s, now, 0) - done
      && (done < max ==> forall j :: 0 <= j < |s.mods| && Due(s.mods[j], now) && KeepDays(s.mods[j]) > 0.0 ==>
            Expired(File(u, s.mods[j].uuid), Cutoff(s.mods[j], now)) == 0)
  {
    SliceFrom(s, now, max, 0);
    if PruneSlice(s, now, max).1 < max {
      SliceClears(s, now, max, 0);
    }
  }

  /** Slice after slice at one time. */
  function Slices(s: Store, now: real, max: nat, k: nat): Store {
    if k == 0 then s else PruneSlice(Slices(s, now, max, k - 1), now, max).0
  }

  /** So slices of at least one row work any backlog off. */
  lemma {:induction false} SlicesDrain(s: Store, now: real, max: nat, k: nat)
    requires Distinct(s.mods)
    ensures Distinct(Slices(s, now, max, k).mods)
    ensures var left := Backlog(s, now, 0) - k * max;
      Backlog(Slices(s, now, max, k), now, 0) == if left > 0 then left else 0
  {
    if k > 0 {
      SlicesDrain(s, now, max, k - 1);
      SliceFrom(Slices(s, now, max, k - 1), now, max, 0);
      assert k * max == (k - 1) * max + max;
    }
  }

  // ----- What a slice leaves in each file -----

  /** What pruning may do to a file. */
  predicate PrunedFile(m: Module, rows: seq<Row>, kept: seq<Row>, now: real) {
    exists n: nat :: n <= |rows| && kept == DeleteOldest(rows, Cutoff(m, now), n)
      && (n > 0 ==> Due(m, now) && KeepDays(m) > 0.0)
  }

  lemma {:induction false} FileTurn(s: Store, now: real, room: nat, i: nat)
    requires i < |s.mods| && Due(s.mods[i], now)
    ensures var m := s.mods[i];
      PrunedFile(m, File(s, m.uuid), File(Turn(s, now, room, i).0, m.uuid), now)
  {
    var m, rows := s.mods[i], File(s, s.mods[i].uuid);
    var n := if KeepDays(m) > 0.0 then Min(room, |rows|) else 0;
    DeleteMore(rows, Cutoff(m, now), room);
    assert File(Turn(s, now, room, i).0, m.uuid) == DeleteOldest(rows, Cutoff(m, now), n);
  }

  /** There is nothing to delete beyond all the rows. */
  lemma {:induction false} DeleteMore(rows: seq<Row>, cutoff: real, n: nat)
    ensures DeleteOldest(rows, cutoff, n) == DeleteOldest(rows, cutoff, Min(n, |rows|))
    decreases n
  {
    if !(n == 0 || rows == [] || rows[Oldest(rows)].ts >= cutoff) {
      DeleteMore(Delete(rows, Oldest(rows)), cutoff, n - 1);
    }
  }

  /** Each file after a slice: its module's expired rows have gone, oldest
      first, from a due module with a policy; every other file is as it was. */
  lemma {:induction false} SliceFiles(s: Store, now: real, room: nat, i: nat)
    requires i <= |s.mods| && Distinct(s.mods)
    ensures var u := PruneFrom(s, now, room, i).0;
      && (forall j :: i <= j < |s.mods| && s.mods[j].used ==>
            PrunedFile(s.mods[j], File(s, s.mods[j].uuid), File(u, s.mods[j].uuid), now))
      && (forall x: string :: (forall j :: i <= j < |s.mods| ==> !(s.mods[j].used && s.mods[j].uuid == x)) ==>
            File(u, x) == File(s, x))
    decreases |s.mods| - i
  {
    hide PruneModule, PrunedFile, Turn, Distinct, File;
    if i == |s.mods| || room == 0 {
      forall j | i <= j < |s.mods|
        ensures PrunedFile(s.mods[j], File(s, s.mods[j].uuid), File(s, s.mods[j].uuid), now)
      {
        Untouched(s.mods[j], File(s, s.mods[j].uuid), now);
      }
    } else if !Due(s.mods[i], now) {
      SliceFiles(s, now, room, i + 1);
      if s.mods[i].used {
        SkippedFile(s, now, room, i);
      }
    } else {
      DueFiles(s, now, room, i);
    }
  }

  /** The file of a module that the rest of the slice does not look at. */
  lemma {:induction false} SkippedFile(s: Store, now: real, room: nat, i: nat)
    requires i < |s.mods| && Distinct(s.mods) && s.mods[i].used
    ensures var (m, u) := (s.mods[i], PruneFrom(s, now, room, i + 1).0);
      File(u, m.uuid) == File(s, m.uuid) && PrunedFile(m, File(s, m.uuid), File(u, m.uuid), now)
  {
    SliceKeeps(s, now, room, i + 1);
    Untouched(s.mods[i], File(s, s.mods[i].uuid), now);
  }

  lemma {:induction false} DueFiles(s: Store, now: real, room: nat, i: nat)
    requires i < |s.mods| && Due(s.mods[i], now) && Distinct(s.mods) && room > 0
    ensures var u := PruneFrom(s, now, room, i).0;
      && (forall j :: i <= j < |s.mods| && s.mods[j].used ==>
            PrunedFile(s.mods[j], File(s, s.mods[j].uuid), File(u, s.mods[j].uuid), now))
      && (forall x: string :: (forall j :: i <= j < |s.mods| ==> !(s.mods[j].used && s.mods[j].uuid == x)) ==>
            File(u, x) == File(s, x))
    decreases |s.mods| - i, 0
  {
    hide PruneModule, PrunedFile, Turn, Distinct, File, PruneFrom;
    var (u, n) := Turn(s, now, room, i);
    PruneStep(s, now, room, i);
    TurnKeeps(s, now, room, i);
    FileTurn(s, now, room, i);
    SliceFiles(u, now, room - n, i + 1);
    SliceKeeps(u, now, room - n, i + 1);
    var r := PruneFrom(s, now, room, i).0;
    assert File(r, u.mods[i].uuid) == File(u, u.mods[i].uuid);
    forall j | i < j < |s.mods| && s.mods[j].used
      ensures PrunedFile(s.mods[j], File(s, s.mods[j].uuid), File(r, s.mods[j].uuid), now)
    {
      assert u.mods[j] == s.mods[j];
    }
    forall x: string | forall j :: i <= j < |s.mods| ==> !(s.mods[j].used && s.mods[j].uuid == x)
      ensures File(r, x) == File(s, x)
    {
      assert x != s.mods[i].uuid;
      assert forall j :: i < j < |s.mods| ==> u.mods[j] == s.mods[j];
    }
  }

  lemma {:induction false} Untouched(m: Module, rows: seq<Row>, now: real)
    ensures PrunedFile(m, rows, rows, now)
  {
    assert DeleteOldest(rows, Cutoff(m, now), 0) == rows;
  }

  /** What that means for a file: recent rows stay as they are, and what goes
      is expired and no later than anything that stays. */
  lemma {:induction false} PrunedFileKeepsRecent(m: Module, rows: seq<Row>, kept: seq<Row>, now: real)
    requires PrunedFile(m, rows, kept, now)
    ensures Recent(kept, Cutoff(m, now)) == Recent(rows, Cutoff(m, now))
    ensures exists gone: seq<Row> ::
      && multiset(kept) + multiset(gone) == multiset(rows)
      && (gone != [] ==> Due(m, now) && KeepDays(m) > 0.0)
      && OldestFirst(kept, gone, Cutoff(m, now))
  {
    hide OldestFirst;
    var c := Cutoff(m, now);
    var n: nat :| n <= |rows| && kept == DeleteOldest(rows, c, n) && (n > 0 ==> Due(m, now) && KeepDays(m) > 0.0);
    DeleteCounts(rows, c, n);
    DeletesOldestFirst(rows, c, n);
    var gone := Deleted(rows, c, n);
    assert multiset(kept) + multiset(gone) == multiset(rows);
  }
}
