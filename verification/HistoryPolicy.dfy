/** Which samples are taken, which rows go and which watermarks are read, in the
    module's own settings. */
module HistoryPolicy {
  import opened Bytes
  import opened History
  import opened HistoryMarks
  import opened HistoryPrune

  // ----- Taking a sample -----

  predicate IsModule(mods: seq<Module>, k: nat, uuid: string) {
    && k < |mods| && mods[k].used && mods[k].uuid == uuid
    && forall i :: 0 <= i < k ==> !(mods[i].used && mods[i].uuid == uuid)
  }

  /** The module captures, and the sample is no sooner than its interval after the
      last one taken, or the first. */
  predicate Takes(s: Store, x: Sample, k: nat) {
    && x.interval > 0.0 && IsModule(s.mods, k, x.uuid) && s.mods[k].captures
    && (s.mods[k].lastTs < 0.0 || x.row.ts >= s.mods[k].lastTs + x.interval)
  }

  /** A sample is taken exactly if its module wants it and it is due; it is then the
      newest of the queue, which has lost its oldest if it held 1024. */
  lemma {:induction false} EnqueueExactlyWhen(s: Store, x: Sample, k: nat)
    ensures var (u, rc) := Enqueue(s, x);
      && (rc == Queued <==> exists i: nat :: Takes(s, x, i))
      && (rc == Unknown <==> x.interval > 0.0 && forall i: nat :: !IsModule(s.mods, i, x.uuid))
      && (Takes(s, x, k) ==> u == s.(mods := s.mods[k := s.mods[k].(lastTs := x.row.ts)],
                                     queue := (if |s.queue| == 1024 then s.queue[1..] else s.queue) + [x]))
      && (rc != Queued ==> u == s)
  {
    var at := FindMod(s.mods, x.uuid);
    forall i: nat | IsModule(s.mods, i, x.uuid) ensures i == at {
      Found(s.mods, x.uuid, i);
    }
    assert at < |s.mods| ==> IsModule(s.mods, at, x.uuid);
    if Enqueue(s, x).1 == Queued {
      assert Takes(s, x, at);
    }
  }

  lemma {:induction false} Found(mods: seq<Module>, uuid: string, i: nat)
    requires IsModule(mods, i, uuid)
    ensures i == FindMod(mods, uuid)
  {}

  // ----- Letting rows go -----

  /** The module's policy keeps a row of this time: its own days if they are set,
      else its plugin's; zero days keep everything. */
  predicate Keeps(m: Module, now: real, ts: real) {
    if m.keepDays >= 0.0 then m.keepDays == 0.0 || ts >= now - m.keepDays * 86400.0
    else m.keepDefault <= 0.0 || ts >= now - m.keepDefault * 86400.0
  }

  lemma {:induction false} KeepsExactlyWhen(m: Module, now: real, ts: real)
    ensures Keeps(m, now, ts) <==> KeepDays(m) <= 0.0 || ts >= Cutoff(m, now)
  {}

  predicate IsDue(m: Module, now: real) {
    m.used && m.captures && m.nextPrune <= now
  }

  /** What a slice does to a file: rows go only from a module that is due, only
      those its policy does not keep, and none that is later than one that stays. */
  ghost predicate ByPolicy(m: Module, rows: seq<Row>, kept: seq<Row>, now: real) {
    exists gone: seq<Row> :: Goes(m, rows, kept, gone, now)
  }

  predicate Goes(m: Module, rows: seq<Row>, kept: seq<Row>, gone: seq<Row>, now: real) {
    && multiset(kept) + multiset(gone) == multiset(rows) && (gone != [] ==> IsDue(m, now))
    && (forall i :: 0 <= i < |gone| ==> !Keeps(m, now, gone[i].ts))
    && (forall i, x :: 0 <= i < |gone| && x in kept ==> gone[i].ts <= x.ts)
  }

  lemma {:induction false} PrunedByPolicy(m: Module, rows: seq<Row>, kept: seq<Row>, now: real)
    requires PrunedFile(m, rows, kept, now)
    ensures ByPolicy(m, rows, kept, now)
  {
    var c := Cutoff(m, now);
    PrunedFileKeepsRecent(m, rows, kept, now);
    var gone: seq<Row> :| multiset(kept) + multiset(gone) == multiset(rows)
      && (gone != [] ==> Due(m, now) && KeepDays(m) > 0.0) && OldestFirst(kept, gone, c);
    forall i | 0 <= i < |gone| ensures !Keeps(m, now, gone[i].ts) {
      KeepsExactlyWhen(m, now, gone[i].ts);
    }
    assert Goes(m, rows, kept, gone, now);
  }

  /** Over every module of a slice: what goes is what its policy lets go, oldest
      first.  A slice that returns less than its limit leaves no row that a due
      module's policy does not keep, and those modules are due again in an hour. */
  lemma {:induction false} SliceByPolicy(s: Store, now: real, max: nat, j: nat)
    requires Distinct(s.mods) && j < |s.mods| && s.mods[j].used
    ensures var (u, done) := PruneSlice(s, now, max);
      && |u.mods| == |s.mods| && u.queue == s.queue
      && ByPolicy(s.mods[j], File(s, s.mods[j].uuid), File(u, s.mods[j].uuid), now)
      && (done < max && IsDue(s.mods[j], now) ==>
            && (forall x :: x in File(u, s.mods[j].uuid) ==> Keeps(s.mods[j], now, x.ts))
            && u.mods[j] == s.mods[j].(nextPrune := now + 3600.0))
      && (!IsDue(s.mods[j], now) ==> u.mods[j] == s.mods[j])
  {
    hide PrunedFile, ByPolicy, PruneFrom, Keeps, Cutoff, KeepDays, File, Distinct;
    var m := s.mods[j];
    SliceFiles(s, now, max, 0);
    SliceKeeps(s, now, max, 0);
    SliceTimes(s, now, max, 0, j);
    var (u, done) := PruneSlice(s, now, max);
    PrunedByPolicy(m, File(s, m.uuid), File(u, m.uuid), now);
    if done < max && IsDue(m, now) {
      SliceClears(s, now, max, 0);
      forall x | x in File(u, m.uuid) ensures Keeps(m, now, x.ts) {
        KeepsExactlyWhen(m, now, x.ts);
        var i :| 0 <= i < |File(u, m.uuid)| && File(u, m.uuid)[i] == x;
        NoneExpired(File(u, m.uuid), Cutoff(m, now));
      }
    }
  }

  /** When a module is looked at again. */
  lemma {:induction false} SliceTimes(s: Store, now: real, room: nat, i: nat, j: nat)
    requires i <= j < |s.mods| && Distinct(s.mods)
    ensures var (u, done) := PruneFrom(s, now, room, i);
      && |u.mods| == |s.mods|
      && (done < room && IsDue(s.mods[j], now) ==> u.mods[j] == s.mods[j].(nextPrune := now + 3600.0))
      && (!IsDue(s.mods[j], now) ==> u.mods[j] == s.mods[j])
    decreases |s.mods| - i
  {
    hide Turn, PruneModule, File, Distinct;
    SliceKeeps(s, now, room, i);
    if room > 0 {
      if !Due(s.mods[i], now) {
        SliceKeeps(s, now, room, i + 1);
        if i < j {
          SliceTimes(s, now, room, i + 1, j);
        }
      } else {
        var (u, n) := Turn(s, now, room, i);
        PruneStep(s, now, room, i);
        TurnKeeps(s, now, room, i);
        TurnTime(s, now, room, i);
        SliceKeeps(u, now, room - n, i + 1);
        if i < j {
          SliceTimes(u, now, room - n, i + 1, j);
        }
      }
    }
  }

  lemma {:induction false} TurnTime(s: Store, now: real, room: nat, i: nat)
    requires i < |s.mods|
    ensures var (u, n) := Turn(s, now, room, i);
      |u.mods| == |s.mods| && (n < room ==> u.mods[i].nextPrune == now + 3600.0)
  {}

  // ----- Writing a sample -----

  predicate IsHome(mods: seq<Module>, k: nat, uuid: string) {
    IsModule(mods, k, uuid) && mods[k].ready
  }

  /** The oldest sample leaves the queue; if its module's file is open its row is the
      file's last and, online, has been shown to each watermark; nothing else has
      changed. */
  lemma {:induction false} WriteExactlyWhen(s: Store, k: nat)
    requires s.queue != []
    ensures var x, u := s.queue[0], WriteOldest(s);
      && u.queue == s.queue[1..]
      && (IsHome(s.mods, k, x.uuid) ==>
            && u.disk == s.disk[x.uuid := File(s, x.uuid) + [x.row]]
            && |u.mods| == |s.mods| && u.mods == s.mods[k := s.mods[k].(marks := u.mods[k].marks)]
            && |u.mods[k].marks| == |s.mods[k].marks|
            && forall i :: 0 <= i < |s.mods[k].marks| ==> u.mods[k].marks[i] == Show(s.mods[k].marks[i], x.row))
      && ((forall i: nat :: !IsHome(s.mods, i, x.uuid)) ==> u == s.(queue := s.queue[1..]))
  {
    hide FeedMark;
    var x := s.queue[0];
    var at := FindMod(s.mods, x.uuid);
    if IsHome(s.mods, k, x.uuid) {
      Found(s.mods, x.uuid, k);
    } else if at < |s.mods| {
      assert IsModule(s.mods, at, x.uuid);
      assert !IsHome(s.mods, at, x.uuid) ==> !HasHome(s, x);
    }
  }

  /** So many go as were asked for and were there, oldest first. */
  lemma {:induction false} FlushTakes(s: Store, rows: nat)
    ensures Flush(s, rows).queue == s.queue[if rows < |s.queue| then rows else |s.queue|..]
    decreases rows
  {
    hide FeedMarks;
    if rows > 0 && s.queue != [] {
      FlushTakes(WriteOldest(s), rows - 1);
    }
  }

  // ----- Reading watermarks -----

  predicate NotZero(v: Value) {
    v == Truth(true) || (v.Number? && v.v != 0.0)
  }

  /** The row is online, has the column, and the column that says when is not zero. */
  predicate Qualifies(mk: Mark, row: Row) {
    && row.online && mk.column in row.cols && row.cols[mk.column] != Absent
    && (mk.when != "" ==> mk.when in row.cols && NotZero(row.cols[mk.when]))
  }

  lemma {:induction false} CountsExactlyWhen(mk: Mark, row: Row)
    ensures Counts(mk, row) <==> Qualifies(mk, row)
    ensures Counts(mk, row) && row.cols[mk.column].Number? ==> Reading(mk, row) == row.cols[mk.column].v
  {}

  /** Some qualifying row of the window has this value at this time, and none has
      one beyond it. */
  predicate IsExtreme(mk: Mark, rows: seq<Row>, now: real) {
    && (exists i :: 0 <= i < |rows| && Qualifies(mk, rows[i]) && now - mk.window <= rows[i].ts == mk.ts
          && Stored(rows[i].cols[mk.column]) == Some(mk.value))
    && forall i :: 0 <= i < |rows| && Qualifies(mk, rows[i]) && now - mk.window <= rows[i].ts ==>
         if mk.high then Stored(rows[i].cols[mk.column]).value <= mk.value
         else Stored(rows[i].cols[mk.column]).value >= mk.value
  }

  /** What a watermark is once it has been read again. */
  predicate IsRead(mk: Mark, r: Mark, rows: seq<Row>, now: real) {
    && SameAsk(r, mk)
    && if exists i :: 0 <= i < |rows| && Qualifies(mk, rows[i]) && now - mk.window <= rows[i].ts
       then r.have && IsExtreme(r, rows, now) else !r.have
  }

  predicate ReadAgain(m: Module, r: Module, rows: seq<Row>, now: real) {
    && r == m.(marks := r.marks, nextMark := now + 60.0) && |r.marks| == |m.marks|
    && forall i :: 0 <= i < |m.marks| ==> IsRead(m.marks[i], r.marks[i], rows, now)
  }

  predicate Wants(m: Module, now: real) {
    m.used && m.captures && m.marks != [] && m.nextMark <= now
  }

  /** A call reads the watermarks of the first module that wants it, and of no other;
      what it has found is the extreme of the window, and it is due in a minute. */
  lemma {:induction false} TurnExactlyWhen(s: Store, now: real, k: nat)
    requires k < |s.mods| && forall i :: 0 <= i < k ==> !Wants(s.mods[i], now)
    ensures var (u, n) := WatermarkFrom(s, now, 0);
      && (Wants(s.mods[k], now) ==>
            && n == 1 && |u.mods| == |s.mods| && u == s.(mods := s.mods[k := u.mods[k]])
            && ReadAgain(s.mods[k], u.mods[k], File(s, s.mods[k].uuid), now))
      && ((forall i :: 0 <= i < |s.mods| ==> !Wants(s.mods[i], now)) ==> n == 0 && u == s)
  {
    hide IsRead, File, ReadMark;
    TurnFrom(s, now, 0, k);
    if Wants(s.mods[k], now) {
      var m := s.mods[k];
      forall i | 0 <= i < |m.marks| {
        ReadIsExtreme(m.marks[i], File(s, m.uuid), now);
      }
    } else if forall i :: 0 <= i < |s.mods| ==> !Wants(s.mods[i], now) {
      NoTurn(s, now, 0);
    }
  }

  lemma {:induction false} TurnFrom(s: Store, now: real, i: nat, k: nat)
    requires i <= k < |s.mods| && forall j :: i <= j < k ==> !Wants(s.mods[j], now)
    ensures var r := (s.(mods := s.mods[k := ReadMarks(s.mods[k], File(s, s.mods[k].uuid), now)]), 1);
      Wants(s.mods[k], now) ==> WatermarkFrom(s, now, i) == r
    decreases k - i
  {
    hide ReadMarks, File;
    if i < k {
      assert !Wants(s.mods[i], now);
      TurnFrom(s, now, i + 1, k);
    }
  }

  lemma {:induction false} NoTurn(s: Store, now: real, i: nat)
    requires i <= |s.mods| && forall j :: i <= j < |s.mods| ==> !Wants(s.mods[j], now)
    ensures WatermarkFrom(s, now, i) == (s, 0)
    decreases |s.mods| - i
  {
    hide ReadMarks, File;
    if i < |s.mods| {
      assert !Wants(s.mods[i], now);
      NoTurn(s, now, i + 1);
    }
  }

  lemma {:induction false} ReadIsExtreme(mk: Mark, rows: seq<Row>, now: real)
    ensures IsRead(mk, ReadMark(mk, rows, now), rows, now)
  {
    ReadAgrees(mk, rows, now);
    var r := ReadMark(mk, rows, now);
    forall i | 0 <= i < |rows| ensures Counts(r, rows[i]) <==> Qualifies(mk, rows[i]) {
      CountsExactlyWhen(r, rows[i]);
    }
    if r.have {
      var i :| 0 <= i < |rows| && Marks(r, rows[i]) && InWindow(r, rows[i], now);
      assert Qualifies(r, rows[i]);
    }
  }
}
