/** The watermark cache against the file: what a re-read finds is the window's
    extreme, and being shown each new row keeps it so until the marked sample
    leaves the window. */
module HistoryMarks {
  import opened Bytes
  import opened History
  import opened HistoryPrune

  predicate InWindow(mk: Mark, row: Row, now: real) {
    Counts(mk, row) && row.ts >= now - mk.window
  }

  /** The mark is this row. */
  predicate Marks(mk: Mark, row: Row) {
    Counts(mk, row) && row.ts == mk.ts && Reading(mk, row) == mk.value
  }

  /** Nothing in the window goes beyond the mark's value. */
  predicate NoneBeyond(mk: Mark, rows: seq<Row>, now: real, value: real) {
    forall i :: 0 <= i < |rows| && InWindow(mk, rows[i], now) ==>
      if mk.high then Reading(mk, rows[i]) <= value else Reading(mk, rows[i]) >= value
  }

  /** The mark is a sample of the window... */
  predicate Sound(mk: Mark, rows: seq<Row>, now: real) {
    exists i :: 0 <= i < |rows| && Marks(mk, rows[i]) && InWindow(mk, rows[i], now)
  }

  /** ... and its extreme; or there is none and the window is empty. */
  predicate Agrees(mk: Mark, rows: seq<Row>, now: real) {
    if mk.have then Sound(mk, rows, now) && NoneBeyond(mk, rows, now, mk.value)
    else forall i :: 0 <= i < |rows| ==> !InWindow(mk, rows[i], now)
  }

  /** The mark is some sample of the file. */
  predicate Known(mk: Mark, rows: seq<Row>) {
    mk.have ==> exists i :: 0 <= i < |rows| && Marks(mk, rows[i])
  }

  /** A numeric column's reading is a number or missing. */
  predicate Numeric(mk: Mark, row: Row) {
    !At(row, mk.column).Truth?
  }

  predicate SameAsk(a: Mark, b: Mark) {
    a.column == b.column && a.when == b.when && a.high == b.high && a.window == b.window
  }

  lemma {:induction false} SameCounts(a: Mark, b: Mark, row: Row)
    requires SameAsk(a, b)
    ensures Counts(a, row) == Counts(b, row) && (Counts(a, row) ==> Reading(a, row) == Reading(b, row))
  {}

  // ----- Re-reading -----

  lemma {:induction false} ExtremeIsExtreme(mk: Mark, rows: seq<Row>, now: real)
    ensures var e := Extreme(mk, rows, now);
      if e.Some? then NoneBeyond(mk, rows, now, Reading(mk, e.value))
      else forall i :: 0 <= i < |rows| ==> !InWindow(mk, rows[i], now)
  {
    if rows != [] {
      ExtremeIsExtreme(mk, rows[1..], now);
      assert forall i :: 0 < i < |rows| ==> rows[i] == rows[1..][i - 1];
    }
  }

  /** After a re-read the cache is the extreme of the window. */
  lemma {:induction false} ReadAgrees(mk: Mark, rows: seq<Row>, now: real)
    ensures Agrees(ReadMark(mk, rows, now), rows, now)
  {
    ExtremeIsExtreme(mk, rows, now);
    var e, r := Extreme(mk, rows, now), ReadMark(mk, rows, now);
    forall i | 0 <= i < |rows| ensures InWindow(r, rows[i], now) == InWindow(mk, rows[i], now) {}
    if e.Some? {
      var i :| 0 <= i < |rows| && rows[i] == e.value;
      assert Marks(r, rows[i]) && InWindow(r, rows[i], now);
    }
  }

  // ----- Being shown a row -----

  /** What an online sample does on its way to the file. */
  function Show(mk: Mark, row: Row): Mark {
    if row.online then FeedMark(mk, row) else mk
  }

  predicate InReach(mk: Mark, row: Row) {
    !mk.have || mk.ts >= row.ts - mk.window
  }

  /** A counting row leaves the cache right exactly when the marked sample is
      still in the window or no row of the window beats the new one. */
  lemma {:induction false} CountingRow(mk: Mark, rows: seq<Row>, row: Row, before: real)
    requires Agrees(mk, rows, before) && before <= row.ts && mk.window >= 0.0
    requires Counts(mk, row) && Numeric(mk, row)
    ensures Agrees(Show(mk, row), rows + [row], row.ts)
       <==> InReach(mk, row) || NoneBeyond(mk, rows, row.ts, Reading(mk, row))
  {
    var r, all := Show(mk, row), rows + [row];
    forall i | 0 <= i < |all| ensures InWindow(r, all[i], row.ts) == InWindow(mk, all[i], row.ts) {}
    forall i | 0 <= i < |rows| ensures all[i] == rows[i] {}
    assert all[|rows|] == row;
    if InReach(mk, row) {
      if mk.have && r == mk {
        var i :| 0 <= i < |rows| && Marks(mk, rows[i]) && InWindow(mk, rows[i], before);
        assert Marks(r, all[i]) && InWindow(r, all[i], row.ts);
      } else {
        assert Marks(r, all[|rows|]) && InWindow(r, all[|rows|], row.ts);
      }
    } else {
      assert Marks(r, all[|rows|]) && InWindow(r, all[|rows|], row.ts);
    }
  }

  /** Any other row leaves the cache as it was, right exactly as long as the
      marked sample is in the window. */
  lemma {:induction false} OtherRow(mk: Mark, rows: seq<Row>, row: Row, before: real)
    requires Agrees(mk, rows, before) && before <= row.ts
    requires !Counts(mk, row) && Numeric(mk, row)
    ensures Show(mk, row) == mk
    ensures Agrees(mk, rows + [row], row.ts) <==> InReach(mk, row)
  {
    var all := rows + [row];
    assert all[|rows|] == row;
    forall i | 0 <= i < |rows| ensures all[i] == rows[i] {}
    if mk.have && InReach(mk, row) {
      var i :| 0 <= i < |rows| && Marks(mk, rows[i]) && InWindow(mk, rows[i], before);
      assert Marks(mk, all[i]) && InWindow(mk, all[i], row.ts);
    }
  }

  /** Even when the cache is behind, a counting row leaves it a sample of the
      window, so never beyond the true extreme. */
  lemma {:induction false} CountingRowIsSound(mk: Mark, rows: seq<Row>, row: Row)
    requires Known(mk, rows) && mk.window >= 0.0 && Counts(mk, row) && Numeric(mk, row)
    ensures var r := Show(mk, row); r.have && Sound(r, rows + [row], row.ts) && Known(r, rows + [row])
  {
    var r, all := Show(mk, row), rows + [row];
    if r == mk && !Marks(r, row) {
      var i :| 0 <= i < |rows| && Marks(mk, rows[i]);
      assert all[i] == rows[i];
      assert Marks(r, all[i]) && InWindow(r, all[i], row.ts);
    } else {
      assert Marks(r, all[|rows|]) && InWindow(r, all[|rows|], row.ts);
    }
  }

  lemma {:induction false} OtherRowIsKnown(mk: Mark, rows: seq<Row>, row: Row)
    requires Known(mk, rows) && Numeric(mk, row) && !Counts(mk, row)
    ensures Show(mk, row) == mk && Known(mk, rows + [row])
  {
    if mk.have {
      var i :| 0 <= i < |rows| && Marks(mk, rows[i]);
      assert Marks(mk, (rows + [row])[i]);
    }
  }

  // ----- Runs -----

  function ShowAll(mk: Mark, news: seq<Row>): (r: Mark)
    ensures SameAsk(r, mk)
    decreases |news|
  {
    if news == [] then mk else ShowAll(Show(mk, news[0]), news[1..])
  }

  /** Times that do not step back from `now`. */
  predicate Ordered(now: real, news: seq<Row>)
    decreases |news|
  {
    news == [] || (now <= news[0].ts && Ordered(news[0].ts, news[1..]))
  }

  /** At every row the marked sample is still in the window. */
  predicate StaysInReach(mk: Mark, news: seq<Row>)
    decreases |news|
  {
    news == [] || (InReach(mk, news[0]) && StaysInReach(Show(mk, news[0]), news[1..]))
  }

  function Last(now: real, news: seq<Row>): real {
    if news == [] then now else news[|news| - 1].ts
  }

  /** Between two re-reads the cache is the extreme of the window for as long as
      the marked sample stays in it. */
  lemma {:induction false} CacheAgrees(mk: Mark, rows: seq<Row>, news: seq<Row>, now: real)
    requires Agrees(mk, rows, now) && Ordered(now, news) && mk.window >= 0.0 && StaysInReach(mk, news)
    requires forall i :: 0 <= i < |news| ==> Numeric(mk, news[i])
    ensures Agrees(ShowAll(mk, news), rows + news, Last(now, news))
    decreases |news|
  {
    if news == [] {
      assert rows + news == rows;
    } else {
      hide Agrees, Show, NoneBeyond, Counts;
      var row := news[0];
      assert Numeric(mk, row);
      if Counts(mk, row) {
        CountingRow(mk, rows, row, now);
      } else {
        OtherRow(mk, rows, row, now);
      }
      SameAfter(mk, row);
      assert rows + news == (rows + [row]) + news[1..];
      CacheAgrees(Show(mk, row), rows + [row], news[1..], row.ts);
    }
  }

  lemma {:induction false} SameAfter(mk: Mark, row: Row)
    ensures SameAsk(Show(mk, row), mk)
  {}

  /** Whatever was pruned or missed before, after a counting row the cache is
      within the window. */
  lemma {:induction false} CacheIsSound(mk: Mark, rows: seq<Row>, news: seq<Row>)
    requires Known(mk, rows) && mk.window >= 0.0
    requires forall i :: 0 <= i < |news| ==> Numeric(mk, news[i])
    ensures Known(ShowAll(mk, news), rows + news)
    ensures news != [] && Counts(mk, news[|news| - 1]) ==>
      ShowAll(mk, news).have && Sound(ShowAll(mk, news), rows + news, news[|news| - 1].ts)
    decreases |news|
  {
    if news == [] {
      assert rows + news == rows;
    } else {
      hide Known, Sound, Show;
      var row := news[0];
      assert Numeric(mk, row);
      if Counts(mk, row) {
        CountingRowIsSound(mk, rows, row);
      } else {
        OtherRowIsKnown(mk, rows, row);
      }
      SameAfter(mk, row);
      SameCounts(mk, Show(mk, row), news[|news| - 1]);
      assert rows + news == (rows + [row]) + news[1..];
      CacheIsSound(Show(mk, row), rows + [row], news[1..]);
      if |news| == 1 {
        assert news[1..] == [] && rows + news == rows + [row];
      }
    }
  }

  // ----- Pruning -----

  lemma {:induction false} InRecent(rows: seq<Row>, cutoff: real, row: Row)
    ensures row in Recent(rows, cutoff) <==> row in rows && row.ts >= cutoff
  {
    if rows != [] {
      InRecent(rows[1..], cutoff, row);
    }
  }

  lemma {:induction false} RecentStay(m: Module, rows: seq<Row>, kept: seq<Row>, now: real, row: Row)
    requires PrunedFile(m, rows, kept, now) && row.ts >= Cutoff(m, now)
    ensures row in kept <==> row in rows
  {
    hide PrunedFile, Cutoff;
    PrunedFileKeepsRecent(m, rows, kept, now);
    InRecent(rows, Cutoff(m, now), row);
    InRecent(kept, Cutoff(m, now), row);
  }

  /** Pruning rows that are out of the window does not touch the agreement. */
  lemma {:induction false} PruningAgrees(mk: Mark, m: Module, rows: seq<Row>, kept: seq<Row>, now: real)
    requires Agrees(mk, rows, now) && PrunedFile(m, rows, kept, now) && Cutoff(m, now) <= now - mk.window
    ensures Agrees(mk, kept, now)
  {
    hide PrunedFile, Cutoff, Counts;
    forall row: Row | row.ts >= Cutoff(m, now) ensures row in kept <==> row in rows {
      RecentStay(m, rows, kept, now, row);
    }
    forall i | 0 <= i < |kept| && InWindow(mk, kept[i], now) ensures kept[i] in rows {}
    if mk.have {
      var i :| 0 <= i < |rows| && Marks(mk, rows[i]) && InWindow(mk, rows[i], now);
      var j :| 0 <= j < |kept| && kept[j] == rows[i];
      assert Marks(mk, kept[j]) && InWindow(mk, kept[j], now);
    }
  }

  // ----- Slices of re-reading -----

  function DueCount(s: Store, now: real, i: nat): nat
    requires i <= |s.mods|
    decreases |s.mods| - i
  {
    if i == |s.mods| then 0 else DueCount(s, now, i + 1) + if MarksDue(s.mods[i], now) then 1 else 0
  }

  /** Each call brings one due module up to date, the others untouched, until
      none is due. */
  lemma {:induction false} SliceReads(s: Store, now: real, i: nat)
    requires i <= |s.mods|
    ensures var (u, n) := WatermarkFrom(s, now, i);
      && |u.mods| == |s.mods| && u.disk == s.disk && u.queue == s.queue
      && n == Min(1, DueCount(s, now, i)) && DueCount(u, now, i) == DueCount(s, now, i) - n
      && (forall j :: 0 <= j < i ==> u.mods[j] == s.mods[j])
      && (forall j :: i <= j < |s.mods| && u.mods[j] != s.mods[j] ==>
            && MarksDue(s.mods[j], now) && n == 1
            && forall k :: 0 <= k < |u.mods[j].marks| ==>
                 Agrees(u.mods[j].marks[k], File(s, s.mods[j].uuid), now))
    decreases |s.mods| - i
  {
    hide Agrees;
    if i < |s.mods| {
      if !MarksDue(s.mods[i], now) {
        SliceReads(s, now, i + 1);
      } else {
        var m := s.mods[i];
        var rows := File(s, m.uuid);
        var r := ReadMarks(m, rows, now);
        var u := s.(mods := s.mods[i := r]);
        forall k | 0 <= k < |r.marks| ensures Agrees(r.marks[k], rows, now) {
          ReadAgrees(m.marks[k], rows, now);
        }
        SameDue(s, u, now, i + 1);
      }
    }
  }

  lemma {:induction false} SameDue(s: Store, u: Store, now: real, i: nat)
    requires i <= |s.mods| == |u.mods| && forall j :: i <= j < |s.mods| ==> u.mods[j] == s.mods[j]
    ensures DueCount(u, now, i) == DueCount(s, now, i)
    decreases |s.mods| - i
  {
    if i < |s.mods| {
      SameDue(s, u, now, i + 1);
    }
  }

  // ----- Where the cache falls behind -----

  /** A sample that has left the window is replaced by the newest, though an
      older one in the window is higher: only the next re-read puts it right. */
  lemma {:induction false} CacheFallsBehind()
    ensures var mk := Mark("w", "", true, 10.0, true, 9.0, 0.0);
      var peak, mid, late := Row(0.0, true, map["w" := Number(9.0)]), Row(5.0, true, map["w" := Number(5.0)]),
                            Row(11.0, true, map["w" := Number(1.0)]);
      && Agrees(mk, [peak, mid], 5.0)
      && !Agrees(Show(mk, late), [peak, mid, late], 11.0)
      && Agrees(ReadMark(Show(mk, late), [peak, mid, late], 11.0), [peak, mid, late], 11.0)
  {
    var mk := Mark("w", "", true, 10.0, true, 9.0, 0.0);
    var peak, mid, late := Row(0.0, true, map["w" := Number(9.0)]), Row(5.0, true, map["w" := Number(5.0)]),
                          Row(11.0, true, map["w" := Number(1.0)]);
    var rows := [peak, mid];
    assert Marks(mk, rows[0]) && InWindow(mk, rows[0], 5.0);
    assert rows + [late] == [peak, mid, late];
    assert InWindow(mk, rows[1], 11.0);
    CountingRow(mk, rows, late, 5.0);
    ReadAgrees(Show(mk, late), [peak, mid, late], 11.0);
  }
}
