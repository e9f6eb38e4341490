/** The history store as the program keeps it: a ring and a module table changed
    in place, proved against module History. */
module HistoryObject {
  import opened Bytes
  import opened History

  const NO_SAMPLE := Sample("", 0.0, Row(0.0, false, map[]))

  /** The place of the i-th oldest sample. */
  function Place(head: nat, i: nat): (p: nat)
    requires head < RING_CAP
    ensures p < RING_CAP
  {
    (head + i) % RING_CAP
  }

  lemma {:induction false} PlacesDiffer(head: nat, i: nat, j: nat)
    requires head < RING_CAP && i < j < RING_CAP
    ensures Place(head, i) != Place(head, j)
  {}

  lemma {:induction false} NextPlace(head: nat, i: nat)
    requires head < RING_CAP
    ensures Place(Place(head, 1), i) == Place(head, i + 1)
  {}

  class HistoryStore {
    const ring: array<Sample>
    const mods: array<Module>
    var head: nat
    var count: nat
    var disk: map<string, seq<Row>>

    ghost predicate Valid()
      reads this
    {
      ring.Length == RING_CAP && mods.Length == MAX_MODULES && head < RING_CAP && count <= RING_CAP
    }

    ghost function Queue(): (q: seq<Sample>)
      requires Valid()
      reads this, ring
      ensures |q| == count
    {
      seq(count, i requires 0 <= i < count reads this, ring requires Valid() => ring[Place(head, i)])
    }

    ghost function State(): Store
      requires Valid()
      reads this, ring, mods
    {
      Store(mods[..], Queue(), disk)
    }

    constructor (files: map<string, seq<Row>>)
      ensures Valid() && fresh(ring) && fresh(mods)
      ensures State() == Store(seq(MAX_MODULES, _ => NO_MODULE), [], files)
    {
      ring := new Sample[RING_CAP](_ => NO_SAMPLE);
      mods := new Module[MAX_MODULES](_ => NO_MODULE);
      head, count, disk := 0, 0, files;
    }

    method FindModule(uuid: string) returns (k: nat)
      requires Valid()
      ensures k == FindMod(mods[..], uuid)
    {
      for i := 0 to MAX_MODULES
        invariant forall j :: 0 <= j < i ==> !(mods[j].used && mods[j].uuid == uuid)
      {
        if mods[i].used && mods[i].uuid == uuid {
          assert mods[..][i] == mods[i];
          return i;
        }
      }
      return MAX_MODULES;
    }

    // ----- The ring -----

    method DropOldest()
      requires Valid() && count > 0
      modifies this`head, this`count
      ensures Valid() && Queue() == old(Queue())[1..]
    {
      forall i: nat ensures Place(Place(head, 1), i) == Place(head, i + 1) {
        NextPlace(head, i);
      }
      head := (head + 1) % RING_CAP;
      count := count - 1;
    }

    method Append(x: Sample)
      requires Valid() && count < RING_CAP
      modifies this`count, ring
      ensures Valid() && Queue() == old(Queue()) + [x]
    {
      var pos := (head + count) % RING_CAP;
      forall i | 0 <= i < count ensures Place(head, i) != pos {
        PlacesDiffer(head, i, count);
      }
      ring[pos] := x;
      count := count + 1;
    }

    /** mf_history_enqueue(). */
    method EnqueueSample(x: Sample) returns (t: Taken)
      requires Valid()
      modifies this`head, this`count, ring, mods
      ensures Valid() && (State(), t) == Enqueue(old(State()), x)
    {
      if x.interval <= 0.0 { return NotWanted; }
      var k := FindModule(x.uuid);
      if k == MAX_MODULES { return Unknown; }
      if !mods[k].captures || (mods[k].lastTs >= 0.0 && x.row.ts - mods[k].lastTs < x.interval) { return NotWanted; }
      mods[k] := mods[k].(lastTs := x.row.ts);
      if count == RING_CAP { DropOldest(); }
      Append(x);
      return Queued;
    }

    // ----- Writing -----

    method ShowMarks(k: nat, row: Row)
      requires Valid() && k < MAX_MODULES
      modifies mods
      ensures mods[..] == old(mods[..])[k := old(mods[k]).(marks := FeedMarks(old(mods[k]).marks, row))]
    {
      var m := mods[k];
      for i := 0 to |m.marks|
        invariant |mods[k].marks| == |m.marks|
        invariant mods[..] == old(mods[..])[k := m.(marks := mods[k].marks)]
        invariant forall j :: 0 <= j < |m.marks| ==>
          mods[k].marks[j] == if j < i then FeedMark(m.marks[j], row) else m.marks[j]
      {
        mods[k] := mods[k].(marks := mods[k].marks[i := FeedMark(mods[k].marks[i], row)]);
      }
      assert mods[k].marks == FeedMarks(m.marks, row);
    }

    method WriteSample()
      requires Valid() && count > 0
      modifies this`head, this`count, this`disk, mods
      ensures Valid() && State() == WriteOldest(old(State()))
      ensures count == old(count) - 1
    {
      var x := ring[head];
      assert Place(head, 0) == head;
      assert x == Queue()[0];
      var k := FindModule(x.uuid);
      if k < MAX_MODULES && mods[k].ready {
        disk := disk[x.uuid := (if x.uuid in disk then disk[x.uuid] else []) + [x.row]];
        if x.row.online { ShowMarks(k, x.row); }
      }
      DropOldest();
    }

    /** mf_history_flush_slice(). */
    method FlushSlice(max: nat) returns (done: nat)
      requires Valid()
      modifies this`head, this`count, this`disk, mods
      ensures Valid() && State() == Flush(old(State()), max) && done == Min(max, |old(Queue())|)
    {
      hide WriteOldest;
      done := 0;
      while done < max && count > 0
        invariant Valid() && done <= max && done + count == old(count)
        invariant Flush(State(), max - done) == Flush(old(State()), max)
      {
        WriteSample();
        done := done + 1;
      }
    }

    // ----- Pruning -----

    method PruneAt(i: nat, now: real, room: nat) returns (n: nat)
      requires Valid() && i < MAX_MODULES
      modifies this`disk, mods
      ensures Valid()
      ensures var s := old(State()); var (m, kept, gone) := PruneModule(s.mods[i], File(s, s.mods[i].uuid), now, room);
        n == gone && State() == s.(mods := s.mods[i := m], disk := s.disk[m.uuid := kept])
    {
      var m := mods[i];
      var rows := if m.uuid in disk then disk[m.uuid] else [];
      var kept := rows;
      var days := if m.keepDays < 0.0 then m.keepDefault else m.keepDays;
      n := 0;
      if days <= 0.0 {
        mods[i] := m.(nextPrune := now + PRUNE_EVERY);
      } else {
        kept := DeleteOldest(rows, now - days * DAY, room);
        n := |rows| - |kept|;
        if n < room { mods[i] := m.(nextPrune := now + PRUNE_EVERY); }
      }
      disk := disk[m.uuid := kept];
    }

    /** mf_history_prune_slice(). */
    method Prune(now: real, max: nat) returns (done: nat)
      requires Valid()
      modifies this`disk, mods
      ensures Valid() && (State(), done) == PruneSlice(old(State()), now, max)
    {
      done := 0;
      var i := 0;
      while i < MAX_MODULES && done < max
        invariant Valid() && i <= MAX_MODULES && done <= max
        invariant PruneSlice(old(State()), now, max) ==
          (var (r, more) := PruneFrom(State(), now, max - done, i); (r, done + more))
      {
        if Due(mods[i], now) {
          var n := PruneAt(i, now, max - done);
          done := done + n;
        }
        i := i + 1;
      }
    }

    // ----- Watermarks -----

    method ReadModuleMarks(k: nat, now: real)
      requires Valid() && k < MAX_MODULES
      modifies mods
      ensures var s := old(State());
        State() == s.(mods := s.mods[k := ReadMarks(s.mods[k], File(s, s.mods[k].uuid), now)])
    {
      var m := mods[k];
      var rows := if m.uuid in disk then disk[m.uuid] else [];
      for i := 0 to |m.marks|
        invariant |mods[k].marks| == |m.marks|
        invariant mods[..] == old(mods[..])[k := m.(marks := mods[k].marks)]
        invariant forall j :: 0 <= j < |m.marks| ==>
          mods[k].marks[j] == if j < i then ReadMark(m.marks[j], rows, now) else m.marks[j]
      {
        mods[k] := mods[k].(marks := mods[k].marks[i := ReadMark(mods[k].marks[i], rows, now)]);
      }
      assert mods[k].marks == ReadMarks(m, rows, now).marks;
      mods[k] := mods[k].(nextMark := now + MARK_EVERY);
    }

    /** mf_history_watermark_slice(). */
    method WatermarkSlice(now: real) returns (n: nat)
      requires Valid()
      modifies mods
      ensures Valid() && (State(), n) == WatermarkFrom(old(State()), now, 0)
    {
      for i := 0 to MAX_MODULES
        invariant State() == old(State())
        invariant WatermarkFrom(State(), now, 0) == WatermarkFrom(State(), now, i)
      {
        if MarksDue(mods[i], now) {
          ReadModuleMarks(i, now);
          return 1;
        }
      }
      return 0;
    }
  }
}
