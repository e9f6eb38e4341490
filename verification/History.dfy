/** The history store (src/history/history.c) as functions on values: modules,
    a queue of samples, and each module's file as a sequence of rows. */
module History {
  import opened Bytes

  const RING_CAP := 1024
  const MAX_MODULES := 32
  const PRUNE_EVERY: real := 3600.0
  const MARK_EVERY: real := 60.0
  const DAY: real := 86400.0

  /** What a reading has at a column's path. */
  datatype Value = Number(v: real) | Truth(b: bool) | Absent

  datatype Row = Row(ts: real, online: bool, cols: map<string, Value>)

  datatype Sample = Sample(uuid: string, interval: real, row: Row)

  /** A watermark: what is asked, and the sample found. */
  datatype Mark = Mark(column: string, when: string, high: bool, window: real, have: bool, value: real, ts: real)

  datatype Module = Module(
    used: bool, uuid: string, ready: bool, captures: bool, keepDefault: real, keepDays: real,
    lastTs: real, nextPrune: real, marks: seq<Mark>, nextMark: real)

  const NO_MODULE := Module(false, "", false, false, 0.0, 0.0, 0.0, 0.0, [], 0.0)

  datatype Store = Store(mods: seq<Module>, queue: seq<Sample>, disk: map<string, seq<Row>>)

  function File(s: Store, uuid: string): seq<Row> {
    if uuid in s.disk then s.disk[uuid] else []
  }

  function FindMod(mods: seq<Module>, uuid: string): (k: nat)
    ensures k <= |mods| && (k < |mods| ==> mods[k].used && mods[k].uuid == uuid)
    ensures forall i :: 0 <= i < k ==> !(mods[i].used && mods[i].uuid == uuid)
  {
    if mods == [] || (mods[0].used && mods[0].uuid == uuid) then 0 else 1 + FindMod(mods[1..], uuid)
  }

  // ----- Queueing -----

  datatype Taken = Queued | NotWanted | Unknown

  /** A sample arriving sooner than its interval after the last is left out. */
  predicate TooSoon(m: Module, x: Sample) {
    m.lastTs >= 0.0 && x.row.ts - m.lastTs < x.interval
  }

  function Enqueue(s: Store, x: Sample): (Store, Taken) {
    var k := FindMod(s.mods, x.uuid);
    if x.interval <= 0.0 then (s, NotWanted)
    else if k == |s.mods| then (s, Unknown)
    else if !s.mods[k].captures || TooSoon(s.mods[k], x) then (s, NotWanted)
    else (s.(mods := s.mods[k := s.mods[k].(lastTs := x.row.ts)], queue := Room(s.queue) + [x]), Queued)
  }

  /** A full queue loses its oldest. */
  function Room(q: seq<Sample>): seq<Sample> {
    if |q| == RING_CAP then q[1..] else q
  }

  // ----- Writing -----

  predicate Beats(mk: Mark, v: real) {
    if mk.high then v > mk.value else v < mk.value
  }

  function At(row: Row, column: string): Value {
    if column in row.cols then row.cols[column] else Absent
  }

  predicate NonZero(v: Value) {
    v == Truth(true) || (v.Number? && v.v != 0.0)
  }

  /** One watermark shown a new online row. */
  function FeedMark(mk: Mark, row: Row): Mark {
    var v := At(row, mk.column);
    if !v.Number? || (mk.when != "" && !NonZero(At(row, mk.when))) then mk
    else if !mk.have || mk.ts < row.ts - mk.window || Beats(mk, v.v) then mk.(have := true, value := v.v, ts := row.ts)
    else mk
  }

  function FeedMarks(marks: seq<Mark>, row: Row): (r: seq<Mark>)
    ensures |r| == |marks|
  {
    seq(|marks|, i requires 0 <= i < |marks| => FeedMark(marks[i], row))
  }

  predicate HasHome(s: Store, x: Sample) {
    var k := FindMod(s.mods, x.uuid);
    k < |s.mods| && s.mods[k].ready
  }

  /** The oldest sample goes to its module's file. */
  function WriteOldest(s: Store): Store
    requires s.queue != []
  {
    var x := s.queue[0];
    var k := FindMod(s.mods, x.uuid);
    if HasHome(s, x) then
      var m := s.mods[k];
      Store(s.mods[k := m.(marks := if x.row.online then FeedMarks(m.marks, x.row) else m.marks)],
            s.queue[1..], s.disk[x.uuid := File(s, x.uuid) + [x.row]])
    else s.(queue := s.queue[1..])
  }

  function Flush(s: Store, rows: nat): Store
    decreases rows
  {
    if rows == 0 || s.queue == [] then s else Flush(WriteOldest(s), rows - 1)
  }

  // ----- Pruning -----

  /** The oldest row, the first of them. */
  function Oldest(rows: seq<Row>): (k: nat)
    requires rows != []
    ensures k < |rows| && forall i :: 0 <= i < |rows| ==> rows[k].ts <= rows[i].ts
  {
    if |rows| == 1 then 0
    else
      var k := Oldest(rows[1..]) + 1;
      assert forall i :: 0 < i < |rows| ==> rows[i] == rows[1..][i - 1];
      if rows[0].ts <= rows[k].ts then 0 else k
  }

  function Delete(rows: seq<Row>, k: nat): seq<Row>
    requires k < |rows|
  {
    rows[..k] + rows[k + 1..]
  }

  /** The DELETE: the oldest rows before the cutoff, at most n. */
  function DeleteOldest(rows: seq<Row>, cutoff: real, n: nat): (kept: seq<Row>)
    ensures |rows| - n <= |kept| <= |rows|
    decreases n
  {
    if n == 0 || rows == [] || rows[Oldest(rows)].ts >= cutoff then rows
    else DeleteOldest(Delete(rows, Oldest(rows)), cutoff, n - 1)
  }

  function KeepDays(m: Module): real {
    if m.keepDays < 0.0 then m.keepDefault else m.keepDays
  }

  function Cutoff(m: Module, now: real): real {
    now - KeepDays(m) * DAY
  }

  predicate Due(m: Module, now: real) {
    m.used && m.captures && now >= m.nextPrune
  }

  /** One module applies its policy to its file; the third result is how many
      rows it deleted. */
  function PruneModule(m: Module, rows: seq<Row>, now: real, max: nat): (r: (Module, seq<Row>, nat))
    ensures r.2 <= max && r.0 == m.(nextPrune := r.0.nextPrune)
  {
    if KeepDays(m) <= 0.0 then (m.(nextPrune := now + PRUNE_EVERY), rows, 0)
    else
      var kept := DeleteOldest(rows, Cutoff(m, now), max);
      var n := |rows| - |kept|;
      (if n < max then m.(nextPrune := now + PRUNE_EVERY) else m, kept, n)
  }

  /** The modules from i on, with room for so many deletions. */
  function PruneFrom(s: Store, now: real, room: nat, i: nat): (Store, nat)
    requires i <= |s.mods|
    decreases |s.mods| - i
  {
    if i == |s.mods| || room == 0 then (s, 0)
    else if !Due(s.mods[i], now) then PruneFrom(s, now, room, i + 1)
    else
      var (m, kept, n) := PruneModule(s.mods[i], File(s, s.mods[i].uuid), now, room);
      var u := s.(mods := s.mods[i := m], disk := s.disk[m.uuid := kept]);
      var (r, more) := PruneFrom(u, now, room - n, i + 1);
      (r, n + more)
  }

  function PruneSlice(s: Store, now: real, max: nat): (Store, nat) {
    PruneFrom(s, now, max, 0)
  }

  // ----- Watermarks -----

  /** The value a stored row counts with, if it does. */
  function Stored(v: Value): Option<real> {
    match v
    case Number(x) => Some(x)
    case Truth(b) => Some(if b then 1.0 else 0.0)
    case Absent => None
  }

  predicate Counts(mk: Mark, row: Row) {
    && row.online && Stored(At(row, mk.column)).Some?
    && (mk.when != "" ==> Stored(At(row, mk.when)).Some? && Stored(At(row, mk.when)).value != 0.0)
  }

  function Reading(mk: Mark, row: Row): real
    requires Counts(mk, row)
  {
    Stored(At(row, mk.column)).value
  }

  /** The SELECT: the row of the extreme value in the window. */
  function Extreme(mk: Mark, rows: seq<Row>, now: real): (e: Option<Row>)
    ensures e.Some? ==> e.value in rows && Counts(mk, e.value) && e.value.ts >= now - mk.window
  {
    if rows == [] then None
    else
      var e := Extreme(mk, rows[1..], now);
      if !Counts(mk, rows[0]) || rows[0].ts < now - mk.window then e
      else if e.None? || !(if mk.high then Reading(mk, e.value) > Reading(mk, rows[0])
                                      else Reading(mk, e.value) < Reading(mk, rows[0])) then Some(rows[0])
      else e
  }

  function ReadMark(mk: Mark, rows: seq<Row>, now: real): Mark {
    var e := Extreme(mk, rows, now);
    if e.None? then mk.(have := false) else mk.(have := true, value := Reading(mk, e.value), ts := e.value.ts)
  }

  function ReadMarks(m: Module, rows: seq<Row>, now: real): Module {
    m.(marks := seq(|m.marks|, i requires 0 <= i < |m.marks| => ReadMark(m.marks[i], rows, now)),
       nextMark := now + MARK_EVERY)
  }

  predicate MarksDue(m: Module, now: real) {
    m.used && m.captures && m.marks != [] && now >= m.nextMark
  }

  /** One module a call, the first that is due from slot i on. */
  function WatermarkFrom(s: Store, now: real, i: nat): (Store, nat)
    requires i <= |s.mods|
    decreases |s.mods| - i
  {
    if i == |s.mods| then (s, 0)
    else if !MarksDue(s.mods[i], now) then WatermarkFrom(s, now, i + 1)
    else (s.(mods := s.mods[i := ReadMarks(s.mods[i], File(s, s.mods[i].uuid), now)]), 1)
  }
}
