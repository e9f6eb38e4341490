/** The site's totals (src/system/system.c) over real numbers: what a pack's
    state of charge shows, and what the modules add up to. */
module System {
  import opened Bytes

  datatype Point = Point(v: real, soc: real)

  /** The resting voltage of an LFP cell and its state of charge. */
  const CURVE: seq<Point> := [
    Point(2.80, 0.0), Point(3.00, 5.0), Point(3.20, 10.0), Point(3.25, 20.0), Point(3.28, 30.0),
    Point(3.30, 40.0), Point(3.33, 50.0), Point(3.35, 60.0), Point(3.37, 70.0), Point(3.40, 85.0),
    Point(3.45, 95.0), Point(3.50, 99.0), Point(3.60, 100.0)]

  /** On the line between two points. */
  function Between(a: Point, b: Point, v: real): real
    requires a.v < b.v
  {
    a.soc + (v - a.v) / (b.v - a.v) * (b.soc - a.soc)
  }

  predicate Rising(c: seq<Point>) {
    forall i, j :: 0 <= i < j < |c| ==> c[i].v < c[j].v && c[i].soc <= c[j].soc
  }

  /** The first point at or above v, from i on. */
  function Above(c: seq<Point>, v: real, i: nat): (k: nat)
    requires i < |c| && v <= c[|c| - 1].v
    ensures i <= k < |c| && v <= c[k].v && forall j :: i <= j < k ==> c[j].v < v
    decreases |c| - i
  {
    if v <= c[i].v then i else Above(c, v, i + 1)
  }

  function OnCurve(c: seq<Point>, v: real): real
    requires c != [] && Rising(c)
  {
    if v <= c[0].v then c[0].soc
    else if v >= c[|c| - 1].v then c[|c| - 1].soc
    else
      var k := Above(c, v, 0);
      Between(c[k - 1], c[k], v)
  }

  function VoltageSoc(v: real): real {
    CurveRises();
    OnCurve(CURVE, v)
  }

  function Clamp(x: real): real {
    if x < 0.0 then 0.0 else if x > 100.0 then 100.0 else x
  }

  function CountedSoc(bms: real, rem: real, full: real): real {
    if full > 0.0 && rem >= 0.0 then rem / full * 100.0 else bms
  }

  predicate AtRest(v: real, current: real, check: bool) {
    check && v > 0.0 && -0.5 < current < 0.5
  }

  /** mf_display_soc(). */
  function DisplaySoc(bms: real, rem: real, full: real, v: real, current: real, check: bool): real {
    var soc := CountedSoc(bms, rem, full);
    Clamp(
      if AtRest(v, current, check) && (soc - VoltageSoc(v) > 20.0 || VoltageSoc(v) - soc > 20.0) then VoltageSoc(v)
      else soc)
  }

  // ----- The curve -----

  lemma {:induction false} CurveRises()
    ensures Rising(CURVE) && CURVE != [] && CURVE[0].soc == 0.0 && CURVE[|CURVE| - 1].soc == 100.0
  {}

  lemma {:induction false} BetweenIsBetween(a: Point, b: Point, v: real)
    requires a.v < b.v && a.soc <= b.soc && a.v <= v <= b.v
    ensures a.soc <= Between(a, b, v) <= b.soc
  {
    var t, rise := (v - a.v) / (b.v - a.v), b.soc - a.soc;
    Fraction(v - a.v, b.v - a.v);
    Scale(0.0, t, rise);
    Scale(t, 1.0, rise);
  }

  lemma {:induction false} Fraction(x: real, span: real)
    requires 0.0 <= x <= span && span > 0.0
    ensures 0.0 <= x / span <= 1.0
  {
    assert x / span * span == x;
  }

  lemma {:induction false} Scale(x: real, y: real, k: real)
    requires x <= y && k >= 0.0
    ensures x * k <= y * k
  {}

  lemma {:induction false} BetweenRises(a: Point, b: Point, v: real, w: real)
    requires a.v < b.v && a.soc <= b.soc && v <= w
    ensures Between(a, b, v) <= Between(a, b, w)
  {
    var span := b.v - a.v;
    Divide(v - a.v, w - a.v, span);
    Scale((v - a.v) / span, (w - a.v) / span, b.soc - a.soc);
  }

  lemma {:induction false} Divide(x: real, y: real, k: real)
    requires x <= y && k > 0.0
    ensures x / k <= y / k
  {
    assert x / k * k == x && y / k * k == y;
  }

  /** Where the curve is between its ends. */
  lemma {:induction false} Inside(c: seq<Point>, v: real)
    requires c != [] && Rising(c) && c[0].v < v < c[|c| - 1].v
    ensures var k := Above(c, v, 0);
      k > 0 && c[k - 1].v < v <= c[k].v && OnCurve(c, v) == Between(c[k - 1], c[k], v)
      && c[k - 1].soc <= OnCurve(c, v) <= c[k].soc
  {
    hide Between;
    var k := Above(c, v, 0);
    BetweenIsBetween(c[k - 1], c[k], v);
  }

  lemma {:induction false} InRange(c: seq<Point>, v: real)
    requires c != [] && Rising(c)
    ensures c[0].soc <= OnCurve(c, v) <= c[|c| - 1].soc
  {
    hide Between;
    if c[0].v < v < c[|c| - 1].v {
      Inside(c, v);
    }
  }

  lemma {:induction false} VoltageSocInRange(v: real)
    ensures 0.0 <= VoltageSoc(v) <= 100.0
  {
    CurveRises();
    InRange(CURVE, v);
  }

  lemma {:induction false} CurveIsMonotone(c: seq<Point>, v: real, w: real)
    requires c != [] && Rising(c) && v <= w
    ensures OnCurve(c, v) <= OnCurve(c, w)
  {
    hide Between;
    InRange(c, v);
    InRange(c, w);
    if c[0].v < v && w < c[|c| - 1].v {
      Inside(c, v);
      Inside(c, w);
      var k, m := Above(c, v, 0), Above(c, w, 0);
      if k == m {
        BetweenRises(c[k - 1], c[k], v, w);
      } else {
        assert k < m;
      }
    }
  }

  /** A higher voltage never shows a lower charge. */
  lemma {:induction false} VoltageSocRises(v: real, w: real)
    requires v <= w
    ensures VoltageSoc(v) <= VoltageSoc(w)
  {
    CurveRises();
    CurveIsMonotone(CURVE, v, w);
  }

  /** What is shown is a percentage, and for a checked pack at rest within 20
      points of what its voltage says. */
  lemma {:induction false} ShownSoc(bms: real, rem: real, full: real, v: real, current: real, check: bool)
    ensures var s := DisplaySoc(bms, rem, full, v, current, check);
      && 0.0 <= s <= 100.0
      && (AtRest(v, current, check) ==> VoltageSoc(v) - 20.0 <= s <= VoltageSoc(v) + 20.0)
  {
    VoltageSocInRange(v);
  }

  // ----- Totals -----

  datatype Module =
    | Charger(active: bool, online: bool, w: real)
    | Battery(active: bool, online: bool, packV: real, currentA: real, bmsSoc: real,
              remAh: real, fullAh: real, cells: int, check: bool)
    | Limit(active: bool, online: bool, w: real)
    | Inverter(active: bool, online: bool, rated: real, output: real, ac: real)

  datatype Totals = Totals(
    chargers: nat, chargersCounted: nat, inputW: real,
    batteries: nat, batteriesCounted: nat, capacityWh: real, storedWh: real, socSum: real, socN: nat,
    chargeW: real, dischargeW: real, limitW: real, limitN: nat,
    inverters: nat, invertersCounted: nat,
    ratedW: real, ratedN: nat, outputW: real, outputN: nat, acW: real, acN: nat)

  const NOTHING := Totals(0, 0, 0.0, 0, 0, 0.0, 0.0, 0.0, 0, 0.0, 0.0, 0.0, 0, 0, 0, 0.0, 0, 0.0, 0, 0.0, 0)

  predicate Counted(m: Module) {
    m.active && m.online
  }

  function CellV(m: Module): real
    requires m.Battery?
  {
    if m.cells > 0 then m.packV / m.cells as real else 0.0
  }

  function PackSoc(m: Module): real
    requires m.Battery?
  {
    DisplaySoc(m.bmsSoc, m.remAh, m.fullAh, CellV(m), m.currentA, m.check)
  }

  function PackPower(m: Module): real
    requires m.Battery?
  {
    m.packV * m.currentA
  }

  function FullWh(m: Module): real
    requires m.Battery?
  {
    m.fullAh * m.packV
  }

  function StoredWh(m: Module): real
    requires m.Battery?
  {
    Portion(FullWh(m), PackSoc(m))
  }

  function Portion(wh: real, soc: real): real {
    wh * soc / 100.0
  }

  predicate Sized(m: Module) {
    m.Battery? && m.fullAh > 0.0 && m.packV > 0.0
  }

  /** The mf_system_add_*() functions. */
  function Add(t: Totals, m: Module): Totals {
    match m
    case Charger(_, _, w) =>
      var u := t.(chargers := t.chargers + 1);
      if !Counted(m) then u
      else u.(chargersCounted := t.chargersCounted + 1, inputW := if w > 0.0 then t.inputW + w else t.inputW)
    case Battery(_, _, _, _, _, _, _, _, _) =>
      var u := t.(batteries := t.batteries + 1);
      if !Counted(m) then u
      else
        var soc, power := PackSoc(m), PackPower(m);
        var v := u.(batteriesCounted := t.batteriesCounted + 1,
                    chargeW := if power > 0.0 then t.chargeW + power else t.chargeW,
                    dischargeW := if power > 0.0 then t.dischargeW else t.dischargeW - power);
        if Sized(m) then
          v.(capacityWh := t.capacityWh + FullWh(m), storedWh := t.storedWh + StoredWh(m))
        else v.(socSum := t.socSum + soc, socN := t.socN + 1)
    case Limit(_, _, w) =>
      if !Counted(m) || w <= 0.0 then t else t.(limitW := t.limitW + w, limitN := t.limitN + 1)
    case Inverter(_, _, rated, output, ac) =>
      var u := t.(inverters := t.inverters + 1);
      if !Counted(m) then u
      else
        u.(invertersCounted := t.invertersCounted + 1,
           ratedW := if rated > 0.0 then t.ratedW + rated else t.ratedW,
           ratedN := if rated > 0.0 then t.ratedN + 1 else t.ratedN,
           outputW := if output >= 0.0 then t.outputW + output else t.outputW,
           outputN := if output >= 0.0 then t.outputN + 1 else t.outputN,
           acW := if ac >= 0.0 then t.acW + ac else t.acW,
           acN := if ac >= 0.0 then t.acN + 1 else t.acN)
  }

  function AddAll(t: Totals, ms: seq<Module>): Totals {
    if ms == [] then t else Add(AddAll(t, ms[..|ms| - 1]), ms[|ms| - 1])
  }

  /** mf_system_finish(). */
  datatype Summary = Summary(netW: real, fromInverters: bool, loadW: real, soc: real)

  function Finish(t: Totals): Summary {
    var net := t.inputW + t.dischargeW - t.chargeW;
    var net0 := if net < 0.0 then 0.0 else net;
    var known := OutputKnown(t);
    Summary(net0, known, if known then t.outputW else net0,
            if t.capacityWh > 0.0 then t.storedWh / t.capacityWh * 100.0
            else if t.socN > 0 then t.socSum / t.socN as real else -1.0)
  }

  predicate OutputKnown(t: Totals) {
    t.invertersCounted > 0 && t.outputN == t.invertersCounted
  }

  // ----- What they add up to -----

  /** The power of the counted packs. */
  function PowerSum(ms: seq<Module>): real {
    if ms == [] then 0.0
    else
      var m := ms[|ms| - 1];
      PowerSum(ms[..|ms| - 1]) + if m.Battery? && Counted(m) then PackPower(m) else 0.0
  }

  predicate Sane(t: Totals) {
    && t.chargeW >= 0.0 && t.dischargeW >= 0.0 && t.inputW >= 0.0 && t.outputW >= 0.0
    && 0.0 <= t.storedWh <= t.capacityWh
    && 0.0 <= t.socSum <= 100.0 * t.socN as real
    && t.outputN <= t.invertersCounted <= t.inverters
  }

  lemma {:induction false} Share(wh: real, soc: real)
    requires wh > 0.0 && 0.0 <= soc <= 100.0
    ensures 0.0 <= Portion(wh, soc) <= wh
  {}

  lemma {:induction false} Product(x: real, y: real)
    requires x > 0.0 && y > 0.0
    ensures x * y > 0.0
  {}

  lemma {:induction false} FullIsPositive(m: Module)
    requires Sized(m)
    ensures FullWh(m) > 0.0
  {
    Product(m.fullAh, m.packV);
  }

  lemma {:induction false} PackSocInRange(m: Module)
    requires m.Battery?
    ensures 0.0 <= PackSoc(m) <= 100.0
  {
    hide DisplaySoc;
    ShownSoc(m.bmsSoc, m.remAh, m.fullAh, CellV(m), m.currentA, m.check);
  }

  lemma {:induction false} PackIsSane(m: Module)
    requires m.Battery?
    ensures 0.0 <= PackSoc(m) <= 100.0 && (Sized(m) ==> 0.0 <= StoredWh(m) <= FullWh(m))
  {
    hide PackSoc, FullWh, Portion;
    PackSocInRange(m);
    if Sized(m) {
      FullIsPositive(m);
      Share(FullWh(m), PackSoc(m));
    }
  }

  lemma {:induction false} AddIsSane(t: Totals, m: Module)
    requires Sane(t)
    ensures Sane(Add(t, m))
  {
    hide PackSoc, PackPower, FullWh, StoredWh;
    if m.Battery? {
      PackIsSane(m);
    }
  }

  /** Over any list of modules: charging less discharging is the power of the
      counted packs, no total is negative, and no more is stored than fits. */
  lemma {:induction false} TotalsAddUp(ms: seq<Module>)
    ensures var t := AddAll(NOTHING, ms); t.chargeW - t.dischargeW == PowerSum(ms) && Sane(t)
  {
    hide Sane, PackPower, PackSoc, FullWh, StoredWh;
    if ms == [] {
      assert Sane(NOTHING) by { NothingIsSane(); }
    } else {
      TotalsAddUp(ms[..|ms| - 1]);
      AddIsSane(AddAll(NOTHING, ms[..|ms| - 1]), ms[|ms| - 1]);
    }
  }

  lemma {:induction false} NothingIsSane()
    ensures Sane(NOTHING)
  {}

  /** The charge shown is a percentage, or -1 when no pack reports one. */
  lemma {:induction false} SiteSoc(ms: seq<Module>)
    ensures var t := AddAll(NOTHING, ms); var s := Finish(t);
      && s.netW >= 0.0 && s.loadW >= 0.0
      && (if t.capacityWh <= 0.0 && t.socN == 0 then s.soc == -1.0 else 0.0 <= s.soc <= 100.0)
  {
    TotalsAddUp(ms);
    var t := AddAll(NOTHING, ms);
    hide AddAll, PowerSum;
    if t.capacityWh > 0.0 {
      Fraction(t.storedWh, t.capacityWh);
    } else if t.socN > 0 {
      assert t.socSum / t.socN as real * t.socN as real == t.socSum;
      Quotient(t.socSum, t.socN as real, 100.0);
    }
  }

  lemma {:induction false} Quotient(sum: real, n: real, hi: real)
    requires n > 0.0 && 0.0 <= sum <= hi * n
    ensures 0.0 <= sum / n <= hi
  {
    assert sum / n * n == sum;
  }

  // ----- Only a whole sum is known -----

  predicate Reports(m: Module) {
    m.Inverter? && Counted(m) ==> m.output >= 0.0
  }

  /** The inverters' output is known exactly when there are counted inverters
      and none of those leaves it out. */
  lemma {:induction false} OutputKnownExactlyWhen(ms: seq<Module>)
    ensures var t := AddAll(NOTHING, ms);
      && (t.invertersCounted > 0 <==> exists i :: 0 <= i < |ms| && ms[i].Inverter? && Counted(ms[i]))
      && (t.outputN == t.invertersCounted <==> forall i :: 0 <= i < |ms| ==> Reports(ms[i]))
      && t.outputN <= t.invertersCounted
  {
    hide PackSoc, PackPower, FullWh, StoredWh;
    if ms != [] {
      var before := ms[..|ms| - 1];
      OutputKnownExactlyWhen(before);
      assert forall i :: 0 <= i < |before| ==> ms[i] == before[i];
      assert ms[|ms| - 1] == ms[|before|];
    }
  }

  // ----- In any order -----

  function Plus(t: Totals, u: Totals): Totals {
    Totals(
      t.chargers + u.chargers, t.chargersCounted + u.chargersCounted, t.inputW + u.inputW,
      t.batteries + u.batteries, t.batteriesCounted + u.batteriesCounted,
      t.capacityWh + u.capacityWh, t.storedWh + u.storedWh, t.socSum + u.socSum, t.socN + u.socN,
      t.chargeW + u.chargeW, t.dischargeW + u.dischargeW, t.limitW + u.limitW, t.limitN + u.limitN,
      t.inverters + u.inverters, t.invertersCounted + u.invertersCounted,
      t.ratedW + u.ratedW, t.ratedN + u.ratedN, t.outputW + u.outputW, t.outputN + u.outputN,
      t.acW + u.acW, t.acN + u.acN)
  }

  /** A module adds what it would add to nothing. */
  lemma {:induction false} AddIsPlus(t: Totals, m: Module)
    ensures Add(t, m) == Plus(t, Add(NOTHING, m))
  {
    hide PackSoc, PackPower, FullWh, StoredWh;
  }

  lemma {:induction false} PlusCommutes(t: Totals, a: Totals, b: Totals)
    ensures Plus(Plus(t, a), b) == Plus(Plus(t, b), a)
  {}

  lemma {:induction false} AddCommutes(t: Totals, a: Module, b: Module)
    ensures Add(Add(t, a), b) == Add(Add(t, b), a)
  {
    hide Add, Plus;
    AddIsPlus(t, a);
    AddIsPlus(t, b);
    AddIsPlus(Add(t, a), b);
    AddIsPlus(Add(t, b), a);
    PlusCommutes(t, Add(NOTHING, a), Add(NOTHING, b));
  }

  /** A module may as well be added first. */
  lemma {:induction false} AddFirst(t: Totals, m: Module, ms: seq<Module>)
    ensures AddAll(Add(t, m), ms) == Add(AddAll(t, ms), m)
  {
    hide Add;
    if ms != [] {
      AddFirst(t, m, ms[..|ms| - 1]);
      AddCommutes(AddAll(t, ms[..|ms| - 1]), m, ms[|ms| - 1]);
    }
  }

  lemma {:induction false} AddSplit(t: Totals, a: seq<Module>, b: seq<Module>)
    ensures AddAll(t, a + b) == AddAll(AddAll(t, a), b)
  {
    hide Add;
    if b == [] {
      assert a + b == a;
    } else {
      assert (a + b)[..|a + b| - 1] == a + b[..|b| - 1];
      AddSplit(t, a, b[..|b| - 1]);
    }
  }

  lemma {:induction false} PullOut(t: Totals, b: seq<Module>, k: nat)
    requires k < |b|
    ensures AddAll(t, b) == Add(AddAll(t, b[..k] + b[k + 1..]), b[k])
  {
    hide Add, AddAll;
    var head, m, tail := b[..k], b[k], b[k + 1..];
    assert b == (head + [m]) + tail;
    AddSplit(t, head, tail);
    AddSplit(t, head + [m], tail);
    AddSplit(t, head, [m]);
    AddOne(AddAll(t, head), m);
    AddFirst(AddAll(t, head), m, tail);
  }

  /** The totals are the same in any order of the modules. */
  lemma {:induction false} AnyOrder(t: Totals, a: seq<Module>, b: seq<Module>)
    requires multiset(a) == multiset(b)
    ensures AddAll(t, a) == AddAll(t, b)
    decreases |a|
  {
    hide Add;
    if a == [] {
      assert |multiset(b)| == 0;
    } else {
      var n := |a| - 1;
      var k := Without(a, b);
      PullOut(t, b, k);
      AnyOrder(t, a[..n], b[..k] + b[k + 1..]);
    }
  }

  /** The last of one list is somewhere in the other. */
  lemma {:induction false} Without(a: seq<Module>, b: seq<Module>) returns (k: nat)
    requires a != [] && multiset(a) == multiset(b)
    ensures k < |b| && b[k] == a[|a| - 1] && multiset(a[..|a| - 1]) == multiset(b[..k] + b[k + 1..])
  {
    var n := |a| - 1;
    assert a[n] in multiset(b);
    k :| 0 <= k < |b| && b[k] == a[n];
    Removed(a, n);
    Removed(b, k);
    assert a[..n] + a[n + 1..] == a[..n];
  }

  lemma {:induction false} Removed(s: seq<Module>, k: nat)
    requires k < |s|
    ensures multiset(s[..k] + s[k + 1..]) == multiset(s) - multiset{s[k]}
  {
    assert s == s[..k] + [s[k]] + s[k + 1..];
  }

  lemma {:induction false} AddOne(t: Totals, m: Module)
    ensures AddAll(t, [m]) == Add(t, m)
  {}

  // ----- What is shown, module by module -----

  predicate OnCharger(m: Module) {
    m.Charger? && m.active && m.online
  }

  predicate OnBattery(m: Module) {
    m.Battery? && m.active && m.online
  }

  predicate OnInverter(m: Module) {
    m.Inverter? && m.active && m.online
  }

  /** A charger's watts, nothing if it gives none. */
  function InputOf(m: Module): real {
    if OnCharger(m) && m.w > 0.0 then m.w else 0.0
  }

  /** A pack's watts, positive while it charges. */
  function PowerOf(m: Module): real {
    if OnBattery(m) then m.packV * m.currentA else 0.0
  }

  /** A pack's watt-hours when full, if its size is known. */
  function CapacityOf(m: Module): real {
    if OnBattery(m) && m.fullAh > 0.0 && m.packV > 0.0 then m.fullAh * m.packV else 0.0
  }

  /** What is shown of a pack: by its average cell, if it says how many it has. */
  function SocOf(m: Module): real
    requires m.Battery?
  {
    DisplaySoc(m.bmsSoc, m.remAh, m.fullAh, if m.cells > 0 then m.packV / m.cells as real else 0.0, m.currentA, m.check)
  }

  function StoredOf(m: Module): real {
    if OnBattery(m) then CapacityOf(m) * SocOf(m) / 100.0 else 0.0
  }

  predicate Unsized(m: Module) {
    OnBattery(m) && !(m.fullAh > 0.0 && m.packV > 0.0)
  }

  function LooseSocOf(m: Module): real {
    if Unsized(m) then SocOf(m) else 0.0
  }

  function OutputOf(m: Module): real {
    if OnInverter(m) && m.output >= 0.0 then m.output else 0.0
  }

  function ChargeOf(m: Module): real {
    if PowerOf(m) > 0.0 then PowerOf(m) else 0.0
  }

  function RatedOf(m: Module): real {
    if OnInverter(m) && m.rated > 0.0 then m.rated else 0.0
  }

  function AcOf(m: Module): real {
    if OnInverter(m) && m.ac >= 0.0 then m.ac else 0.0
  }

  function LimitOf(m: Module): real {
    if m.Limit? && m.active && m.online && m.w > 0.0 then m.w else 0.0
  }

  function SumOf(ms: seq<Module>, f: Module -> real): real {
    if ms == [] then 0.0 else SumOf(ms[..|ms| - 1], f) + f(ms[|ms| - 1])
  }

  function CountOf(ms: seq<Module>, p: Module -> bool): nat {
    if ms == [] then 0 else CountOf(ms[..|ms| - 1], p) + if p(ms[|ms| - 1]) then 1 else 0
  }

  lemma {:induction false} AddOfEach(t: Totals, m: Module)
    ensures var u := Add(t, m);
      && u.inputW == t.inputW + InputOf(m) && u.chargeW - u.dischargeW == t.chargeW - t.dischargeW + PowerOf(m)
      && u.chargeW == t.chargeW + ChargeOf(m) && u.limitW == t.limitW + LimitOf(m)
      && u.ratedW == t.ratedW + RatedOf(m) && u.acW == t.acW + AcOf(m)
      && u.capacityWh == t.capacityWh + CapacityOf(m) && u.storedWh == t.storedWh + StoredOf(m)
      && u.socSum == t.socSum + LooseSocOf(m) && u.socN == t.socN + (if Unsized(m) then 1 else 0)
      && u.outputW == t.outputW + OutputOf(m)
      && u.batteriesCounted == t.batteriesCounted + (if OnBattery(m) then 1 else 0)
      && u.chargersCounted == t.chargersCounted + (if OnCharger(m) then 1 else 0)
      && u.chargers == t.chargers + (if m.Charger? then 1 else 0)
      && u.batteries == t.batteries + (if m.Battery? then 1 else 0)
      && u.inverters == t.inverters + (if m.Inverter? then 1 else 0)
      && u.invertersCounted == t.invertersCounted + (if OnInverter(m) then 1 else 0)
      && u.limitN == t.limitN + (if LimitOf(m) > 0.0 then 1 else 0)
      && u.ratedN == t.ratedN + (if RatedOf(m) > 0.0 then 1 else 0)
      && u.acN == t.acN + (if OnInverter(m) && m.ac >= 0.0 then 1 else 0)
  {
    hide DisplaySoc;
  }

  lemma {:induction false} TotalsOfEach(ms: seq<Module>)
    ensures var t := AddAll(NOTHING, ms);
      && t.inputW == SumOf(ms, InputOf) && t.chargeW - t.dischargeW == SumOf(ms, PowerOf)
      && t.chargeW == SumOf(ms, ChargeOf) && t.limitW == SumOf(ms, LimitOf)
      && t.ratedW == SumOf(ms, RatedOf) && t.acW == SumOf(ms, AcOf)
      && t.batteriesCounted == CountOf(ms, OnBattery) && t.chargersCounted == CountOf(ms, OnCharger)
      && t.capacityWh == SumOf(ms, CapacityOf) && t.storedWh == SumOf(ms, StoredOf)
      && t.socSum == SumOf(ms, LooseSocOf) && t.socN == CountOf(ms, Unsized)
      && t.outputW == SumOf(ms, OutputOf)
  {
    hide Add, InputOf, PowerOf, CapacityOf, StoredOf, LooseSocOf, OutputOf, Unsized, ChargeOf, LimitOf, RatedOf, AcOf,
      OnBattery, OnCharger;
    if ms != [] {
      TotalsOfEach(ms[..|ms| - 1]);
      AddOfEach(AddAll(NOTHING, ms[..|ms| - 1]), ms[|ms| - 1]);
    }
  }

  /** Every counted inverter gives its output, and there is one. */
  predicate AllReport(ms: seq<Module>) {
    && (exists i :: 0 <= i < |ms| && OnInverter(ms[i]))
    && forall i :: 0 <= i < |ms| && OnInverter(ms[i]) ==> ms[i].output >= 0.0
  }

  /** What the site shows of any modules.  The power left for the inverters is what
      the chargers bring less what the packs take, and never below nothing; the
      load is the inverters' output if all of them give it, else that.  The
      charge is what is stored over what fits, or, when no pack's size is known,
      the packs' average. */
  lemma {:induction false} SiteShows(ms: seq<Module>)
    ensures var s := Finish(AddAll(NOTHING, ms));
      var left := SumOf(ms, InputOf) - SumOf(ms, PowerOf);
      && s.netW == (if left < 0.0 then 0.0 else left)
      && s.fromInverters == AllReport(ms) && s.loadW == (if AllReport(ms) then SumOf(ms, OutputOf) else s.netW)
      && (SumOf(ms, CapacityOf) > 0.0 ==> s.soc * SumOf(ms, CapacityOf) == 100.0 * SumOf(ms, StoredOf))
      && (SumOf(ms, CapacityOf) <= 0.0 && CountOf(ms, Unsized) > 0 ==>
            s.soc * CountOf(ms, Unsized) as real == SumOf(ms, LooseSocOf))
      && (SumOf(ms, CapacityOf) <= 0.0 && CountOf(ms, Unsized) == 0 ==> s.soc == -1.0)
  {
    hide AddAll, SumOf, CountOf, InputOf, PowerOf, CapacityOf, StoredOf, LooseSocOf, OutputOf, Unsized;
    TotalsOfEach(ms);
    OutputKnownExactlyWhen(ms);
    var t := AddAll(NOTHING, ms);
    ReportsAll(ms);
    if t.capacityWh > 0.0 {
      Percent(t.storedWh, t.capacityWh);
    } else if t.socN > 0 {
      assert t.socSum / t.socN as real * t.socN as real == t.socSum;
    }
  }

  lemma {:induction false} Percent(part: real, whole: real)
    requires whole > 0.0
    ensures part / whole * 100.0 * whole == 100.0 * part
  {
    assert part / whole * whole == part;
  }

  lemma {:induction false} ReportsAll(ms: seq<Module>)
    ensures AllReport(ms) <==>
      && (exists i :: 0 <= i < |ms| && ms[i].Inverter? && Counted(ms[i]))
      && forall i :: 0 <= i < |ms| ==> Reports(ms[i])
  {
    forall i | 0 <= i < |ms| ensures OnInverter(ms[i]) <==> ms[i].Inverter? && Counted(ms[i]) {}
  }

  // ----- What is shown of one pack -----

  /** `counted` is the charge the pack counts: what remains over what fits, if it
      says so, else what it gives. */
  predicate CountedIs(bms: real, rem: real, full: real, counted: real) {
    if full > 0.0 && rem >= 0.0 then counted * full == 100.0 * rem else counted == bms
  }

  /** A checked pack at rest whose count is more than 20 points off shows what its
      voltage says; any other shows its count, kept to 0 to 100. */
  lemma {:induction false} ShownExactlyWhen(
      bms: real, rem: real, full: real, v: real, current: real, check: bool, counted: real)
    requires CountedIs(bms, rem, full, counted)
    ensures var s, off := DisplaySoc(bms, rem, full, v, current, check), counted - VoltageSoc(v);
      if check && v > 0.0 && -0.5 < current < 0.5 && (off > 20.0 || off < -20.0) then s == VoltageSoc(v)
      else if counted < 0.0 then s == 0.0
      else if counted > 100.0 then s == 100.0
      else s == counted
  {
    hide VoltageSoc;
    VoltageSocInRange(v);
    if full > 0.0 && rem >= 0.0 {
      Percent(rem, full);
      SameShare(counted, rem / full * 100.0, full);
    }
  }

  lemma {:induction false} SameShare(x: real, y: real, k: real)
    requires k > 0.0 && x * k == y * k
    ensures x == y
  {}

  /** The curve goes through its points... */
  lemma {:induction false} CurveGoesThrough(c: seq<Point>, k: nat)
    requires c != [] && Rising(c) && k < |c|
    ensures OnCurve(c, c[k].v) == c[k].soc
  {
    if 0 < k < |c| - 1 {
      OnPiece(c, k, c[k].v);
      Ends(c[k], c[k + 1]);
    }
    hide Between;
  }

  /** ... and straight from one to the next. */
  lemma {:induction false} CurveIsStraight(c: seq<Point>, k: nat, v: real)
    requires c != [] && Rising(c) && k + 1 < |c| && c[k].v <= v <= c[k + 1].v
    ensures (OnCurve(c, v) - c[k].soc) * (c[k + 1].v - c[k].v) == (v - c[k].v) * (c[k + 1].soc - c[k].soc)
  {
    OnPiece(c, k, v);
    Straight(c[k], c[k + 1], v);
    hide Between, Rising, OnCurve;
  }

  lemma {:induction false} OnPiece(c: seq<Point>, k: nat, v: real)
    requires c != [] && Rising(c) && k + 1 < |c| && c[k].v <= v <= c[k + 1].v
    ensures OnCurve(c, v) == Between(c[k], c[k + 1], v)
  {
    Ends(c[k], c[k + 1]);
    if k > 0 {
      Ends(c[k - 1], c[k]);
    }
    hide Between;
    if v > c[0].v && v < c[|c| - 1].v {
      var m := Above(c, v, 0);
      assert m == k || m == k + 1;
    }
  }

  lemma {:induction false} Ends(a: Point, b: Point)
    requires a.v < b.v
    ensures Between(a, b, a.v) == a.soc && Between(a, b, b.v) == b.soc
  {
    assert (b.v - a.v) / (b.v - a.v) == 1.0;
    assert (a.v - a.v) / (b.v - a.v) == 0.0;
  }

  lemma {:induction false} Straight(a: Point, b: Point, v: real)
    requires a.v < b.v
    ensures (Between(a, b, v) - a.soc) * (b.v - a.v) == (v - a.v) * (b.soc - a.soc)
  {
    var span, rise := b.v - a.v, b.soc - a.soc;
    var t := (v - a.v) / span;
    assert t * span == v - a.v;
    assert t * rise * span == t * span * rise;
  }

  /** The points of the table. */
  lemma {:induction false} TableIs()
    ensures VoltageSoc(2.80) == 0.0 && VoltageSoc(3.00) == 5.0 && VoltageSoc(3.20) == 10.0
    ensures VoltageSoc(3.25) == 20.0 && VoltageSoc(3.28) == 30.0 && VoltageSoc(3.30) == 40.0
    ensures VoltageSoc(3.33) == 50.0 && VoltageSoc(3.35) == 60.0 && VoltageSoc(3.37) == 70.0
    ensures VoltageSoc(3.40) == 85.0 && VoltageSoc(3.45) == 95.0 && VoltageSoc(3.50) == 99.0
    ensures VoltageSoc(3.60) == 100.0
  {
    hide OnCurve, Rising;
    CurveRises();
    forall k | 0 <= k < 13 ensures OnCurve(CURVE, CURVE[k].v) == CURVE[k].soc {
      CurveGoesThrough(CURVE, k);
    }
    assert CURVE[0] == Point(2.80, 0.0) && CURVE[1] == Point(3.00, 5.0) && CURVE[2] == Point(3.20, 10.0);
    assert CURVE[3] == Point(3.25, 20.0) && CURVE[4] == Point(3.28, 30.0) && CURVE[5] == Point(3.30, 40.0);
    assert CURVE[6] == Point(3.33, 50.0) && CURVE[7] == Point(3.35, 60.0) && CURVE[8] == Point(3.37, 70.0);
    assert CURVE[9] == Point(3.40, 85.0) && CURVE[10] == Point(3.45, 95.0) && CURVE[11] == Point(3.50, 99.0);
    assert CURVE[12] == Point(3.60, 100.0);
  }
}
