/** The totals as the program keeps them, updated field by field, and the search
    along the voltage curve; proved against module System. */
module SystemObject {
  import opened Bytes
  import opened System

  /** mf_display_soc(). */
  method ShowSoc(bms: real, rem: real, full: real, v: real, current: real, check: bool) returns (soc: real)
    ensures soc == DisplaySoc(bms, rem, full, v, current, check)
  {
    hide Between, OnCurve;
    soc := bms;
    if full > 0.0 && rem >= 0.0 { soc := rem / full * 100.0; }
    if check && v > 0.0 && current > -0.5 && current < 0.5 {
      CurveRises();
      var vsoc := SearchCurve(CURVE, v);
      if soc - vsoc > 20.0 || vsoc - soc > 20.0 { soc := vsoc; }
    }
    if soc < 0.0 { soc := 0.0; }
    if soc > 100.0 { soc := 100.0; }
  }

  method SearchCurve(c: seq<Point>, v: real) returns (vsoc: real)
    requires c != [] && Rising(c)
    ensures vsoc == OnCurve(c, v)
  {
    if v <= c[0].v { return c[0].soc; }
    if v >= c[|c| - 1].v { return c[|c| - 1].soc; }
    var i := 1;
    while v > c[i].v
      invariant 1 <= i < |c| && c[i - 1].v < v && Above(c, v, 0) == Above(c, v, i)
      decreases |c| - i
    {
      i := i + 1;
    }
    var span := c[i].v - c[i - 1].v;
    var t := (v - c[i - 1].v) / span;
    return c[i - 1].soc + t * (c[i].soc - c[i - 1].soc);
  }

  /** The running totals, a record whose fields each call updates. */
  class SiteTotals {
    var t: Totals

    constructor ()
      ensures t == NOTHING
    {
      t := NOTHING;
    }

    method AddCharger(active: bool, online: bool, w: real)
      modifies this
      ensures t == Add(old(t), Charger(active, online, w))
    {
      t := t.(chargers := t.chargers + 1);
      if !active || !online { return; }
      t := t.(chargersCounted := t.chargersCounted + 1);
      if w > 0.0 { t := t.(inputW := t.inputW + w); }
    }

    method AddBattery(active: bool, online: bool, packV: real, currentA: real, bmsSoc: real,
                      remAh: real, fullAh: real, cells: int, check: bool)
      modifies this
      ensures t == Add(old(t), Battery(active, online, packV, currentA, bmsSoc, remAh, fullAh, cells, check))
    {
      hide DisplaySoc;
      var cellV := if cells > 0 then packV / cells as real else 0.0;
      t := t.(batteries := t.batteries + 1);
      if !active || !online { return; }
      t := t.(batteriesCounted := t.batteriesCounted + 1);
      var soc := ShowSoc(bmsSoc, remAh, fullAh, cellV, currentA, check);
      if fullAh > 0.0 && packV > 0.0 {
        var fullWh := fullAh * packV;
        t := t.(capacityWh := t.capacityWh + fullWh, storedWh := t.storedWh + fullWh * soc / 100.0);
      } else {
        t := t.(socSum := t.socSum + soc, socN := t.socN + 1);
      }
      var power := packV * currentA;
      if power > 0.0 {
        t := t.(chargeW := t.chargeW + power);
      } else {
        t := t.(dischargeW := t.dischargeW - power);
      }
    }

    method AddBatteryLimit(active: bool, online: bool, w: real)
      modifies this
      ensures t == Add(old(t), Limit(active, online, w))
    {
      if !active || !online || w <= 0.0 { return; }
      t := t.(limitW := t.limitW + w, limitN := t.limitN + 1);
    }

    method AddInverter(active: bool, online: bool, rated: real, output: real, ac: real)
      modifies this
      ensures t == Add(old(t), Inverter(active, online, rated, output, ac))
    {
      t := t.(inverters := t.inverters + 1);
      if !active || !online { return; }
      t := t.(invertersCounted := t.invertersCounted + 1);
      if rated > 0.0 { t := t.(ratedW := t.ratedW + rated, ratedN := t.ratedN + 1); }
      if output >= 0.0 { t := t.(outputW := t.outputW + output, outputN := t.outputN + 1); }
      if ac >= 0.0 { t := t.(acW := t.acW + ac, acN := t.acN + 1); }
    }

    /** What the site shows: mf_system_finish(). */
    method Conclude() returns (s: Summary)
      ensures s == Finish(t)
    {
      var net := t.inputW + t.dischargeW - t.chargeW;
      if net < 0.0 { net := 0.0; }
      var known := t.invertersCounted > 0 && t.outputN == t.invertersCounted;
      var soc := -1.0;
      if t.capacityWh > 0.0 {
        soc := t.storedWh / t.capacityWh * 100.0;
      } else if t.socN > 0 {
        soc := t.socSum / t.socN as real;
      }
      s := Summary(net, known, if known then t.outputW else net, soc);
    }
  }
}
