/** One reading made of many (src/phantom/average.c): a tree whose numbers are
    the means of the numbers at their place. */
module Average {
  import opened Bytes
  import opened Json

  const MAX_READINGS := 32

  /** cJSON's type of a value; true and false are two types. */
  predicate SameType(a: Json, b: Json) {
    match a
    case Null => b.Null?
    case Bool(x) => b.Bool? && b.b == x
    case Number(_) => b.Number?
    case Str(_) => b.Str?
    case Arr(_) => b.Arr?
    case Obj(_) => b.Obj?
  }

  /** round(): to the nearest integer, halves away from zero. */
  function Round(x: real): int {
    if x >= 0.0 then (x + 0.5).Floor else -(-x + 0.5).Floor
  }

  function Round4(x: real): real {
    Round(x * 10000.0) as real / 10000.0
  }

  /** The first reading that is not null, or the last. */
  function First(nodes: seq<Json>): (f: Json)
    requires nodes != []
    ensures f in nodes && (f.Null? ==> forall n :: n in nodes ==> n.Null?)
  {
    if !nodes[0].Null? || |nodes| == 1 then nodes[0] else First(nodes[1..])
  }

  function Numbers(nodes: seq<Json>): seq<real> {
    if nodes == [] then []
    else Numbers(nodes[..|nodes| - 1]) + if nodes[|nodes| - 1].Number? then [nodes[|nodes| - 1].v] else []
  }

  function Sum(xs: seq<real>): real {
    if xs == [] then 0.0 else Sum(xs[..|xs| - 1]) + xs[|xs| - 1]
  }

  function Mean(xs: seq<real>): real
    requires xs != []
  {
    Sum(xs) / |xs| as real
  }

  /** The readings' values one step down: the first found, and those of its type
      or, behind a null, of any. */
  function Collect(nodes: seq<Json>, s: Step, it: Json): (sub: seq<Json>)
    ensures |sub| <= |nodes|
  {
    if nodes == [] then []
    else
      var sub, c := Collect(nodes[..|nodes| - 1], s, it), Child(nodes[|nodes| - 1], s);
      if c.Some? && (sub == [] || SameType(c.value, it) || sub[0].Null?) then sub + [c.value] else sub
  }

  // ----- The recursion is sound -----

  /** One more reading brings its value, or nothing. */
  lemma {:induction false} CollectLast(nodes: seq<Json>, last: Json, s: Step, it: Json)
    ensures var sub, all := Collect(nodes, s, it), Collect(nodes + [last], s, it);
      all == sub || (Child(last, s).Some? && all == sub + [Child(last, s).value])
  {
    hide Child, SameType;
    assert (nodes + [last])[..|nodes|] == nodes;
  }

  lemma {:induction false} CollectIsSmaller(nodes: seq<Json>, s: Step, it: Json)
    ensures Sizes(Collect(nodes, s, it)) <= Sizes(nodes)
    ensures nodes != [] ==> Sizes(Collect(nodes, s, it)) < Sizes(nodes)
  {
    hide Sizes, Size, Child, SameType, Collect;
    if nodes == [] {
      CollectEmpty(s, it);
    } else {
      var before, last := nodes[..|nodes| - 1], nodes[|nodes| - 1];
      CollectIsSmaller(before, s, it);
      assert nodes == before + [last];
      SizesLast(before, last);
      CollectLast(before, last, s, it);
      if Child(last, s).Some? {
        ChildIsSmaller(last, s);
        SizesLast(Collect(before, s, it), Child(last, s).value);
      }
    }
  }

  lemma {:induction false} CollectEmpty(s: Step, it: Json)
    ensures Collect([], s, it) == []
  {}

  /** Nulls have nothing below them. */
  lemma {:induction false} CollectNothing(nodes: seq<Json>, s: Step, it: Json)
    requires forall n :: n in nodes ==> Child(n, s).None?
    ensures Collect(nodes, s, it) == []
  {
    if nodes != [] {
      CollectNothing(nodes[..|nodes| - 1], s, it);
    }
  }

  /** What the first reading has is the first collected. */
  lemma {:induction false} CollectBegins(nodes: seq<Json>, s: Step, it: Json)
    requires nodes != [] && Child(First(nodes), s).Some?
    ensures var sub := Collect(nodes, s, it); sub != [] && sub[0] == Child(First(nodes), s).value
  {
    hide First, Child, SameType;
    var before, last := nodes[..|nodes| - 1], nodes[|nodes| - 1];
    assert nodes == before + [last];
    if before != [] && First(before).Null? {
      forall n | n in before ensures Child(n, s).None? {
        NullIsEmpty(n, s);
      }
      CollectNothing(before, s, it);
      FirstBehind(before, last);
    } else if before != [] {
      FirstKept(before, last);
      CollectBegins(before, s, it);
    } else {
      CollectNothing(before, s, it);
      FirstOne(last);
    }
  }

  lemma {:induction false} NullIsEmpty(j: Json, s: Step)
    requires j.Null?
    ensures Child(j, s).None?
  {}

  lemma {:induction false} FirstOne(j: Json)
    ensures First([j]) == j
  {}

  lemma {:induction false} FirstBehind(nodes: seq<Json>, last: Json)
    requires nodes != [] && First(nodes).Null?
    ensures First(nodes + [last]) == last
  {
    if |nodes| > 1 {
      FirstBehind(nodes[1..], last);
      assert (nodes + [last])[1..] == nodes[1..] + [last];
    }
  }

  lemma {:induction false} FirstKept(nodes: seq<Json>, last: Json)
    requires nodes != [] && !First(nodes).Null?
    ensures First(nodes + [last]) == First(nodes)
  {
    if nodes[0].Null? {
      FirstKept(nodes[1..], last);
      assert (nodes + [last])[1..] == nodes[1..] + [last];
    }
  }

  lemma {:induction false} FieldFound(j: Json, k: nat)
    requires j.Obj? && k < |j.fields|
    ensures Get(j, j.fields[k].key).Some?
  {}

  /** The readings for one field or item of the first: never none of them, and
      smaller. */
  lemma {:induction false} Below(nodes: seq<Json>, s: Step, it: Json)
    requires nodes != [] && Child(First(nodes), s).Some?
    ensures Collect(nodes, s, it) != [] && Sizes(Collect(nodes, s, it)) < Sizes(nodes)
  {
    CollectBegins(nodes, s, it);
    CollectIsSmaller(nodes, s, it);
  }

  lemma {:induction false} SomeNumber(nodes: seq<Json>)
    requires exists n :: n in nodes && n.Number?
    ensures Numbers(nodes) != []
  {
    if !nodes[|nodes| - 1].Number? {
      SomeNumber(nodes[..|nodes| - 1]);
    }
  }

  /** avg_node(). */
  function AverageOf(nodes: seq<Json>): (r: Json)
    requires nodes != []
    decreases Sizes(nodes)
  {
    var first := First(nodes);
    match first
    case Number(_) =>
      SomeNumber(nodes);
      Number(Round4(Mean(Numbers(nodes))))
    case Obj(fields) =>
      Obj(seq(|fields|, k requires 0 <= k < |fields| =>
        FieldFound(first, k);
        Below(nodes, Key(fields[k].key), fields[k].value);
        Field(fields[k].key, AverageOf(Collect(nodes, Key(fields[k].key), fields[k].value)))))
    case Arr(items) =>
      Arr(seq(|items|, k requires 0 <= k < |items| =>
        Below(nodes, Index(k), items[k]);
        AverageOf(Collect(nodes, Index(k), items[k]))))
    case _ => first
  }

  /** mf_phantom_average(). */
  function PhantomAverage(readings: seq<Json>): Option<Json> {
    if readings == [] then None
    else Some(AverageOf(readings[..Min(|readings|, MAX_READINGS)]))
  }

  // ----- Every number is the mean at its place -----

  /** The numbers the readings have at a path. */
  function NumbersAt(nodes: seq<Json>, path: seq<Step>): seq<real> {
    if nodes == [] then []
    else
      var v := At(nodes[|nodes| - 1], path);
      NumbersAt(nodes[..|nodes| - 1], path) + if v.Some? && v.value.Number? then [v.value.v] else []
  }

  lemma {:induction false} NumbersHere(nodes: seq<Json>)
    ensures NumbersAt(nodes, []) == Numbers(nodes)
  {
    if nodes != [] {
      NumbersHere(nodes[..|nodes| - 1]);
    }
  }

  predicate HasNumber(j: Json, path: seq<Step>) {
    At(j, path).Some? && At(j, path).value.Number?
  }

  /** A value of another type has no number where this one leads to one. */
  lemma {:induction false} OtherType(a: Json, b: Json, path: seq<Step>)
    requires !SameType(a, b) && !b.Null? && !b.Bool?
    requires if path == [] then b.Number? else Child(b, path[0]).Some?
    ensures !HasNumber(a, path)
  {}

  /** Leaving out values of other types leaves out no number. */
  lemma {:induction false} CollectNumbers(nodes: seq<Json>, s: Step, it: Json, path: seq<Step>)
    requires forall a: Json :: !SameType(a, it) ==> !HasNumber(a, path)
    ensures NumbersAt(Collect(nodes, s, it), path) == NumbersAt(nodes, [s] + path)
  {
    hide SameType, Child;
    if nodes != [] {
      var last := nodes[|nodes| - 1];
      CollectNumbers(nodes[..|nodes| - 1], s, it, path);
      AtStep(last, s, path);
      var sub, c := Collect(nodes[..|nodes| - 1], s, it), Child(last, s);
      if c.Some? {
        assert (sub + [c.value])[..|sub|] == sub;
      }
    }
  }

  lemma {:induction false} AtStep(j: Json, s: Step, path: seq<Step>)
    ensures At(j, [s] + path) == if Child(j, s).None? then None else At(Child(j, s).value, path)
  {
    assert ([s] + path)[1..] == path;
  }

  /** Behind a null every value is collected. */
  lemma {:induction false} CollectAll(nodes: seq<Json>, s: Step, it: Json, path: seq<Step>)
    requires Collect(nodes, s, it) == [] || Collect(nodes, s, it)[0].Null?
    ensures NumbersAt(Collect(nodes, s, it), path) == NumbersAt(nodes, [s] + path)
  {
    hide SameType, Child;
    if nodes != [] {
      var last := nodes[|nodes| - 1];
      CollectAll(nodes[..|nodes| - 1], s, it, path);
      AtStep(last, s, path);
      var sub, c := Collect(nodes[..|nodes| - 1], s, it), Child(last, s);
      if c.Some? {
        assert (sub + [c.value])[..|sub|] == sub;
      }
    }
  }

  /** One step down the average is the average one step down. */
  lemma {:induction false} ChildOfAverage(nodes: seq<Json>, s: Step) returns (it: Json)
    requires nodes != [] && Child(AverageOf(nodes), s).Some?
    ensures Child(First(nodes), s) == Some(it)
    ensures Collect(nodes, s, it) != [] && Collect(nodes, s, it)[0] == it
    ensures Child(AverageOf(nodes), s) == Some(AverageOf(Collect(nodes, s, it)))
  {
    var first, r := First(nodes), AverageOf(nodes);
    match s
    case Key(key) =>
      SameFields(first.fields, r.fields, key);
      it := first.fields[FieldAt(first.fields, key)].value;
      CollectBegins(nodes, s, it);
    case Index(i) =>
      it := first.items[i];
      CollectBegins(nodes, s, it);
  }

  lemma {:induction false} SameFields(a: seq<Field>, b: seq<Field>, key: string)
    requires |a| == |b| && forall i :: 0 <= i < |a| ==> a[i].key == b[i].key
    ensures FieldAt(a, key) == FieldAt(b, key)
  {
    if a != [] {
      SameFields(a[1..], b[1..], key);
    }
  }

  lemma {:induction false} NumberHere(nodes: seq<Json>)
    requires nodes != [] && AverageOf(nodes).Number?
    ensures Numbers(nodes) != [] && AverageOf(nodes).v == Round4(Mean(Numbers(nodes)))
  {
    hide Round4, Mean, Numbers;
    assert First(nodes).Number?;
    SomeNumber(nodes);
  }

  /** Going one step down loses none of the numbers further on. */
  lemma {:induction false} NumbersBelow(nodes: seq<Json>, s: Step, it: Json, path: seq<Step>)
    requires var sub := Collect(nodes, s, it); sub != [] && sub[0] == it && HasNumber(AverageOf(sub), path)
    ensures NumbersAt(Collect(nodes, s, it), path) == NumbersAt(nodes, [s] + path)
  {
    hide AverageOf, Collect, At, Child, NumbersAt, HasNumber, SameType;
    if it.Null? {
      CollectAll(nodes, s, it, path);
    } else {
      LeadsToNumber(Collect(nodes, s, it), it, path);
      forall a: Json | !SameType(a, it) ensures !HasNumber(a, path) {
        OtherType(a, it, path);
      }
      CollectNumbers(nodes, s, it, path);
    }
  }

  /** Every number in the result is the rounded mean of all the numbers the
      readings have at that place. */
  lemma {:induction false} NumbersAreMeans(nodes: seq<Json>, path: seq<Step>)
    requires nodes != [] && HasNumber(AverageOf(nodes), path)
    ensures NumbersAt(nodes, path) != []
    ensures At(AverageOf(nodes), path).value.v == Round4(Mean(NumbersAt(nodes, path)))
    decreases |path|
  {
    hide AverageOf, Collect, Mean, Round4, At, Child, NumbersAt, Numbers, First;
    if path == [] {
      NumbersHere(nodes);
      AtHere(AverageOf(nodes));
      NumberHere(nodes);
    } else {
      var s, rest := path[0], path[1..];
      assert path == [s] + rest;
      AtStep(AverageOf(nodes), s, rest);
      var it := ChildOfAverage(nodes, s);
      NumbersAreMeans(Collect(nodes, s, it), rest);
      NumbersBelow(nodes, s, it, rest);
    }
  }

  lemma {:induction false} AtHere(j: Json)
    ensures At(j, []) == Some(j)
  {}

  /** The first reading leads where the average has a number. */
  lemma {:induction false} LeadsToNumber(sub: seq<Json>, it: Json, path: seq<Step>)
    requires sub != [] && sub[0] == it && !it.Null? && HasNumber(AverageOf(sub), path)
    ensures !it.Bool? && if path == [] then it.Number? else Child(it, path[0]).Some?
  {
    assert First(sub) == it;
    if path != [] {
      var below := ChildOfAverage(sub, path[0]);
    }
  }

  // ----- The shape -----

  /** The same kind, with the same fields or as many items; what has no numbers
      in it is the same. */
  predicate SameShape(a: Json, b: Json) {
    match a
    case Number(_) => b.Number?
    case Arr(items) => b.Arr? && |b.items| == |items|
    case Obj(fields) =>
      b.Obj? && |b.fields| == |fields| && forall k :: 0 <= k < |fields| ==> b.fields[k].key == fields[k].key
    case _ => b == a
  }

  /** A null on the way down, where another reading's value takes over. */
  predicate NullOn(j: Json, path: seq<Step>)
    decreases |path|
  {
    j.Null? || (path != [] && Child(j, path[0]).Some? && NullOn(Child(j, path[0]).value, path[1..]))
  }

  lemma {:induction false} ShapeHere(nodes: seq<Json>)
    requires nodes != []
    ensures SameShape(First(nodes), AverageOf(nodes))
  {}

  lemma {:induction false} ShapeHasChild(a: Json, b: Json, s: Step)
    requires SameShape(a, b)
    ensures Child(a, s).Some? <==> Child(b, s).Some?
  {
    if s.Key? && a.Obj? {
      SameFields(a.fields, b.fields, s.key);
    }
  }

  /** The whole result has the shape of the first reading that is not null: at
      every path without a null in it, the one has something exactly if the
      other has, and of the same kind, length and fields. */
  lemma {:induction false} ShapeIsFirst(nodes: seq<Json>, path: seq<Step>)
    requires nodes != [] && !NullOn(First(nodes), path)
    ensures var a, b := At(First(nodes), path), At(AverageOf(nodes), path);
      (a.Some? <==> b.Some?) && (a.Some? ==> SameShape(a.value, b.value))
    decreases |path|
  {
    hide AverageOf, Collect, Child, First, SameShape;
    ShapeHere(nodes);
    if path != [] {
      ShapeHasChild(First(nodes), AverageOf(nodes), path[0]);
      if Child(AverageOf(nodes), path[0]).Some? {
        var it := ChildOfAverage(nodes, path[0]);
        var sub := Collect(nodes, path[0], it);
        FirstIsLeading(sub);
        ShapeIsFirst(sub, path[1..]);
      }
    }
  }

  lemma {:induction false} FirstIsLeading(nodes: seq<Json>)
    requires nodes != [] && !nodes[0].Null?
    ensures First(nodes) == nodes[0]
  {}

  // ----- Rounding -----

  lemma {:induction false} SumBounds(xs: seq<real>, lo: real, hi: real)
    requires forall i :: 0 <= i < |xs| ==> lo <= xs[i] <= hi
    ensures |xs| as real * lo <= Sum(xs) <= |xs| as real * hi
  {
    if xs != [] {
      SumBounds(xs[..|xs| - 1], lo, hi);
    }
  }

  lemma {:induction false} MeanBounds(xs: seq<real>, lo: real, hi: real)
    requires xs != [] && forall i :: 0 <= i < |xs| ==> lo <= xs[i] <= hi
    ensures lo <= Mean(xs) <= hi
  {
    SumBounds(xs, lo, hi);
    Quotient(Sum(xs), |xs| as real, lo, hi);
  }

  lemma {:induction false} Quotient(sum: real, n: real, lo: real, hi: real)
    requires n > 0.0 && n * lo <= sum <= n * hi
    ensures lo <= sum / n <= hi
  {
    assert sum / n * n == sum;
  }

  lemma {:induction false} RoundIsNear(x: real)
    ensures -0.5 <= Round(x) as real - x <= 0.5
  {}

  lemma {:induction false} Round4IsNear(x: real)
    ensures x - 0.00005 <= Round4(x) <= x + 0.00005
  {
    hide Round;
    RoundIsNear(x * 10000.0);
  }

  function TotalOf(xs: seq<real>): real {
    if xs == [] then 0.0 else xs[0] + TotalOf(xs[1..])
  }

  /** Of so many ten-thousandths, it is the nearest to the total over the count; of
      two as near the one farther from zero. */
  predicate IsRoundedMean(xs: seq<real>, r: real, k: int) {
    var n, off := |xs| as real, 10000.0 * TotalOf(xs) - k as real * |xs| as real;
    && r * 10000.0 == k as real && -n <= 2.0 * off <= n
    && (TotalOf(xs) >= 0.0 ==> 2.0 * off < n) && (TotalOf(xs) < 0.0 ==> 2.0 * off > -n)
  }

  lemma {:induction false} TotalSnoc(xs: seq<real>, x: real)
    ensures TotalOf(xs + [x]) == TotalOf(xs) + x
  {
    if xs == [] {
      assert xs + [x] == [x] && [x][1..] == [];
    } else {
      assert (xs + [x])[1..] == xs[1..] + [x];
      TotalSnoc(xs[1..], x);
    }
  }

  lemma {:induction false} SumIsTotal(xs: seq<real>)
    ensures Sum(xs) == TotalOf(xs)
  {
    if xs != [] {
      var init := xs[..|xs| - 1];
      SumIsTotal(init);
      assert xs == init + [xs[|xs| - 1]];
      TotalSnoc(init, xs[|xs| - 1]);
    }
  }

  lemma {:induction false} RoundExactly(x: real)
    ensures var off := x - Round(x) as real;
      -0.5 <= off <= 0.5 && (x >= 0.0 ==> off < 0.5) && (x < 0.0 ==> off > -0.5)
  {}

  lemma {:induction false} RoundedMeanIs(xs: seq<real>)
    requires xs != []
    ensures IsRoundedMean(xs, Round4(Mean(xs)), Round(Mean(xs) * 10000.0))
  {
    hide Round, Sum, TotalOf;
    var m, n := Mean(xs), |xs| as real;
    SumIsTotal(xs);
    MeanTimes(xs);
    var k := Round(m * 10000.0);
    RoundExactly(m * 10000.0);
    SignOfMean(m, n);
    RoundedTo(m, n, TotalOf(xs), k as real, m * 10000.0 - k as real);
    FourDecimals(k as real);
  }

  lemma {:induction false} RoundedTo(m: real, n: real, total: real, k: real, off: real)
    requires n > 0.0 && m * n == total && off == m * 10000.0 - k && -0.5 <= off <= 0.5
    ensures -n <= 2.0 * (10000.0 * total - k * n) <= n
    ensures off < 0.5 ==> 2.0 * (10000.0 * total - k * n) < n
    ensures off > -0.5 ==> 2.0 * (10000.0 * total - k * n) > -n
  {
    Scaled(m, n, total, k, off);
    Widen(off, n);
  }

  lemma {:induction false} MeanTimes(xs: seq<real>)
    requires xs != []
    ensures Mean(xs) * |xs| as real == Sum(xs)
  {}

  lemma {:induction false} FourDecimals(k: real)
    ensures k / 10000.0 * 10000.0 == k
  {}

  lemma {:induction false} Scaled(m: real, n: real, total: real, k: real, off: real)
    requires m * n == total && off == m * 10000.0 - k
    ensures off * n == 10000.0 * total - k * n
  {
    assert off * n == m * 10000.0 * n - k * n;
    assert m * 10000.0 * n == m * n * 10000.0;
  }

  lemma {:induction false} SignOfMean(m: real, n: real)
    requires n > 0.0
    ensures m * n >= 0.0 <==> m >= 0.0
  {}

  lemma {:induction false} Widen(off: real, n: real)
    requires n > 0.0 && -0.5 <= off <= 0.5
    ensures -n <= 2.0 * (off * n) <= n && (off < 0.5 ==> 2.0 * (off * n) < n) && (off > -0.5 ==> 2.0 * (off * n) > -n)
  {}

  /** So every number in the result of up to 32 readings is the mean of all the
      numbers they have at that place, to four decimals. */
  lemma {:induction false} NumbersAreRounded(readings: seq<Json>, path: seq<Step>)
    requires 0 < |readings| <= 32
    ensures PhantomAverage(readings).Some?
    ensures var r := PhantomAverage(readings).value;
      HasNumber(r, path) ==>
        NumbersAt(readings, path) != [] && exists k :: IsRoundedMean(NumbersAt(readings, path), At(r, path).value.v, k)
  {
    hide AverageOf, Mean, Round4, At, NumbersAt, IsRoundedMean;
    assert readings[..|readings|] == readings;
    var r := AverageOf(readings);
    if HasNumber(r, path) {
      NumbersAreMeans(readings, path);
      RoundedMeanIs(NumbersAt(readings, path));
    }
  }

  /** Readings from the 33rd on are left out, and without any there is no result. */
  lemma {:induction false} OnlyTheFirst(readings: seq<Json>)
    ensures PhantomAverage(readings).None? <==> readings == []
    ensures |readings| > 32 ==> PhantomAverage(readings) == PhantomAverage(readings[..32])
  {
    if |readings| > 32 {
      assert readings[..32][..32] == readings[..32];
    }
  }

  /** ... so it is within half of the last digit kept of their range. */
  lemma {:induction false} MeansAreInRange(nodes: seq<Json>, path: seq<Step>, lo: real, hi: real)
    requires nodes != [] && HasNumber(AverageOf(nodes), path)
    requires forall i :: 0 <= i < |NumbersAt(nodes, path)| ==> lo <= NumbersAt(nodes, path)[i] <= hi
    ensures lo - 0.00005 <= At(AverageOf(nodes), path).value.v <= hi + 0.00005
  {
    hide AverageOf, Mean, Round4, At, NumbersAt;
    NumbersAreMeans(nodes, path);
    MeanBounds(NumbersAt(nodes, path), lo, hi);
    Round4IsNear(Mean(NumbersAt(nodes, path)));
  }

  // ----- Copies -----

  /** The value with its numbers rounded; a field whose name came before has the
      value of the first of that name. */
  function Rounded(j: Json): Json {
    match j
    case Number(v) => Number(Round4(v))
    case Arr(items) => Arr(seq(|items|, k requires 0 <= k < |items| => Rounded(items[k])))
    case Obj(fields) =>
      Obj(seq(|fields|, k requires 0 <= k < |fields| =>
        Field(fields[k].key, Rounded(fields[FieldAt(fields, fields[k].key)].value))))
    case _ => j
  }

  function Copies(j: Json, n: nat): (c: seq<Json>)
    ensures |c| == n && forall i :: 0 <= i < n ==> c[i] == j
  {
    seq(n, _ => j)
  }

  /** Copies of the child; only one, if a later field of its name asks for
      another type. */
  lemma {:induction false} CollectCopies(j: Json, n: nat, s: Step, it: Json) returns (m: nat)
    requires Child(j, s).Some? && n > 0
    ensures 0 < m <= n && Collect(Copies(j, n), s, it) == Copies(Child(j, s).value, m)
  {
    hide Child, SameType;
    var c := Child(j, s).value;
    assert Copies(j, n)[..n - 1] == Copies(j, n - 1);
    if n == 1 {
      m := 1;
      CollectNothing([], s, it);
    } else {
      m := CollectCopies(j, n - 1, s, it);
      assert Copies(c, m)[0] == c && Copies(c, m) + [c] == Copies(c, m + 1);
      if SameType(c, it) || c.Null? {
        m := m + 1;
      }
    }
  }

  lemma {:induction false} OneMore(n: nat, v: real)
    requires n > 0
    ensures (n - 1) as real * v + v == n as real * v
  {}

  lemma {:induction false} NumbersSnoc(nodes: seq<Json>, v: real)
    ensures Numbers(nodes + [Number(v)]) == Numbers(nodes) + [v]
    ensures Sum(Numbers(nodes) + [v]) == Sum(Numbers(nodes)) + v
  {
    assert (nodes + [Number(v)])[..|nodes|] == nodes;
    assert (Numbers(nodes) + [v])[..|Numbers(nodes)|] == Numbers(nodes);
  }

  lemma {:induction false} NumbersOfNothing()
    ensures Numbers([]) == [] && Sum([]) == 0.0
  {}

  lemma {:induction false} NumbersOfCopies(v: real, n: nat)
    ensures |Numbers(Copies(Number(v), n))| == n && Sum(Numbers(Copies(Number(v), n))) == n as real * v
  {
    hide Numbers, Sum;
    if n > 0 {
      assert Copies(Number(v), n) == Copies(Number(v), n - 1) + [Number(v)];
      NumbersOfCopies(v, n - 1);
      NumbersSnoc(Copies(Number(v), n - 1), v);
      OneMore(n, v);
    } else {
      NumbersOfNothing();
    }
  }

  lemma {:induction false} FirstCopy(j: Json, n: nat)
    requires n > 0
    ensures First(Copies(j, n)) == j
  {
    assert Copies(j, n)[0] == j;
    if j.Null? && n > 1 {
      assert Copies(j, n)[1..] == Copies(j, n - 1);
      FirstCopy(j, n - 1);
    }
  }

  /** Copies of one reading average to it, rounded. */
  lemma {:induction false} CopiesAverage(j: Json, n: nat)
    requires n > 0
    ensures AverageOf(Copies(j, n)) == Rounded(j)
    decreases j
  {
    hide AverageOf, Rounded, First, Collect, Copies;
    FirstCopy(j, n);
    match j
    case Number(v) =>
      NumberCopies(v, n);
    case Arr(items) =>
      forall k | 0 <= k < |items|
        ensures var sub := Collect(Copies(j, n), Index(k), items[k]);
          sub != [] && AverageOf(sub) == Rounded(items[k])
      {
        var m := CollectCopies(j, n, Index(k), items[k]);
        CopiesAverage(items[k], m);
      }
      ItemCopies(items, n);
    case Obj(fields) =>
      forall k | 0 <= k < |fields|
        ensures var sub := Collect(Copies(j, n), Key(fields[k].key), fields[k].value);
          sub != [] && AverageOf(sub) == Rounded(fields[FieldAt(fields, fields[k].key)].value)
      {
        var m := CollectCopies(j, n, Key(fields[k].key), fields[k].value);
        CopiesAverage(fields[FieldAt(fields, fields[k].key)].value, m);
      }
      FieldCopies(fields, n);
    case _ =>
      OtherCopies(j, n);
  }

  lemma {:induction false} NumberCopies(v: real, n: nat)
    requires n > 0 && First(Copies(Number(v), n)) == Number(v)
    ensures AverageOf(Copies(Number(v), n)) == Rounded(Number(v))
  {
    NumbersOfCopies(v, n);
    Quotient(n as real * v, n as real, v, v);
    hide Round4, Numbers, Sum;
  }

  lemma {:induction false} ItemCopies(items: seq<Json>, n: nat)
    requires n > 0 && First(Copies(Arr(items), n)) == Arr(items)
    requires forall k :: 0 <= k < |items| ==>
      var sub := Collect(Copies(Arr(items), n), Index(k), items[k]);
      sub != [] && AverageOf(sub) == Rounded(items[k])
    ensures AverageOf(Copies(Arr(items), n)) == Rounded(Arr(items))
  {
    hide First, Collect;
  }

  lemma {:induction false} FieldCopies(fields: seq<Field>, n: nat)
    requires n > 0 && First(Copies(Obj(fields), n)) == Obj(fields)
    requires forall k :: 0 <= k < |fields| ==>
      var sub := Collect(Copies(Obj(fields), n), Key(fields[k].key), fields[k].value);
      sub != [] && AverageOf(sub) == Rounded(fields[FieldAt(fields, fields[k].key)].value)
    ensures AverageOf(Copies(Obj(fields), n)) == Rounded(Obj(fields))
  {
    hide First, Collect;
  }

  lemma {:induction false} OtherCopies(j: Json, n: nat)
    requires n > 0 && First(Copies(j, n)) == j && !j.Number? && !j.Arr? && !j.Obj?
    ensures AverageOf(Copies(j, n)) == Rounded(j)
  {}
}
