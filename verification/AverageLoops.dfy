/** avg_node() with its loops, proved against module Average. */
module AverageLoops {
  import opened Bytes
  import opened Json
  import opened Average

  method FindFirst(nodes: seq<Json>) returns (first: Json)
    requires nodes != []
    ensures first == First(nodes)
  {
    hide First;
    first := nodes[0];
    var i := 0;
    ghost var at := 0;
    while i < |nodes| && first.Null?
      invariant i <= |nodes| && at == (if i == 0 then 0 else i - 1)
      invariant first == nodes[at] && forall k :: 0 <= k < at ==> nodes[k].Null?
    {
      at := i;
      first := nodes[i];
      i := i + 1;
    }
    FirstIs(nodes, at);
  }

  lemma {:induction false} FirstIs(nodes: seq<Json>, at: nat)
    requires at < |nodes| && (at < |nodes| - 1 ==> !nodes[at].Null?) && forall k :: 0 <= k < at ==> nodes[k].Null?
    ensures First(nodes) == nodes[at]
  {
    if at > 0 {
      FirstIs(nodes[1..], at - 1);
    }
  }

  method AverageNumbers(nodes: seq<Json>) returns (v: real)
    requires exists n :: n in nodes && n.Number?
    ensures Numbers(nodes) != [] && v == Round4(Mean(Numbers(nodes)))
  {
    var sum, cnt := 0.0, 0;
    for i := 0 to |nodes|
      invariant sum == Sum(Numbers(nodes[..i])) && cnt == |Numbers(nodes[..i])|
    {
      NumbersLonger(nodes[..i], nodes[i]);
      assert nodes[..i + 1] == nodes[..i] + [nodes[i]];
      if nodes[i].Number? {
        sum := sum + nodes[i].v;
        cnt := cnt + 1;
      }
    }
    assert nodes[..|nodes|] == nodes;
    SomeNumber(nodes);
    v := Round4(sum / cnt as real);
  }

  lemma {:induction false} NumbersLonger(nodes: seq<Json>, j: Json)
    ensures Numbers(nodes + [j]) == Numbers(nodes) + if j.Number? then [j.v] else []
    ensures Sum(Numbers(nodes + [j])) == Sum(Numbers(nodes)) + if j.Number? then j.v else 0.0
  {
    assert (nodes + [j])[..|nodes|] == nodes;
    if j.Number? {
      assert (Numbers(nodes) + [j.v])[..|Numbers(nodes)|] == Numbers(nodes);
    } else {
      assert Numbers(nodes) + [] == Numbers(nodes);
    }
  }

  method CollectBelow(nodes: seq<Json>, s: Step, it: Json) returns (sub: seq<Json>)
    ensures sub == Collect(nodes, s, it)
  {
    sub := [];
    for i := 0 to |nodes|
      invariant sub == Collect(nodes[..i], s, it)
    {
      assert nodes[..i + 1][..i] == nodes[..i];
      var c := Child(nodes[i], s);
      if c.Some? && (|sub| == 0 || SameType(c.value, it) || sub[0].Null?) { sub := sub + [c.value]; }
    }
    assert nodes[..|nodes|] == nodes;
  }

  /** The loop over the fields of the first reading. */
  method AverageFields(nodes: seq<Json>, first: Json) returns (out: seq<Field>)
    requires nodes != [] && first == First(nodes) && first.Obj?
    ensures Obj(out) == AverageOf(nodes)
    decreases Sizes(nodes), 0
  {
    hide Sizes, Collect, First;
    out := [];
    for k := 0 to |first.fields|
      invariant |out| == k && forall j :: 0 <= j < k ==> out[j] == AverageOf(nodes).fields[j]
    {
      var s := Key(first.fields[k].key);
      FieldFound(first, k);
      Below(nodes, s, first.fields[k].value);
      var sub := CollectBelow(nodes, s, first.fields[k].value);
      var a := AverageNode(sub);
      out := out + [Field(first.fields[k].key, a)];
    }
  }

  /** ... and over its items. */
  method AverageItems(nodes: seq<Json>, first: Json) returns (out: seq<Json>)
    requires nodes != [] && first == First(nodes) && first.Arr?
    ensures Arr(out) == AverageOf(nodes)
    decreases Sizes(nodes), 0
  {
    hide Sizes, Collect, First;
    out := [];
    for k := 0 to |first.items|
      invariant |out| == k && forall j :: 0 <= j < k ==> out[j] == AverageOf(nodes).items[j]
    {
      Below(nodes, Index(k), first.items[k]);
      var sub := CollectBelow(nodes, Index(k), first.items[k]);
      var a := AverageNode(sub);
      out := out + [a];
    }
  }

  /** avg_node(). */
  method AverageNode(nodes: seq<Json>) returns (r: Json)
    requires nodes != []
    ensures r == AverageOf(nodes)
    decreases Sizes(nodes), 1
  {
    hide Numbers, Mean, Round4, Sizes, Collect;
    var first := FindFirst(nodes);
    if first.Number? {
      var v := AverageNumbers(nodes);
      r := Number(v);
    } else if first.Obj? {
      var out := AverageFields(nodes, first);
      r := Obj(out);
    } else if first.Arr? {
      var out := AverageItems(nodes, first);
      r := Arr(out);
    } else {
      r := first;
    }
  }
}
