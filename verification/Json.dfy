/** JSON values, as the daemon's cJSON trees hold them: an object's fields are in
    order, and a lookup finds the first of its name. */
module Json {
  import opened Bytes

  datatype Json =
    | Null
    | Bool(b: bool)
    | Number(v: real)
    | Str(s: string)
    | Arr(items: seq<Json>)
    | Obj(fields: seq<Field>)

  datatype Field = Field(key: string, value: Json)

  /** The place of the first field of that name, or the length. */
  function FieldAt(fields: seq<Field>, key: string): (k: nat)
    ensures k <= |fields| && (k < |fields| ==> fields[k].key == key)
    ensures forall i :: 0 <= i < k ==> fields[i].key != key
  {
    if fields == [] || fields[0].key == key then 0 else 1 + FieldAt(fields[1..], key)
  }

  function Get(j: Json, key: string): Option<Json> {
    if !j.Obj? then None
    else
      var k := FieldAt(j.fields, key);
      if k == |j.fields| then None else Some(j.fields[k].value)
  }

  /** One step down a tree. */
  datatype Step = Key(key: string) | Index(i: nat)

  function Child(j: Json, s: Step): Option<Json> {
    match s
    case Key(key) => Get(j, key)
    case Index(i) => if j.Arr? && i < |j.items| then Some(j.items[i]) else None
  }

  function At(j: Json, path: seq<Step>): Option<Json>
    decreases |path|
  {
    if path == [] then Some(j)
    else
      var c := Child(j, path[0]);
      if c.None? then None else At(c.value, path[1..])
  }

  /** A value and everything in it, counted. */
  function Size(j: Json): (n: nat)
    ensures n > 0
  {
    match j
    case Arr(items) => 1 + Sizes(items)
    case Obj(fields) => 1 + FieldSizes(fields)
    case _ => 1
  }

  function Sizes(js: seq<Json>): nat {
    if js == [] then 0 else Size(js[0]) + Sizes(js[1..])
  }

  function FieldSizes(fields: seq<Field>): nat {
    if fields == [] then 0 else Size(fields[0].value) + FieldSizes(fields[1..])
  }

  lemma {:induction false} ItemSize(js: seq<Json>, i: nat)
    requires i < |js|
    ensures Size(js[i]) <= Sizes(js)
  {
    if i > 0 {
      ItemSize(js[1..], i - 1);
    }
  }

  lemma {:induction false} FieldSize(fields: seq<Field>, i: nat)
    requires i < |fields|
    ensures Size(fields[i].value) <= FieldSizes(fields)
  {
    if i > 0 {
      FieldSize(fields[1..], i - 1);
    }
  }

  lemma {:induction false} ChildIsSmaller(j: Json, s: Step)
    requires Child(j, s).Some?
    ensures Size(Child(j, s).value) < Size(j)
  {
    match s
    case Key(key) => FieldSize(j.fields, FieldAt(j.fields, key));
    case Index(i) => ItemSize(j.items, i);
  }

  lemma {:induction false} SizesLast(js: seq<Json>, j: Json)
    ensures Sizes(js + [j]) == Sizes(js) + Size(j)
  {
    if js == [] {
      assert js + [j] == [j] && [j][1..] == [];
    } else {
      assert (js + [j])[1..] == js[1..] + [j];
      SizesLast(js[1..], j);
    }
  }
}
