/** Secret plugin fields (src/rest/secret.c): masked for clients, and restored
    when a mask comes back.  JSON objects are maps. */
module Secret {
  import opened Bytes

  const MASK: string := "********"
  const MASK_BUFFER := 32
  const NAMESPACE_BUFFER := 32

  datatype Tree = Null | Text(s: string) | Other(n: int) | Block(m: map<string, Tree>)

  type Doc = map<string, Tree>

  /** One of describe()'s "fields". */
  datatype Field = Field(key: Option<string>, kind: string, readonly: bool)

  // ----- Masks -----

  predicate IsMask(s: string) {
    |s| >= |MASK| && s[..|MASK|] == MASK
  }

  function Cut(s: string, cap: nat): string
    requires cap > 0
  {
    if |s| < cap then s else s[..cap - 1]
  }

  /** mf_secret_mask(), in a buffer of so many bytes. */
  function Mask(value: string, cap: nat): string
    requires cap > 0
  {
    if value == "" then ""
    else if IsMask(value) then Cut(value, cap)
    else if |value| >= 12 then Cut(MASK + value[|value| - 4..], cap)
    else Cut(MASK, cap)
  }

  function MaskItem(t: Tree): Tree {
    if t.Text? then Text(Mask(t.s, MASK_BUFFER)) else t
  }

  // ----- Fields -----

  /** The first field of that key. */
  function FindField(fields: seq<Field>, key: string): Option<Field> {
    if fields == [] then None
    else if fields[0].key == Some(key) then Some(fields[0])
    else FindField(fields[1..], key)
  }

  predicate IsSecret(fields: seq<Field>, key: string) {
    var f := FindField(fields, key);
    f.Some? && f.value.kind == "secret"
  }

  predicate NotSetting(fields: seq<Field>, key: string) {
    var f := FindField(fields, key);
    f.Some? && (f.value.kind == "action" || f.value.readonly)
  }

  function FindDot(s: string): (k: nat)
    ensures k <= |s| && (k < |s| ==> s[k] == '.') && forall i :: 0 <= i < k ==> s[i] != '.'
  {
    if s == "" || s[0] == '.' then 0 else 1 + FindDot(s[1..])
  }

  /** "ns.leaf" as its two parts, if it is that. */
  function Split(key: string): Option<(string, string)> {
    var k := FindDot(key);
    if k == 0 || k + 1 >= |key| || k >= NAMESPACE_BUFFER then None else Some((key[..k], key[k + 1..]))
  }

  /** The place of a secret in a module, if the field is one. */
  function Place(f: Field): Option<(string, string)> {
    if f.kind != "secret" || f.key.None? then None else Split(f.key.value)
  }

  predicate IsPlace(fields: seq<Field>, ns: string, leaf: string) {
    exists i :: 0 <= i < |fields| && Place(fields[i]) == Some((ns, leaf))
  }

  // ----- Documents -----

  function Look(d: Doc, ns: string, leaf: string): Option<Tree> {
    if ns in d && d[ns].Block? && leaf in d[ns].m then Some(d[ns].m[leaf]) else None
  }

  function Put(d: Doc, ns: string, leaf: string, t: Tree): Doc {
    if ns in d && d[ns].Block? then d[ns := Block(d[ns].m[leaf := t])] else d[ns := Block(map[leaf := t])]
  }

  /** One field of mf_secret_mask_module(). */
  function MaskOne(d: Doc, f: Field): Doc {
    var p := Place(f);
    if p.None? || Look(d, p.value.0, p.value.1).None? then d
    else Put(d, p.value.0, p.value.1, MaskItem(Look(d, p.value.0, p.value.1).value))
  }

  function MaskModule(d: Doc, fields: seq<Field>): Doc {
    if fields == [] then d else MaskOne(MaskModule(d, fields[..|fields| - 1]), fields[|fields| - 1])
  }

  /** A value that stands for the live one. */
  predicate Unchanged(t: Option<Tree>) {
    t.None? || t.value.Null? || (t.value.Text? && IsMask(t.value.s))
  }

  /** One field of mf_secret_restore_extra(). */
  function RestoreOne(next: Doc, live: Doc, f: Field): Doc {
    var p := Place(f);
    if p.None? then next
    else
      var (ns, leaf) := p.value;
      var lv := Look(live, ns, leaf);
      if lv.None? || !lv.value.Text? || lv.value.s == "" then next
      else
        var nb := if ns in next then next else next[ns := Block(map[])];
        if !nb[ns].Block? || !Unchanged(Look(nb, ns, leaf)) then nb else Put(nb, ns, leaf, lv.value)
  }

  function Restore(next: Doc, live: Doc, fields: seq<Field>): Doc {
    if fields == [] then next
    else RestoreOne(Restore(next, live, fields[..|fields| - 1]), live, fields[|fields| - 1])
  }

  /** Flat settings for a client: mf_secret_mask_settings(). */
  function MaskSettings(settings: Doc, fields: seq<Field>): Doc {
    map k | k in settings :: if IsSecret(fields, k) then MaskItem(settings[k]) else settings[k]
  }

  predicate Dropped(fields: seq<Field>, key: string, t: Tree) {
    NotSetting(fields, key) || (IsSecret(fields, key) && t.Text? && IsMask(t.s))
  }

  /** Flat settings from a client: mf_secret_clean_body(). */
  function CleanBody(body: Doc, fields: seq<Field>): Doc {
    map k | k in body && !Dropped(fields, k, body[k]) :: body[k]
  }

  // ----- Masks hide -----

  /** Whatever the buffer, a mask is its own mask. */
  lemma {:induction false} MaskTwice(value: string, cap: nat)
    requires cap > 0
    ensures Mask(Mask(value, cap), cap) == Mask(value, cap)
  {
    var m := Mask(value, cap);
    if cap <= |MASK| && m != "" {
      assert !IsMask(m) && m == MASK[..cap - 1];
    } else if value != "" && m != "" {
      assert m[..|MASK|] == MASK;
    }
  }

  /** What a client sees of a secret behind the eight asterisks: nothing of a short
      one and the last four of a long one, but a secret that itself begins with
      them is taken for its own mask and seen as far as the buffer goes. */
  function Seen(v: string): string {
    if "********" <= v then (if |v| <= 31 then v[8..] else v[8..31])
    else if |v| < 12 then ""
    else v[|v| - 4..]
  }

  /** In its buffer every masked value is recognised, and two secrets have one
      mask exactly if a client may see the same of both. */
  lemma {:induction false} MaskHides(v: string, w: string)
    requires v != "" && w != ""
    ensures IsMask(Mask(v, MASK_BUFFER))
    ensures Mask(v, MASK_BUFFER) == Mask(w, MASK_BUFFER) <==> Seen(v) == Seen(w)
  {
    MaskShows(v);
    MaskShows(w);
    assert (MASK + Seen(v))[|MASK|..] == Seen(v) && (MASK + Seen(w))[|MASK|..] == Seen(w);
  }

  lemma {:induction false} MaskShows(v: string)
    requires v != ""
    ensures Mask(v, MASK_BUFFER) == "********" + Seen(v)
  {
    MaskBegins(v);
  }

  lemma {:induction false} MaskBegins(v: string)
    ensures IsMask(v) <==> "********" <= v
  {
    assert MASK == "********";
  }

  /** "Clients never read it back" fails for exactly these secrets. */
  lemma {:induction false} ReadBackExactlyWhen(v: string)
    requires v != ""
    ensures Mask(v, MASK_BUFFER) == v <==> "********" <= v && |v| <= 31
  {
    MaskShows(v);
    assert (MASK + Seen(v))[..|MASK|] == MASK;
  }

  lemma {:induction false} MaskIsMask(v: string)
    requires v != ""
    ensures IsMask(Mask(v, MASK_BUFFER))
  {}

  // ----- Masking a module touches its secrets only -----

  lemma {:induction false} MaskedPlace(d: Doc, fields: seq<Field>, ns: string, leaf: string)
    ensures var was, r := Look(d, ns, leaf), Look(MaskModule(d, fields), ns, leaf);
      r == if was.Some? && IsPlace(fields, ns, leaf) then Some(MaskItem(was.value)) else was
  {
    if fields != [] {
      var before, f := fields[..|fields| - 1], fields[|fields| - 1];
      MaskedPlace(d, before, ns, leaf);
      PlaceLast(fields, ns, leaf);
      var m, was, p := MaskModule(d, before), Look(d, ns, leaf), Place(f);
      if p == Some((ns, leaf)) && was.Some? && was.value.Text? {
        MaskTwice(was.value.s, MASK_BUFFER);
      }
    }
  }

  lemma {:induction false} PlaceLast(fields: seq<Field>, ns: string, leaf: string)
    requires fields != []
    ensures IsPlace(fields, ns, leaf)
       <==> IsPlace(fields[..|fields| - 1], ns, leaf) || Place(fields[|fields| - 1]) == Some((ns, leaf))
  {
    var before := fields[..|fields| - 1];
    if IsPlace(fields, ns, leaf) {
      var i :| 0 <= i < |fields| && Place(fields[i]) == Some((ns, leaf));
      if i < |before| {
        assert before[i] == fields[i];
      }
    }
    if IsPlace(before, ns, leaf) {
      var i :| 0 <= i < |before| && Place(before[i]) == Some((ns, leaf));
      assert fields[i] == before[i];
    }
  }

  /** The same blocks, with the same leaves in them. */
  ghost predicate SameFrame(a: Doc, b: Doc) {
    && a.Keys == b.Keys
    && (forall n :: n in a && !a[n].Block? ==> b[n] == a[n])
    && (forall n :: n in a && a[n].Block? ==> b[n].Block? && a[n].m.Keys == b[n].m.Keys)
  }

  lemma {:induction false} MaskModuleFrame(d: Doc, fields: seq<Field>)
    ensures SameFrame(d, MaskModule(d, fields))
  {
    if fields != [] {
      MaskModuleFrame(d, fields[..|fields| - 1]);
    }
  }

  /** Documents are equal when they look alike everywhere. */
  lemma {:induction false} SameDocs(a: Doc, b: Doc)
    requires SameFrame(a, b) && forall n, l :: Look(a, n, l) == Look(b, n, l)
    ensures a == b
  {
    forall n | n in a ensures a[n] == b[n] {
      if a[n].Block? {
        forall l | l in a[n].m ensures a[n].m[l] == b[n].m[l] {
          assert Look(a, n, l) == Look(b, n, l);
        }
        assert a[n].m == b[n].m;
      }
    }
  }

  // ----- Restoring -----

  /** The live value stands in for what the client sent. */
  predicate Stands(next: Doc, live: Doc, ns: string, leaf: string) {
    var lv := Look(live, ns, leaf);
    && lv.Some? && lv.value.Text? && lv.value.s != ""
    && (ns in next ==> next[ns].Block?) && Unchanged(Look(next, ns, leaf))
  }

  lemma {:induction false} RestoreOneAt(next: Doc, live: Doc, f: Field, ns: string, leaf: string)
    ensures Look(RestoreOne(next, live, f), ns, leaf) ==
      if Place(f) == Some((ns, leaf))
        && Stands(next, live, ns, leaf) then Look(live, ns, leaf) else Look(next, ns, leaf)
    ensures var r := RestoreOne(next, live, f);
      && (ns in next ==> ns in r && r[ns].Block? == next[ns].Block?)
      && (ns in r && ns !in next ==> r[ns].Block?)
  {}

  /** A secret gets its live value exactly if the client sent nothing new for
      it; a new value, and everything that is no secret, is kept. */
  lemma {:induction false} RestoredPlace(next: Doc, live: Doc, fields: seq<Field>, ns: string, leaf: string)
    ensures Look(Restore(next, live, fields), ns, leaf) ==
      if IsPlace(fields, ns, leaf) && Stands(next, live, ns, leaf) then Look(live, ns, leaf) else Look(next, ns, leaf)
    ensures var r := Restore(next, live, fields);
      && (ns in next ==> ns in r && r[ns].Block? == next[ns].Block?)
      && (ns in r && ns !in next ==> r[ns].Block?)
  {
    if fields != [] {
      var before, f := fields[..|fields| - 1], fields[|fields| - 1];
      RestoredPlace(next, live, before, ns, leaf);
      PlaceLast(fields, ns, leaf);
      RestoreOneAt(Restore(next, live, before), live, f, ns, leaf);
    }
  }

  lemma {:induction false} RestoreFrame(next: Doc, live: Doc, fields: seq<Field>)
    requires SameFrame(live, next)
    ensures SameFrame(live, Restore(next, live, fields))
  {
    if fields != [] {
      RestoreFrame(next, live, fields[..|fields| - 1]);
    }
  }

  // ----- Which leaves are secret -----

  /** A field of type secret has the dotted key of this block and leaf, and the block's
      name fits. */
  predicate SecretAt(fields: seq<Field>, ns: string, leaf: string) {
    && ns != "" && |ns| < 32 && '.' !in ns && leaf != ""
    && exists i :: 0 <= i < |fields| && fields[i].kind == "secret" && fields[i].key == Some(ns + "." + leaf)
  }

  lemma {:induction false} DotAt(key: string, k: nat)
    requires k < |key| && key[k] == '.' && forall i :: 0 <= i < k ==> key[i] != '.'
    ensures FindDot(key) == k
  {}

  lemma {:induction false} SplitExactlyWhen(key: string, ns: string, leaf: string)
    ensures Split(key) == Some((ns, leaf)) <==>
      ns != "" && |ns| < 32 && '.' !in ns && leaf != "" && key == ns + "." + leaf
  {
    var k := FindDot(key);
    if Split(key) == Some((ns, leaf)) {
      assert key == key[..k] + "." + key[k + 1..];
    } else if ns != "" && |ns| < 32 && '.' !in ns && leaf != "" && key == ns + "." + leaf {
      assert key[..|ns|] == ns && key[|ns| + 1..] == leaf;
      DotAt(key, |ns|);
    }
  }

  lemma {:induction false} PlaceExactlyWhen(fields: seq<Field>, ns: string, leaf: string)
    ensures IsPlace(fields, ns, leaf) <==> SecretAt(fields, ns, leaf)
  {
    hide Split;
    forall i | 0 <= i < |fields| && fields[i].key.Some? {
      SplitExactlyWhen(fields[i].key.value, ns, leaf);
    }
  }

  /** Masking a module masks the leaves that a secret field's dotted key names, and
      leaves everything else as it was. */
  lemma {:induction false} MaskModuleAt(d: Doc, fields: seq<Field>, ns: string, leaf: string)
    ensures var r := MaskModule(d, fields);
      && r.Keys == d.Keys
      && (ns in d && !d[ns].Block? ==> r[ns] == d[ns])
      && (ns in d && d[ns].Block? ==> r[ns].Block? && r[ns].m.Keys == d[ns].m.Keys)
      && (ns in d && d[ns].Block? && leaf in d[ns].m ==>
            r[ns].m[leaf] == if SecretAt(fields, ns, leaf) then MaskItem(d[ns].m[leaf]) else d[ns].m[leaf])
  {
    hide MaskModule, IsPlace, SecretAt, MaskItem;
    MaskModuleFrame(d, fields);
    MaskedPlace(d, fields, ns, leaf);
    PlaceExactlyWhen(fields, ns, leaf);
  }

  /** The client sent nothing, a null, or something that begins like a mask. */
  predicate NothingNew(next: Doc, ns: string, leaf: string) {
    ns in next ==> next[ns].Block? && (leaf in next[ns].m ==> LikeMask(next[ns].m[leaf]))
  }

  predicate LikeMask(t: Tree) {
    t == Null || (t.Text? && "********" <= t.s)
  }

  /** Restoring gives a secret its live value exactly if it has one and the client sent
      nothing new for it; a new value, and every leaf that is no secret, is kept. */
  lemma {:induction false} RestoreAt(next: Doc, live: Doc, fields: seq<Field>, ns: string, leaf: string)
    ensures var r := Restore(next, live, fields);
      if SecretAt(fields, ns, leaf) && ns in live && live[ns].Block? && leaf in live[ns].m
         && live[ns].m[leaf].Text? && live[ns].m[leaf].s != "" && NothingNew(next, ns, leaf)
      then ns in r && r[ns].Block? && leaf in r[ns].m && r[ns].m[leaf] == live[ns].m[leaf]
      else if ns in next && next[ns].Block? && leaf in next[ns].m
      then ns in r && r[ns].Block? && leaf in r[ns].m && r[ns].m[leaf] == next[ns].m[leaf]
      else !(ns in r && r[ns].Block? && leaf in r[ns].m)
  {
    hide Restore, IsPlace, SecretAt;
    RestoredPlace(next, live, fields, ns, leaf);
    PlaceExactlyWhen(fields, ns, leaf);
    StandsExactlyWhen(next, live, ns, leaf);
  }

  lemma {:induction false} StandsExactlyWhen(next: Doc, live: Doc, ns: string, leaf: string)
    ensures Stands(next, live, ns, leaf) <==>
      && ns in live && live[ns].Block? && leaf in live[ns].m
      && live[ns].m[leaf].Text? && live[ns].m[leaf].s != "" && NothingNew(next, ns, leaf)
  {
    hide IsMask;
    if ns in next && next[ns].Block? && leaf in next[ns].m && next[ns].m[leaf].Text? {
      MaskBegins(next[ns].m[leaf].s);
    }
  }

  /** A client that sends back the config it was shown changes nothing. */
  lemma {:induction false} MaskThenRestore(live: Doc, fields: seq<Field>)
    ensures Restore(MaskModule(live, fields), live, fields) == live
  {
    var next := MaskModule(live, fields);
    MaskModuleFrame(live, fields);
    RestoreFrame(next, live, fields);
    var r := Restore(next, live, fields);
    forall n, l ensures Look(live, n, l) == Look(r, n, l) {
      MaskedPlace(live, fields, n, l);
      RestoredPlace(next, live, fields, n, l);
      var lv := Look(live, n, l);
      if lv.Some? && lv.value.Text? && lv.value.s != "" {
        MaskIsMask(lv.value.s);
      }
    }
    SameDocs(live, r);
  }

  /** Nor does one that sends back the settings it was shown: what is left of
      them is what they were. */
  lemma {:induction false} EchoChangesNothing(settings: Doc, fields: seq<Field>)
    ensures var r := CleanBody(MaskSettings(settings, fields), fields);
      forall k :: k in r ==> k in settings && r[k] == settings[k]
  {
    var r := CleanBody(MaskSettings(settings, fields), fields);
    forall k | k in r ensures r[k] == settings[k] {
      if IsSecret(fields, k) && settings[k].Text? && settings[k].s != "" {
        MaskIsMask(settings[k].s);
      }
    }
  }

  // ----- Flat settings -----

  /** The field that says what a key is: the first of that key. */
  predicate IsField(fields: seq<Field>, key: string, i: nat) {
    i < |fields| && fields[i].key == Some(key) && forall j :: 0 <= j < i ==> fields[j].key != Some(key)
  }

  lemma {:induction false} FieldExactlyWhen(fields: seq<Field>, key: string)
    ensures FindField(fields, key).Some? <==> exists i: nat :: IsField(fields, key, i)
    ensures forall i: nat :: IsField(fields, key, i) ==> FindField(fields, key) == Some(fields[i])
  {
    if fields != [] && fields[0].key != Some(key) {
      FieldExactlyWhen(fields[1..], key);
      forall i: nat | IsField(fields, key, i) ensures FindField(fields, key) == Some(fields[i]) {
        assert IsField(fields[1..], key, i - 1);
      }
      if FindField(fields[1..], key).Some? {
        var i: nat :| IsField(fields[1..], key, i);
        assert IsField(fields, key, i + 1);
      }
    } else if fields != [] {
      assert IsField(fields, key, 0);
    }
  }

  /** What a client sends for this key is kept: it is no action and not read-only, and
      if it is a secret it does not begin like a mask. */
  predicate Kept(fields: seq<Field>, key: string, t: Tree) {
    forall i :: 0 <= i < |fields| && IsField(fields, key, i) ==>
      && fields[i].kind != "action" && !fields[i].readonly
      && (fields[i].kind == "secret" && t.Text? ==> !("********" <= t.s))
  }

  /** Cleaning keeps exactly those, as they came. */
  lemma {:induction false} CleanBodyKeeps(body: Doc, fields: seq<Field>, key: string)
    ensures key in CleanBody(body, fields) <==> key in body && Kept(fields, key, body[key])
    ensures key in CleanBody(body, fields) ==> CleanBody(body, fields)[key] == body[key]
  {
    hide IsMask, FindField;
    FieldExactlyWhen(fields, key);
    if key in body && body[key].Text? {
      MaskBegins(body[key].s);
    }
  }

  predicate SecretField(fields: seq<Field>, key: string, i: nat) {
    IsField(fields, key, i) && fields[i].kind == "secret"
  }

  /** And a client is shown the mask of a secret, and every other setting as it is. */
  lemma {:induction false} MaskSettingsShows(settings: Doc, fields: seq<Field>, key: string)
    ensures var r := MaskSettings(settings, fields);
      && r.Keys == settings.Keys
      && ((exists i: nat :: SecretField(fields, key, i)) && key in settings ==> r[key] == MaskItem(settings[key]))
      && ((forall i: nat :: !SecretField(fields, key, i)) && key in settings ==> r[key] == settings[key])
  {
    hide FindField, MaskItem;
    FieldExactlyWhen(fields, key);
    if IsSecret(fields, key) {
      var i: nat :| IsField(fields, key, i);
      assert SecretField(fields, key, i);
    }
  }

  // ----- The loops -----

  method MaskModuleInPlace(module_: Doc, fields: seq<Field>) returns (d: Doc)
    ensures d == MaskModule(module_, fields)
  {
    d := module_;
    for i := 0 to |fields|
      invariant d == MaskModule(module_, fields[..i])
    {
      assert fields[..i + 1][..i] == fields[..i];
      d := MaskOne(d, fields[i]);
    }
    assert fields[..|fields|] == fields;
  }

  method RestoreInPlace(next: Doc, live: Doc, fields: seq<Field>) returns (d: Doc)
    ensures d == Restore(next, live, fields)
  {
    d := next;
    for i := 0 to |fields|
      invariant d == Restore(next, live, fields[..i])
    {
      assert fields[..i + 1][..i] == fields[..i];
      d := RestoreOne(d, live, fields[i]);
    }
    assert fields[..|fields|] == fields;
  }

  /** The items of a JSON object in the order they are kept. */
  ghost predicate ItemsOf(order: seq<string>, d: Doc) {
    (forall k :: k in d <==> k in order) && forall i, j :: 0 <= i < j < |order| ==> order[i] != order[j]
  }

  method MaskSettingsInPlace(settings: Doc, order: seq<string>, fields: seq<Field>) returns (d: Doc)
    requires ItemsOf(order, settings)
    ensures d == MaskSettings(settings, fields)
  {
    d := settings;
    for i := 0 to |order|
      invariant d.Keys == settings.Keys
      invariant forall j :: 0 <= j < |order| ==>
        var was := settings[order[j]];
        order[j] in d && d[order[j]] == if j < i && IsSecret(fields, order[j]) then MaskItem(was) else was
    {
      if IsSecret(fields, order[i]) { d := d[order[i] := MaskItem(d[order[i]])]; }
    }
  }

  method CleanBodyInPlace(body: Doc, order: seq<string>, fields: seq<Field>) returns (d: Doc)
    requires ItemsOf(order, body)
    ensures d == CleanBody(body, fields)
  {
    d := body;
    for i := 0 to |order|
      invariant forall k :: k in d ==> k in body && d[k] == body[k]
      invariant forall j :: 0 <= j < |order| ==>
        (order[j] in d <==> j >= i || !Dropped(fields, order[j], body[order[j]]))
    {
      if Dropped(fields, order[i], d[order[i]]) { d := d - {order[i]}; }
    }
  }
}
