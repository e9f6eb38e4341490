/** The scheduler's intrusive circular lists (protothread.h:262-330).  A list's
    head points to its newest thread, whose next is the oldest. */
module ProtoThreadLists {

  /** pt_thread_s.  Channels are addresses, a thread's own among them; `alive`
      is func != NULL.  `home` says which list the thread is linked in, so that
      no thread can be in two. */
  class Thread {
    const addr: nat
    var next: Thread?
    var alive: bool
    var channel: nat
    ghost var home: List?

    constructor (addr: nat)
      ensures this.addr == addr && !alive && home == null
    {
      this.addr := addr;
      next, alive, channel, home := null, false, 0, null;
    }
  }

  /** `items` lists the threads of `members`, each once. */
  ghost predicate Whole(items: seq<Thread>, members: set<Thread>) {
    && (forall i :: 0 <= i < |items| ==> items[i] in members)
    && (forall t :: t in members ==> t in items)
    && (forall i, j :: 0 <= i < j < |items| ==> items[i] != items[j])
  }

  /** What each thread's next must be: the one after it, the last one's the
      first. */
  ghost function Nexts(items: seq<Thread>): (r: seq<Thread>)
    ensures |r| == |items|
  {
    if items == [] then [] else items[1..] + [items[0]]
  }

  function Drop<T>(s: seq<T>, i: nat): (r: seq<T>)
    requires i < |s|
    ensures |r| == |s| - 1
  {
    s[..i] + s[i + 1..]
  }

  lemma {:induction false} OnceIn(items: seq<Thread>, members: set<Thread>, t: Thread)
    requires Whole(items, members) && t in items
    ensures multiset(items)[t] == 1
  {
    var k :| 0 <= k < |items| && items[k] == t;
    assert items == items[..k] + [t] + items[k + 1..];
    CountOnce(items[..k], t, items[k + 1..]);
  }

  lemma {:induction false} CountOnce(a: seq<Thread>, t: Thread, b: seq<Thread>)
    requires t !in a && t !in b
    ensures multiset(a + [t] + b)[t] == 1
  {}

  lemma {:induction false} WholeMore(items: seq<Thread>, members: set<Thread>, n: Thread)
    requires Whole(items, members) && n !in members
    ensures Whole(items + [n], members + {n})
  {}

  /** Where a thread linked behind the others stands, and their next. */
  lemma {:induction false} LinkAt(items: seq<Thread>, n: Thread, k: nat)
    requires k <= |items|
    ensures var all := items + [n];
      && all[k] == (if k < |items| then items[k] else n)
      && Nexts(all)[k] == (if k == |items| then all[0] else if k == |items| - 1 then n else Nexts(items)[k])
  {}

  lemma {:induction false} WholeLess(items: seq<Thread>, members: set<Thread>, i: nat)
    requires Whole(items, members) && i < |items|
    ensures Whole(Drop(items, i), members - {items[i]})
  {
    var rest := Drop(items, i);
    forall t | t in members - {items[i]} ensures t in rest {
      var k :| 0 <= k < |items| && items[k] == t;
      assert rest[if k < i then k else k - 1] == t;
    }
  }

  /** Where the threads left in the list stood before, and their next. */
  lemma {:induction false} DropAt(items: seq<Thread>, members: set<Thread>, i: nat, k: nat)
    requires Whole(items, members) && i < |items| && k < |items| - 1
    ensures var p, o := if i == 0 then |items| - 1 else i - 1, if k < i then k else k + 1;
      && Drop(items, i)[k] == items[o] && items[o] in members
      && (items[o] == items[p] <==> o == p)
      && Nexts(Drop(items, i))[k] == Nexts(items)[if o == p then i else o]
      && Nexts(items)[i] == items[if i + 1 == |items| then 0 else i + 1]
  {
    hide Drop, Nexts;
    var n := |items| - 1;
    var o := if k < i then k else k + 1;
    DropIndex(items, i, k);
    DropIndex(items, i, if k + 1 == n then 0 else k + 1);
    NextsIndex(Drop(items, i), k);
    NextsIndex(items, o);
    NextsIndex(items, i);
  }

  lemma {:induction false} DropIndex(items: seq<Thread>, i: nat, k: nat)
    requires i < |items| && k < |items| - 1
    ensures Drop(items, i)[k] == items[if k < i then k else k + 1]
  {}

  lemma {:induction false} NextsIndex(items: seq<Thread>, k: nat)
    requires k < |items|
    ensures Nexts(items)[k] == items[if k + 1 == |items| then 0 else k + 1]
  {}

  predicate Distinct(ts: seq<Thread>) {
    forall i, j :: 0 <= i < j < |ts| ==> ts[i] != ts[j]
  }

  lemma {:induction false} ConsDistinct(t: Thread, ts: seq<Thread>)
    requires Distinct(ts)
    ensures t !in ts ==> Distinct([t] + ts)
  {}

  /** A list without thread t. */
  function Without(ts: seq<Thread>, t: Thread): seq<Thread> {
    if ts == [] then []
    else if ts[0] == t then ts[1..]
    else [ts[0]] + Without(ts[1..], t)
  }

  lemma {:induction false} WithoutAt(ts: seq<Thread>, t: Thread, i: nat)
    requires Distinct(ts) && i < |ts| && ts[i] == t
    ensures Without(ts, t) == Drop(ts, i)
  {
    if i == 0 {
      assert ts[..0] + ts[1..] == ts[1..];
    } else {
      WithoutAt(ts[1..], t, i - 1);
      assert ts[..i] == [ts[0]] + ts[1..][..i - 1] && ts[i + 1..] == ts[1..][i..];
    }
  }

  lemma {:induction false} WithoutMembers(ts: seq<Thread>, t: Thread)
    requires Distinct(ts)
    ensures Distinct(Without(ts, t))
    ensures forall u :: u in Without(ts, t) <==> u in ts && u != t
  {
    if ts != [] {
      assert ts == [ts[0]] + ts[1..];
      assert ts[0] !in ts[1..];
      WithoutMembers(ts[1..], t);
      ConsDistinct(ts[0], Without(ts[1..], t));
    }
  }

  lemma {:induction false} NotThere(ts: seq<Thread>, t: Thread)
    requires t !in ts
    ensures Without(ts, t) == ts
  {
    if ts != [] {
      assert ts[0] in ts;
      NotThere(ts[1..], t);
    }
  }

  /** A list head (pt_thread_t **); `items` are its threads, oldest first, and
      `members` the same as a set. */
  class List {
    var newest: Thread?
    ghost var items: seq<Thread>
    ghost var members: set<Thread>

    constructor ()
      ensures Ok() && items == []
    {
      newest := null;
      items := [];
      members := {};
    }

    ghost predicate Ok()
      reads this, members`next, members`home
    {
      && Whole(items, members)
      && newest == (if items == [] then null else items[|items| - 1])
      && (forall t :: t in members ==> t.home == this)
      && (forall i {:trigger items[i].next} :: 0 <= i < |items| ==> items[i].next == Nexts(items)[i])
    }

    /** Where prev must point for items[i] to follow it. */
    ghost function Before(i: nat): Thread
      requires i < |items|
      reads this
    {
      items[if i == 0 then |items| - 1 else i - 1]
    }

    /** The thread after prev, and whether it is the newest. */
    lemma {:induction false} Follows(prev: Thread, i: nat)
      requires Ok() && i < |items| && prev == Before(i)
      ensures prev.next == items[i] && items[i] in members
      ensures items[i] == newest <==> i + 1 == |items|
    {
      var p := if i == 0 then |items| - 1 else i - 1;
      assert items[p].next == items[i];
    }

    lemma {:induction false} BeforeIn(i: nat)
      requires Ok() && i < |items|
      ensures Before(i) in members
    {}

    lemma {:induction false} SameMembers()
      requires Ok()
      ensures forall t :: t in members <==> t in items
      ensures forall t :: t in members ==> t.home == this
    {}

    /** No thread is in a list twice. */
    lemma {:induction false} Once(t: Thread)
      requires Ok() && t in items
      ensures multiset(items)[t] == 1
    {
      assert Whole(items, members);
      hide Ok;
      OnceIn(items, members, t);
    }

    lemma {:induction false} AllDistinct()
      requires Ok()
      ensures Distinct(items)
    {}

    lemma {:induction false} Head()
      requires Ok()
      ensures newest == null <==> items == []
      ensures items != [] ==> newest == Before(0)
    {}

    /** Link n as the newest. */
    method Link(n: Thread)
      requires Ok() && n.home == null
      modifies this, members`next, n`next, n`home
      ensures Ok() && items == old(items) + [n] && members == old(members) + {n}
      ensures n.home == this
    {
      hide Nexts, Whole;
      ghost var was := items;
      LinkBefore(n);
      if newest != null {
        n.next := newest.next;
        newest.next := n;
      } else {
        n.next := n;
      }
      newest := n;
      items := items + [n];
      members := members + {n};
      n.home := this;
      forall k | 0 <= k < |items| ensures items[k].next == Nexts(items)[k] {
        LinkAt(was, n, k);
      }
    }

    /** What linking a thread from outside has to know. */
    lemma {:induction false} LinkBefore(n: Thread)
      requires Ok() && n.home == null
      ensures n !in members && n !in items && Whole(items + [n], members + {n})
      ensures items != [] ==> newest == items[|items| - 1] && newest in members && newest.next == items[0]
      ensures forall i, j :: 0 <= i < j < |items| ==> items[i] != items[j]
      ensures forall i :: 0 <= i < |items| ==> items[i] in members
    {
      WholeMore(items, members, n);
    }

    /** What taking a thread out of the circle has to know. */
    lemma {:induction false} BypassBefore(prev: Thread, i: nat)
      requires Ok() && i < |items| && prev == Before(i)
      ensures prev.next == items[i] && items[i] in members && prev in members
      ensures items[i] == newest <==> i + 1 == |items|
      ensures items[i] == prev <==> |items| == 1
      ensures Whole(Drop(items, i), members - {items[i]})
      ensures |items| > 1 ==> Drop(items, i)[|items| - 2] == if i + 1 == |items| then prev else newest
      ensures prev == items[if i == 0 then |items| - 1 else i - 1]
      ensures prev.next.next == items[if i + 1 == |items| then 0 else i + 1]
    {
      Follows(prev, i);
      BeforeIn(i);
      WholeLess(items, members, i);
      assert items[i].next == Nexts(items)[i];
    }

    /** Take the thread following prev out of the circle. */
    method Bypass(prev: Thread, ghost i: nat) returns (t: Thread)
      requires Ok() && i < |items| && prev == Before(i)
      modifies this, prev`next
      ensures Ok() && t == old(items)[i] && items == Drop(old(items), i)
      ensures t in old(members) && members == old(members) - {t}
    {
      hide Whole, Nexts, Drop;
      BypassBefore(prev, i);
      ghost var was, all := items, members;
      t := prev.next;
      prev.next := t.next;
      if t == prev {
        newest := null;
      } else if t == newest {
        newest := prev;
      }
      items := Drop(was, i);
      members := members - {t};
      forall k | 0 <= k < |items| ensures items[k].next == Nexts(items)[k] {
        DropAt(was, all, i, k);
      }
    }

    /** Takes the thread behind prev out of the circle. */
    method Unlink(prev: Thread, ghost i: nat) returns (t: Thread)
      requires Ok() && i < |items| && prev == Before(i)
      modifies this, members`next, members`home
      ensures Ok() && t == old(items)[i] && items == Drop(old(items), i)
      ensures t.home == null && t in old(members) && members == old(members) - {t}
    {
      Follows(prev, i);
      BeforeIn(i);
      t := Bypass(prev, i);
      SameMembers();
      t.next := null;
      t.home := null;
    }

    /** The head of the circle leaves: the longest linked. */
    method UnlinkOldest() returns (t: Thread)
      requires Ok() && items != []
      modifies this, members`next, members`home
      ensures Ok() && t == old(items)[0] && items == old(items)[1..]
      ensures t.home == null && t in old(members) && members == old(members) - {t}
    {
      Head();
      hide List.Ok;
      t := Unlink(newest, 0);
      assert old(items)[..0] + old(items)[1..] == old(items)[1..];
    }

    /** Unlink n if it is in this list, leaving the others in order. */
    method FindAndUnlink(n: Thread) returns (found: bool)
      requires Ok()
      modifies this, members`next, members`home
      ensures Ok() && found == (n in old(items))
      ensures items == Without(old(items), n) && members == old(members) - {n}
      ensures found ==> n.home == null
    {
      Head();
      SameMembers();
      AllDistinct();
      if newest == null {
        return false;
      }
      hide List.Ok;
      ghost var was := items;
      var prev: Thread := newest;
      ghost var i := 0;
      while true
        invariant Ok() && items == was && members == old(members) && newest != null && newest == old(newest)
        invariant 0 <= i < |items| && prev == Before(i)
        invariant n !in items[..i]
        decreases |items| - i
      {
        Follows(prev, i);
        var t: Thread := prev.next;
        if n == t {
          WithoutAt(was, n, i);
          var _ := Unlink(prev, i);
          return true;
        }
        prev := t;
        if prev == newest {
          assert items[..i + 1] == items;
          NotThere(was, n);
          return false;
        }
        i := i + 1;
      }
    }
  }
}
