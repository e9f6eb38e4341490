/** One FIFO of waiters, what waking does to it, and why any hash of channels
    into buckets does the same (protothread.h:416-434, 672-707). */
module ProtoThreadQueue {
  import opened ProtoThreadLists

  /** The threads a wakeup makes ready, oldest waiter first; `on` are the
      threads that wait on its channel. */
  function Woken(ts: seq<Thread>, on: set<Thread>, one: bool): seq<Thread> {
    if ts == [] then []
    else if ts[0] !in on then Woken(ts[1..], on, one)
    else if one then [ts[0]]
    else [ts[0]] + Woken(ts[1..], on, one)
  }

  /** The waiters that stay, in their order. */
  function Left(ts: seq<Thread>, on: set<Thread>, one: bool): seq<Thread> {
    if ts == [] then []
    else if ts[0] !in on then [ts[0]] + Left(ts[1..], on, one)
    else if one then ts[1..]
    else Left(ts[1..], on, one)
  }

  predicate NoneOf(ts: seq<Thread>, on: set<Thread>) {
    forall i :: 0 <= i < |ts| ==> ts[i] !in on
  }

  // ----- What waking means -----

  lemma {:induction false} Counts(t: Thread, ts: seq<Thread>)
    ensures multiset([t] + ts) == multiset{t} + multiset(ts)
  {}

  lemma {:induction false} KeepsNone(t: Thread, ts: seq<Thread>, on: set<Thread>)
    requires NoneOf(ts, on)
    ensures t !in on ==> NoneOf([t] + ts, on)
  {}

  /** A broadcast takes every waiter on the channel and leaves every other. */
  lemma {:induction false} BroadcastTakesAll(ts: seq<Thread>, on: set<Thread>)
    ensures NoneOf(Left(ts, on, false), on)
    ensures forall t :: t in Woken(ts, on, false) ==> t in on
    ensures multiset(Woken(ts, on, false)) + multiset(Left(ts, on, false)) == multiset(ts)
  {
    hide Woken, Left;
    FirstWaiter(ts, on, false);
    if ts != [] {
      var rest, t := ts[1..], ts[0];
      BroadcastTakesAll(rest, on);
      KeepsNone(t, Left(rest, on, false), on);
      hide NoneOf;
      assert ts == [t] + rest;
      Counts(t, rest);
      Counts(t, Woken(rest, on, false));
      Counts(t, Left(rest, on, false));
    }
  }

  /** What becomes of the first waiter. */
  lemma {:induction false} FirstWaiter(ts: seq<Thread>, on: set<Thread>, one: bool)
    ensures ts == [] ==> Woken(ts, on, one) == [] && Left(ts, on, one) == []
    ensures ts != [] && ts[0] in on && one ==> Woken(ts, on, one) == [ts[0]] && Left(ts, on, one) == ts[1..]
    ensures ts != [] && ts[0] in on && !one ==>
      Woken(ts, on, one) == [ts[0]] + Woken(ts[1..], on, one) && Left(ts, on, one) == Left(ts[1..], on, one)
    ensures ts != [] && ts[0] !in on ==>
      Woken(ts, on, one) == Woken(ts[1..], on, one) && Left(ts, on, one) == [ts[0]] + Left(ts[1..], on, one)
  {}

  /** ... each list in the order it had: what is woken of two queues one behind the
      other is what is woken of the first, then of the second. */
  lemma {:induction false} BroadcastInOrder(a: seq<Thread>, b: seq<Thread>, on: set<Thread>)
    ensures Woken(a + b, on, false) == Woken(a, on, false) + Woken(b, on, false)
    ensures Left(a + b, on, false) == Left(a, on, false) + Left(b, on, false)
  {
    hide Woken, Left;
    FirstWaiter(a, on, false);
    FirstWaiter(a + b, on, false);
    if a == [] {
      assert a + b == b;
      assert [] + Woken(b, on, false) == Woken(b, on, false) && [] + Left(b, on, false) == Left(b, on, false);
    } else {
      assert (a + b)[1..] == a[1..] + b && (a + b)[0] == a[0];
      BroadcastInOrder(a[1..], b, on);
      var t, v, w := [a[0]], Woken(a[1..], on, false), Left(a[1..], on, false);
      assert t + (v + Woken(b, on, false)) == t + v + Woken(b, on, false);
      assert t + (w + Left(b, on, false)) == t + w + Left(b, on, false);
    }
  }

  lemma {:induction false} OneWaiter(t: Thread, on: set<Thread>)
    ensures Woken([t], on, false) == if t in on then [t] else []
    ensures Left([t], on, false) == if t in on then [] else [t]
  {
    hide Woken, Left;
    FirstWaiter([t], on, false);
    FirstWaiter([], on, false);
    assert [t][1..] == [];
  }

  /** Index of the oldest waiter on the channel, or the length. */
  function Oldest(ts: seq<Thread>, on: set<Thread>): (k: nat)
    ensures k <= |ts| && NoneOf(ts[..k], on)
    ensures k < |ts| ==> ts[k] in on
  {
    if ts == [] || ts[0] in on then 0
    else
      var k := 1 + Oldest(ts[1..], on);
      assert forall i :: 0 < i < k ==> ts[..k][i] == ts[1..][..k - 1][i - 1];
      k
  }

  /** A signal takes the oldest waiter on the channel, if any, and nothing else. */
  lemma {:induction false} SignalTakesOldest(ts: seq<Thread>, on: set<Thread>)
    ensures var k := Oldest(ts, on);
      if k == |ts| then Woken(ts, on, true) == [] && Left(ts, on, true) == ts
      else Woken(ts, on, true) == [ts[k]] && Left(ts, on, true) == Drop(ts, k)
  {
    hide Woken, Left;
    FirstWaiter(ts, on, true);
    if ts != [] && ts[0] !in on {
      var rest, k := ts[1..], Oldest(ts, on);
      SignalTakesOldest(rest, on);
      assert k == 1 + Oldest(rest, on);
      assert [ts[0]] + rest == ts;
      if k < |ts| {
        assert ts[..k] == [ts[0]] + rest[..k - 1] && ts[k + 1..] == rest[k..];
      }
    }
  }

  /** Either way the waiters that stay are some of the waiters, and a thread is
      woken or stays, not both. */
  lemma {:induction false} LeftAndWoken(ts: seq<Thread>, on: set<Thread>, one: bool)
    requires Distinct(ts)
    ensures Distinct(Left(ts, on, one)) && Distinct(Woken(ts, on, one))
    ensures forall t :: t in ts <==> t in Left(ts, on, one) || t in Woken(ts, on, one)
    ensures forall t :: t in Woken(ts, on, one) ==> t in on && t !in Left(ts, on, one)
  {
    if ts != [] {
      var rest := ts[1..];
      assert ts == [ts[0]] + rest;
      assert ts[0] !in rest;
      LeftAndWoken(rest, on, one);
      ConsDistinct(ts[0], Left(rest, on, one));
      ConsDistinct(ts[0], Woken(rest, on, one));
    }
  }

  lemma {:induction false} SnocDistinct(ts: seq<Thread>, t: Thread)
    requires Distinct(ts) && t !in ts
    ensures Distinct(ts + [t])
    ensures forall u :: u in ts + [t] <==> u in ts || u == t
  {}

  // ----- Waking through buckets -----

  /** What one bucket of the table holds: the waiters hashed to it. */
  function Only(ts: seq<Thread>, bucket: set<Thread>): seq<Thread> {
    if ts == [] then []
    else (if ts[0] in bucket then [ts[0]] else []) + Only(ts[1..], bucket)
  }

  /** The bucket of the channel sees all of the wakeup... */
  lemma {:induction false} BucketWakes(ts: seq<Thread>, on: set<Thread>, one: bool, bucket: set<Thread>)
    requires forall t :: t in ts && t in on ==> t in bucket
    ensures Woken(Only(ts, bucket), on, one) == Woken(ts, on, one)
    ensures Left(Only(ts, bucket), on, one) == Only(Left(ts, on, one), bucket)
  {
    if ts != [] {
      var rest := Only(ts[1..], bucket);
      assert ts == [ts[0]] + ts[1..];
      BucketWakes(ts[1..], on, one, bucket);
      assert ([ts[0]] + rest)[1..] == rest && [] + rest == rest;
      assert ([ts[0]] + Left(ts[1..], on, one))[1..] == Left(ts[1..], on, one);
    }
  }

  /** ... and the other buckets see none of it. */
  lemma {:induction false} OtherBuckets(ts: seq<Thread>, on: set<Thread>, one: bool, bucket: set<Thread>)
    requires forall t :: t in ts && t in on ==> t !in bucket
    ensures Only(Left(ts, on, one), bucket) == Only(ts, bucket)
  {
    if ts != [] {
      assert ts == [ts[0]] + ts[1..];
      OtherBuckets(ts[1..], on, one, bucket);
    }
  }

  lemma {:induction false} FirstOfBucket(ts: seq<Thread>, bucket: set<Thread>)
    ensures Only([], bucket) == []
    ensures ts != [] ==> Only(ts, bucket) == (if ts[0] in bucket then [ts[0]] else []) + Only(ts[1..], bucket)
  {}

  lemma {:induction false} OnlyAppend(ts: seq<Thread>, t: Thread, bucket: set<Thread>)
    ensures Only(ts + [t], bucket) == Only(ts, bucket) + if t in bucket then [t] else []
  {
    hide Only;
    FirstOfBucket(ts, bucket);
    FirstOfBucket(ts + [t], bucket);
    if ts == [] {
      assert (ts + [t])[1..] == [];
    } else {
      assert (ts + [t])[1..] == ts[1..] + [t];
      OnlyAppend(ts[1..], t, bucket);
    }
  }

  lemma {:induction false} OnlyMembers(ts: seq<Thread>, bucket: set<Thread>)
    ensures forall t :: t in Only(ts, bucket) <==> t in ts && t in bucket
  {
    if ts != [] {
      assert ts == [ts[0]] + ts[1..];
      OnlyMembers(ts[1..], bucket);
    }
  }

  /** Buckets that agree on the waiters hold the same. */
  lemma {:induction false} OnlySame(ts: seq<Thread>, a: set<Thread>, b: set<Thread>)
    requires forall t :: t in ts ==> (t in a <==> t in b)
    ensures Only(ts, a) == Only(ts, b)
  {
    if ts != [] {
      assert ts == [ts[0]] + ts[1..];
      OnlySame(ts[1..], a, b);
    }
  }

  // ----- Walking one list -----

  /** A traversal of `all` that has come to list[i]: what it woke and what is
      left of the list account for the whole wakeup. */
  predicate Progress(all: seq<Thread>, on: set<Thread>, one: bool, list: seq<Thread>, i: nat, woken: seq<Thread>) {
    && i <= |list|
    && Left(all, on, one) == list[..i] + Left(list[i..], on, one)
    && Woken(all, on, one) == woken + Woken(list[i..], on, one)
    && NoneOf(list[..i], on)
  }

  lemma {:induction false} ProgressStarts(all: seq<Thread>, on: set<Thread>, one: bool)
    ensures Progress(all, on, one, all, 0, [])
  {
    assert all[0..] == all && all[..0] == [];
  }

  lemma {:induction false} ProgressEnds(
      all: seq<Thread>, on: set<Thread>, one: bool, list: seq<Thread>, woken: seq<Thread>)
    requires Progress(all, on, one, list, |list|, woken)
    ensures Left(all, on, one) == list && Woken(all, on, one) == woken
  {
    assert list[|list|..] == [] && list[..|list|] == list;
  }

  lemma {:induction false} ProgressPasses(
      all: seq<Thread>, on: set<Thread>, one: bool, list: seq<Thread>, i: nat, woken: seq<Thread>)
    requires Progress(all, on, one, list, i, woken) && i < |list| && list[i] !in on
    ensures Progress(all, on, one, list, i + 1, woken)
  {
    assert list[i..][1..] == list[i + 1..] && list[..i + 1] == list[..i] + [list[i]];
    assert list[i..][0] == list[i];
  }

  /** Taking list[i] out: the last one taken when only one is to be woken. */
  lemma {:induction false} ProgressTakes(
      all: seq<Thread>, on: set<Thread>, one: bool, list: seq<Thread>, i: nat, woken: seq<Thread>)
    requires Progress(all, on, one, list, i, woken) && i < |list| && list[i] in on
    ensures var rest, more := Drop(list, i), woken + [list[i]];
      if one then Left(all, on, one) == rest && Woken(all, on, one) == more
      else Progress(all, on, one, rest, i, more)
  {
    var rest := Drop(list, i);
    assert list[i..][1..] == list[i + 1..] && list[i..][0] == list[i];
    assert rest[..i] == list[..i] && rest[i..] == list[i + 1..];
  }

  lemma {:induction false} NoneLeft(ts: seq<Thread>, on: set<Thread>, one: bool)
    requires NoneOf(ts, on)
    ensures Woken(ts, on, one) == [] && Left(ts, on, one) == ts
  {
    if ts != [] {
      NoneLeft(ts[1..], on, one);
    }
  }

  /** Starting over after the newest was taken: all that is left was passed. */
  lemma {:induction false} ProgressRestarts(
      all: seq<Thread>, on: set<Thread>, one: bool, list: seq<Thread>, woken: seq<Thread>)
    requires Progress(all, on, one, list, |list|, woken)
    ensures Progress(all, on, one, list, 0, woken)
  {
    assert list[|list|..] == [] && list[..|list|] == list && list[0..] == list && list[..0] == [];
    NoneLeft(list, on, one);
  }

  lemma {:induction false} OnlyWithout(ts: seq<Thread>, t: Thread, bucket: set<Thread>)
    requires Distinct(ts)
    ensures Only(Without(ts, t), bucket) == Without(Only(ts, bucket), t)
  {
    if ts != [] {
      var rest := Only(ts[1..], bucket);
      assert ([ts[0]] + rest)[1..] == rest && [] + rest == rest;
      OnlyWithout(ts[1..], t, bucket);
      OnlyMembers(ts[1..], bucket);
      assert ts[0] !in ts[1..];
      if ts[0] == t && t !in bucket {
        NotThere(rest, t);
      }
    }
  }
}
