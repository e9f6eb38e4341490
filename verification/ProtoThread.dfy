/** The protothread scheduler (protothread.h).  Its abstract state is the
    running thread, the ready threads and one FIFO of waiters.  What the
    operations do is stated on that state alone; the hash table of wait lists
    appears in the constructor, in the frames, and in where Placement finds a
    waiting thread. */
module ProtoThread {
  import opened ProtoThreadLists
  import opened ProtoThreadQueue

  class Scheduler {
    var running: Thread?
    const ready: List
    const wait: seq<List>
    const hash: nat -> nat
    ghost var waiting: seq<Thread>
    ghost var threads: set<Thread>

    /** pt_i_get_wait_list(): which wait list a channel uses. */
    function Index(c: nat): (b: nat)
      requires |wait| > 0
      ensures b < |wait|
    {
      hash(c) % |wait|
    }

    /** The threads whose last channel is c, or hashes to list b. */
    ghost function On(c: nat): set<Thread>
      reads this`threads, threads`channel
    {
      set t | t in threads && t.channel == c
    }

    ghost function Hashed(b: nat): set<Thread>
      requires |wait| > 0
      reads this`threads, threads`channel
    {
      set t | t in threads && Index(t.channel) == b
    }

    // ----- The invariant, in parts -----

    ghost predicate Apart()
      reads this`threads, ready, wait
    {
      && |wait| > 0 && ready !in wait
      && (forall i, j :: 0 <= i < j < |wait| ==> wait[i] != wait[j] && wait[i].members !! wait[j].members)
      && (forall i :: 0 <= i < |wait| ==> wait[i].members !! ready.members && wait[i].members <= threads)
      && ready.members <= threads
    }

    ghost predicate Rings()
      requires Apart()
      reads this`threads, ready, wait, threads`next, threads`home
    {
      ready.Ok() && forall b :: 0 <= b < |wait| ==> wait[b].Ok()
    }

    /** Each list of the table holds the waiters hashed to it, in FIFO order. */
    ghost predicate Bucketed()
      requires Apart()
      reads this`threads, this`waiting, ready, wait, threads`channel
    {
      forall b :: 0 <= b < |wait| ==> wait[b].items == Only(waiting, Hashed(b))
    }

    /** Every scheduled thread has neither exited nor been killed. */
    ghost predicate Alive()
      reads this, ready, threads`home, threads`alive
    {
      && Distinct(waiting)
      && (forall t :: t in waiting ==> t in threads && t.alive)
      && (forall t :: t in ready.members ==> t in threads && t.alive)
      && (running != null ==> running in threads && running.home == null && running.alive)
    }

    /** No thread is linked anywhere but in ready or, waiting, in a bucket. */
    ghost predicate Placed()
      reads this`threads, this`waiting, ready, threads`home
    {
      forall t :: t in threads && t.home != null ==> t in ready.members || t in waiting
    }

    /** No one waits for a thread that has exited or been killed. */
    ghost predicate JoinsAlive()
      reads this`threads, this`waiting, threads`channel, threads`alive
    {
      forall w, t :: w in waiting && w in threads && t in threads && w.channel == t.addr ==> t.alive
    }

    ghost predicate Core()
      reads this, ready, wait, threads
    {
      Apart() && Rings() && Bucketed() && Alive() && Placed()
    }

    ghost predicate Valid()
      reads this, ready, wait, threads
    {
      Core() && JoinsAlive()
    }

    lemma {:induction false} WaitersLinked()
      requires Core()
      ensures forall t :: t in waiting ==> t in wait[Index(t.channel)].members && t.home == wait[Index(t.channel)]
      ensures forall t :: t in ready.members <==> t in ready.items
      ensures forall t :: t in ready.members ==> t.home == ready
      ensures forall b :: 0 <= b < |wait| ==> forall t :: t in wait[b].members ==> t.home == wait[b]
    {
      ready.SameMembers();
      forall b | 0 <= b < |wait| ensures forall t :: t in wait[b].members ==> t.home == wait[b] {
        wait[b].SameMembers();
      }
      forall t | t in waiting ensures t in wait[Index(t.channel)].members && t.home == wait[Index(t.channel)] {
        OnlyMembers(waiting, Hashed(Index(t.channel)));
        wait[Index(t.channel)].SameMembers();
      }
    }

    /** Where a thread is, in every reachable state: it runs, or is ready once,
        or is once in the wait list of its own channel, or is nowhere. */
    lemma {:induction false} Placement(t: Thread)
      requires Valid() && t in threads
      ensures t == running ==> t !in ready.items && t !in waiting
      ensures t in ready.items ==> t !in waiting && multiset(ready.items)[t] == 1
      ensures t in waiting ==> multiset(wait[Index(t.channel)].items)[t] == 1
      ensures t in waiting ==> forall b :: 0 <= b < |wait| && b != Index(t.channel) ==> t !in wait[b].items
      ensures t != running && t !in ready.items && t !in waiting ==> t.home == null
    {
      WaitersLinked();
      forall b | 0 <= b < |wait| ensures forall u :: u in wait[b].items <==> u in wait[b].members {
        wait[b].SameMembers();
      }
      if t in ready.items {
        ready.Once(t);
      }
      if t in waiting {
        wait[Index(t.channel)].Once(t);
      }
    }

    constructor (nwait: nat, hash: nat -> nat)
      requires nwait > 0
      ensures Valid() && running == null && ready.items == [] && waiting == [] && threads == {}
      ensures fresh(ready) && forall l :: l in wait ==> fresh(l)
    {
      var r := new List();
      var table: seq<List> := [];
      while |table| < nwait
        invariant fresh(r) && r.Ok() && r.items == [] && r !in table && |table| <= nwait
        invariant forall i :: 0 <= i < |table| ==> fresh(table[i]) && table[i].Ok() && table[i].items == []
        invariant forall i, j :: 0 <= i < j < |table| ==> table[i] != table[j]
      {
        var l := new List();
        table := table + [l];
      }
      running := null;
      ready := r;
      wait := table;
      this.hash := hash;
      waiting := [];
      threads := {};
    }

    // ----- Waking -----

    static method Move(wq: List, ready: List, prev: Thread, ghost i: nat)
      requires wq != ready && wq.Ok() && ready.Ok() && i < |wq.items| && prev == wq.Before(i)
      modifies wq, ready, wq.members`next, wq.members`home, ready.members`next
      ensures wq.Ok() && ready.Ok()
      ensures wq.items == Drop(old(wq.items), i)
      ensures ready.items == old(ready.items) + [old(wq.items)[i]]
      ensures wq.members + ready.members == old(wq.members) + old(ready.members)
      ensures wq.members <= old(wq.members)
      ensures wq.newest == null <==> wq.items == []
      ensures wq.items != [] ==> prev == wq.Before(if i == |wq.items| then 0 else i)
    {
      var u := wq.Unlink(prev, i);
      ready.Link(u);
    }

    /** One round of pt_i_wake()'s loop, at the thread after prev.  Removing the
        newest waiter makes prev the head again and the traversal starts over:
        it then meets only waiters that do not match. */
    static method Visit(wq: List, ready: List, channel: nat, one: bool, prev: Thread,
                        ghost all: seq<Thread>, ghost on: set<Thread>, ghost i: nat, ghost woken: seq<Thread>)
      returns (next: Thread, stop: bool, ghost j: nat, ghost taken: seq<Thread>)
      requires wq != ready && wq.Ok() && ready.Ok() && i < |wq.items| && prev == wq.Before(i)
      requires forall t :: t in wq.members ==> (t in on <==> t.channel == channel)
      requires Progress(all, on, one, wq.items, i, woken)
      modifies wq, ready, wq.members`next, wq.members`home, ready.members`next
      ensures wq.Ok() && ready.Ok()
      ensures ready.items == old(ready.items) + taken
      ensures wq.members + ready.members == old(wq.members) + old(ready.members)
      ensures wq.members <= old(wq.members)
      ensures stop ==> wq.items == Left(all, on, one) && woken + taken == Woken(all, on, one)
      ensures !stop ==> Progress(all, on, one, wq.items, j, woken + taken)
      ensures !stop && wq.items != [] ==> j < |wq.items| && next == wq.Before(j)
      ensures !stop && wq.items == [] ==> j == 0
      ensures !stop ==> |wq.items| < |old(wq.items)| || (wq.items == old(wq.items) && j == i + 1)
    {
      hide Progress, Left, Woken;
      wq.Follows(prev, i);
      assert wq.items[i] in wq.members;
      var t: Thread := prev.next;
      j, taken := i, [];
      assert woken + [] == woken;
      if t.channel != channel {
        ProgressPasses(all, on, one, wq.items, i, woken);
        next := t;
        j := i + 1;
        stop := next == wq.newest;
        if stop {
          ProgressEnds(all, on, one, wq.items, woken);
        }
      } else {
        ghost var rest := Drop(wq.items, i);
        ProgressTakes(all, on, one, wq.items, i, woken);
        Move(wq, ready, prev, i);
        taken := [t];
        next := prev;
        stop := one;
        if !one && i == |rest| {
          ProgressRestarts(all, on, one, rest, woken + taken);
          j := 0;
        }
      }
    }

    /** The loop of pt_i_wake(), on the two lists it works on. */
    static method MoveMatching(wq: List, ready: List, channel: nat, one: bool, ghost on: set<Thread>)
      requires wq != ready && wq.Ok() && ready.Ok()
      requires forall t :: t in wq.members ==> (t in on <==> t.channel == channel)
      modifies wq, ready, wq.members`next, wq.members`home, ready.members`next
      ensures wq.Ok() && ready.Ok()
      ensures wq.items == Left(old(wq.items), on, one)
      ensures ready.items == old(ready.items) + Woken(old(wq.items), on, one)
      ensures wq.members + ready.members == old(wq.members) + old(ready.members)
      ensures wq.members <= old(wq.members)
    {
      hide Progress, Left, Woken, List.Ok;
      ghost var all := wq.items;
      ghost var i: nat, woken: seq<Thread> := 0, [];
      ProgressStarts(all, on, one);
      wq.Head();
      if wq.newest == null {
        ProgressEnds(all, on, one, all, woken);
        return;
      }
      var prev: Thread := wq.newest;
      var stop := false;
      while wq.newest != null && !stop
        invariant wq.Ok() && ready.Ok()
        invariant ready.items == old(ready.items) + woken
        invariant wq.members <= old(wq.members)
        invariant wq.members + ready.members == old(wq.members) + old(ready.members)
        invariant stop ==> wq.items == Left(all, on, one) && woken == Woken(all, on, one)
        invariant !stop && wq.items != [] ==> i < |wq.items| && prev == wq.Before(i)
        invariant !stop && wq.items == [] ==> i == 0
        invariant wq.newest == null <==> wq.items == []
        invariant !stop ==> Progress(all, on, one, wq.items, i, woken)
        decreases !stop, |wq.items|, |wq.items| - i
      {
        ghost var taken;
        prev, stop, i, taken := Visit(wq, ready, channel, one, prev, all, on, i, woken);
        wq.Head();
        assert old(ready.items) + woken + taken == old(ready.items) + (woken + taken);
        woken := woken + taken;
      }
      if !stop {
        ProgressEnds(all, on, one, wq.items, woken);
      }
    }

    /** Moving the waiters of a channel from its wait list to ready. */
    method MoveInTable(channel: nat, one: bool)
      requires Apart() && Rings()
      modifies ready, wait[Index(channel)], threads`next, threads`home
      ensures Apart() && Rings()
      ensures forall k :: 0 <= k < |wait| && k != Index(channel) ==> wait[k].items == old(wait[k].items)
      ensures var b := Index(channel);
        && wait[b].items == Left(old(wait[b].items), On(channel), one)
        && ready.items == old(ready.items) + Woken(old(wait[b].items), On(channel), one)
        && wait[b].members <= old(wait[b].members)
        && wait[b].members + ready.members == old(wait[b].members) + old(ready.members)
        && forall t :: t in threads && t !in old(wait[b].members) ==> t.home == old(t.home)
    {
      hide Left, Woken;
      ghost var on := On(channel);
      var wq := wait[Index(channel)];
      MoveMatching(wq, ready, channel, one, on);
      assert On(channel) == on;
      assert wq.members !! ready.members;
      hide List.Ok;
      assert Apart();
    }

    /** pt_i_wake(): a signal when `one`, else a broadcast. */
    method Wake(channel: nat, one: bool)
      requires Core()
      modifies this`waiting, ready, wait[Index(channel)], threads`next, threads`home
      ensures Core()
      ensures old(JoinsAlive()) ==> JoinsAlive()
      ensures waiting == Left(old(waiting), On(channel), one)
      ensures ready.items == old(ready.items) + Woken(old(waiting), On(channel), one)
    {
      hide Left, Woken, Only, List.Ok;
      ghost var b, on, was := Index(channel), On(channel), waiting;
      BucketWakes(was, on, one, Hashed(b));
      OnlyMembers(was, Hashed(b));
      wait[b].SameMembers();
      MoveInTable(channel, one);
      wait[b].SameMembers();
      ready.SameMembers();
      waiting := Left(waiting, on, one);
      LeftAndWoken(was, on, one);
      OnlyMembers(waiting, Hashed(b));
      assert On(channel) == on && Hashed(b) == old(Hashed(b));
      forall k | 0 <= k < |wait| ensures wait[k].items == Only(waiting, Hashed(k)) {
        assert Hashed(k) == old(Hashed(k));
        if k != b {
          OtherBuckets(was, on, one, Hashed(k));
        }
      }
      assert Alive();
      assert Placed();
    }

    // ----- Scheduling -----

    /** Buckets hold what they held when no waiter changed its channel. */
    twostate lemma {:induction false} SameBuckets(b: nat)
      requires |wait| > 0 && waiting == old(waiting) && old(threads) <= threads
      requires forall t :: t in waiting ==> t in old(threads) && t.channel == old(t.channel)
      ensures Only(waiting, Hashed(b)) == old(Only(waiting, Hashed(b)))
    {
      OnlySame(waiting, Hashed(b), old(Hashed(b)));
    }

    twostate lemma {:induction false} AllSameBuckets()
      requires |wait| > 0 && waiting == old(waiting) && old(threads) <= threads
      requires forall t :: t in waiting ==> t in old(threads) && t.channel == old(t.channel)
      ensures forall b :: 0 <= b < |wait| ==> Only(waiting, Hashed(b)) == old(Only(waiting, Hashed(b)))
    {
      hide Only, Hashed;
      forall b | 0 <= b < |wait| ensures Only(waiting, Hashed(b)) == old(Only(waiting, Hashed(b))) {
        SameBuckets(b);
      }
    }

    /** pt_create(). */
    method Create(t: Thread)
      requires Valid() && t.home == null && t != running
      modifies this`threads, ready, threads`next, t
      ensures Valid()
      ensures threads == old(threads) + {t} && t.alive
      ensures ready.items == old(ready.items) + [t]
    {
      hide List.Ok, Only, Hashed, Distinct;
      WaitersLinked();
      t.alive := true;
      t.channel := 0;
      ready.Link(t);
      threads := threads + {t};
      AllSameBuckets();
      assert Rings();
      assert Alive();
      assert JoinsAlive();
    }

    /** The first half of protothread_run(): the oldest ready thread runs. */
    method Resume() returns (t: Thread?)
      requires Valid() && running == null
      modifies this`running, ready, threads`next, threads`home
      ensures Valid()
      ensures t == running == (if old(ready.items) == [] then null else old(ready.items)[0])
      ensures ready.items == if old(ready.items) == [] then [] else old(ready.items)[1..]
    {
      hide List.Ok, Only;
      WaitersLinked();
      ready.Head();
      if ready.newest == null {
        return null;
      }
      t := ready.UnlinkOldest();
      running := t;
      ready.SameMembers();
      AllSameBuckets();
      assert Rings();
    }

    /** pt_yield(), back to protothread_run(). */
    method FinishYielding() returns (more: bool)
      requires Valid() && running != null
      modifies this`running, ready, threads`next, threads`home
      ensures Valid() && running == null && more
      ensures ready.items == old(ready.items) + [old(running)]
    {
      hide List.Ok, Only;
      WaitersLinked();
      ready.Link(running);
      running := null;
      AllSameBuckets();
      assert Rings();
      ready.Head();
      more := ready.newest != null;
    }

    /** One more waiter shows in the list of its channel only. */
    lemma {:induction false} OneMoreWaiter(was: seq<Thread>, t: Thread, b: nat)
      requires |wait| > 0 && t in threads
      ensures b == Index(t.channel) ==> Only(was + [t], Hashed(b)) == Only(was, Hashed(b)) + [t]
      ensures b != Index(t.channel) ==> Only(was + [t], Hashed(b)) == Only(was, Hashed(b))
    {
      hide Only;
      OnlyAppend(was, t, Hashed(b));
    }

    lemma {:induction false} OneMoreEverywhere(was: seq<Thread>, t: Thread)
      requires |wait| > 0 && t in threads
      ensures forall b :: 0 <= b < |wait| ==>
        Only(was + [t], Hashed(b)) == if b == Index(t.channel) then Only(was, Hashed(b)) + [t] else Only(was, Hashed(b))
    {
      hide Only, Hashed;
      forall b | 0 <= b < |wait|
        ensures Only(was + [t], Hashed(b)) ==
          if b == Index(t.channel) then Only(was, Hashed(b)) + [t] else Only(was, Hashed(b))
      {
        OneMoreWaiter(was, t, b);
      }
    }

    /** The running thread is linked into the wait list of its channel. */
    method LinkWaiter(channel: nat)
      requires Core() && running != null
      modifies this`running, wait[Index(channel)], threads`next, threads`home, running`channel
      ensures Apart() && Rings() && Alive() && running == null
      ensures old(running).channel == channel && old(running) !in waiting && old(running).alive
      ensures ready.items == old(ready.items) && ready.members == old(ready.members)
      ensures forall t :: t in threads && t != old(running) ==> t.home == old(t.home)
      ensures forall b :: 0 <= b < |wait| ==>
        wait[b].items == if b == Index(channel) then Only(waiting, Hashed(b)) + [old(running)] else Only(waiting,
          Hashed(b))
    {
      hide List.Ok, Only, Distinct, Hashed, Placed;
      WaitersLinked();
      running.channel := channel;
      wait[Index(channel)].Link(running);
      running := null;
      AllSameBuckets();
      assert Apart();
      assert Rings();
    }

    /** ... and is the last waiter. */
    method Park(channel: nat)
      requires Core() && running != null
      modifies this`running, this`waiting, wait[Index(channel)], threads`next, threads`home, running`channel
      ensures Core() && running == null
      ensures waiting == old(waiting) + [old(running)] && old(running).channel == channel
      ensures ready.items == old(ready.items)
    {
      hide List.Ok, Only, Distinct, Hashed, Apart, Rings;
      assert |wait| > 0 && running in threads by { RunningIsThread(); }
      ghost var was, t := waiting, running;
      LinkWaiter(channel);
      SnocDistinct(was, t);
      OneMoreEverywhere(was, t);
      waiting := waiting + [t];
      assert Bucketed();
      assert Alive();
      assert Placed();
    }

    /** pt_wait(), back to protothread_run().  No one waits for a dead thread
        afterwards exactly if the channel is no dead thread's address. */
    method FinishWaiting(channel: nat) returns (more: bool)
      requires Core() && running != null
      modifies this`running, this`waiting, wait[Index(channel)], threads`next, threads`home, running`channel
      ensures Core() && running == null
      ensures old(JoinsAlive()) ==> (JoinsAlive() <==> forall t :: t in threads && t.addr == channel ==> t.alive)
      ensures waiting == old(waiting) + [old(running)] && old(running).channel == channel
      ensures ready.items == old(ready.items) && more == (ready.items != [])
    {
      hide Core;
      assert |wait| > 0 && running in threads by { RunningIsThread(); }
      ghost var t := running;
      Park(channel);
      assert t in waiting && t.channel == channel;
      assert ready.Ok() by { ReadyIsOk(); }
      ready.Head();
      more := ready.newest != null;
    }

    lemma {:induction false} RunningIsThread()
      requires Core()
      ensures |wait| > 0 && (running != null ==> running in threads)
    {}

    lemma {:induction false} ReadyIsOk()
      requires Core()
      ensures ready.Ok()
    {}

    /** One pass of pt_join()'s loop: wait while the thread is alive. */
    method Join(t: Thread) returns (blocked: bool)
      requires Valid() && running != null && t in threads && t != running
      requires forall u :: u in threads && u.addr == t.addr ==> u == t
      modifies this`running, this`waiting, wait[Index(t.addr)], threads`next, threads`home, running`channel
      ensures Valid() && blocked == t.alive
      ensures blocked ==> running == null && waiting == old(waiting) + [old(running)]
      ensures !blocked ==> running == old(running) && waiting == old(waiting)
    {
      blocked := t.alive;
      if t.alive {
        var _ := FinishWaiting(t.addr);
      }
    }

    /** Once every waiter on an exited thread was woken, no join hangs on it. */
    twostate lemma {:induction false} JoinersGone(t: Thread)
      requires threads == old(threads) && t in threads && old(JoinsAlive())
      requires forall u :: u in threads ==> u.channel == old(u.channel) && (u.alive || u == t || !old(u.alive))
      requires waiting == Left(old(waiting), On(t.addr), false) && Distinct(old(waiting))
      ensures JoinsAlive()
    {
      BroadcastTakesAll(old(waiting), On(t.addr));
      LeftAndWoken(old(waiting), On(t.addr), false);
      forall w, u | w in waiting && w in threads && u in threads && w.channel == u.addr ensures u.alive {
        assert w in old(waiting);
        var k :| 0 <= k < |waiting| && waiting[k] == w;
        assert waiting[k] !in On(t.addr);
        assert w.channel != t.addr;
      }
    }

    /** Those waiting on the channel are made ready.  An empty wait list is not
        searched. */
    method WakeAll(channel: nat)
      requires Core()
      modifies this`waiting, ready, wait[Index(channel)], threads`next, threads`home
      ensures Core()
      ensures waiting == Left(old(waiting), On(channel), false)
      ensures ready.items == old(ready.items) + Woken(old(waiting), On(channel), false)
    {
      hide List.Ok, Only, Left, Woken;
      WaitersLinked();
      var wq := wait[Index(channel)];
      wq.Head();
      wq.SameMembers();
      if wq.newest != null {
        Wake(channel, false);
      } else {
        forall k | 0 <= k < |waiting| ensures waiting[k] !in On(channel) {
          assert waiting[k] in waiting;
        }
        NoneLeft(waiting, On(channel), false);
      }
    }

    /** A thread that is in no list exits, and those joining it are made ready. */
    method Depart(t: Thread)
      requires Valid() && t in threads && t != running && t !in ready.members && t !in waiting
      modifies this`waiting, ready, wait[Index(t.addr)], threads`next, threads`home, t`alive
      ensures Valid() && !t.alive
      ensures waiting == Left(old(waiting), On(t.addr), false)
      ensures ready.items == old(ready.items) + Woken(old(waiting), On(t.addr), false)
    {
      hide List.Ok, Only, Left, Woken, Rings, Bucketed, Placed;
      t.alive := false;
      WakeAll(t.addr);
      JoinersGone(t);
    }

    /** PT_DONE, back to protothread_run(). */
    method FinishDone() returns (more: bool)
      requires Valid() && running != null
      modifies this`running, this`waiting, ready, wait[Index(running.addr)], threads`next, threads`home, running`alive
      ensures Valid() && running == null && !old(running).alive
      ensures waiting == Left(old(waiting), On(old(running).addr), false)
      ensures ready.items == old(ready.items) + Woken(old(waiting), On(old(running).addr), false)
      ensures more == (ready.items != [])
    {
      hide List.Ok, Only, Left, Woken;
      WaitersLinked();
      var t: Thread := running;
      running := null;
      assert Rings() && Bucketed() && Placed();
      Depart(t);
      ReadyIsOk();
      ready.Head();
      more := ready.newest != null;
    }

    method LeaveReady(t: Thread) returns (found: bool)
      requires Core() && t in threads && t != running
      modifies ready, threads`next, threads`home
      ensures Core() && found == (t in old(ready.items))
      ensures ready.items == Without(old(ready.items), t) && t !in ready.members
    {
      hide List.Ok, Only, Without;
      WaitersLinked();
      found := ready.FindAndUnlink(t);
      ready.SameMembers();
      forall k | 0 <= k < |wait| ensures wait[k].items == Only(waiting, Hashed(k)) {
        assert Hashed(k) == old(Hashed(k));
      }
      assert Rings();
      assert Alive();
    }

    method LeaveBucket(t: Thread) returns (found: bool)
      requires Core() && t in threads && t != running && t !in ready.members
      modifies this`waiting, wait[Index(t.channel)], threads`next, threads`home
      ensures Core() && found == (t in old(waiting))
      ensures waiting == Without(old(waiting), t) && t !in ready.members
    {
      hide List.Ok, Only, Distinct, Without;
      WaitersLinked();
      ghost var b, was := Index(t.channel), waiting;
      OnlyMembers(was, Hashed(b));
      assert running != null ==> running !in wait[b].members;
      found := wait[Index(t.channel)].FindAndUnlink(t);
      waiting := Without(was, t);
      WithoutMembers(was, t);
      forall k | 0 <= k < |wait| ensures wait[k].items == Only(waiting, Hashed(k)) {
        assert Hashed(k) == old(Hashed(k));
        OnlyWithout(was, t, Hashed(k));
        if k != b {
          OnlyMembers(was, Hashed(k));
          NotThere(Only(was, Hashed(k)), t);
        }
      }
      assert Apart();
      assert Rings();
      assert Alive();
      assert Placed();
    }

    /** pt_kill()'s search: the ready list, then the wait list of its channel. */
    method Unschedule(t: Thread) returns (found: bool)
      requires Core() && t in threads && t != running
      modifies this`waiting, ready, wait[Index(t.channel)], threads`next, threads`home
      ensures Core() && found == (t in old(ready.items) || t in old(waiting))
      ensures ready.items == Without(old(ready.items), t) && waiting == Without(old(waiting), t)
      ensures t !in ready.members && t !in waiting
    {
      WaitersLinked();
      WithoutMembers(waiting, t);
      hide List.Ok, Without, Bucketed, Rings, Placed, Alive;
      found := LeaveReady(t);
      if found {
        NotThere(waiting, t);
      } else {
        NotThere(old(ready.items), t);
        found := LeaveBucket(t);
      }
    }

    /** The end of pt_kill(): the thread counts as exited, and those joining it
        are made ready. */
    method Bury(t: Thread)
      requires Valid() && t in threads && t != running && t !in ready.members && t !in waiting
      modifies this`waiting, ready, wait[Index(t.addr)], threads`next, threads`home, t`alive
      ensures Valid() && !t.alive
      ensures waiting == Left(old(waiting), On(t.addr), false)
      ensures ready.items == old(ready.items) + Woken(old(waiting), On(t.addr), false)
    {
      hide List.Ok, Only, Left, Woken, Rings, Bucketed, Placed;
      t.alive := false;
      Wake(t.addr, false);
      JoinersGone(t);
    }

    /** pt_kill(): the thread is unscheduled wherever it was and counts as
        exited; every other thread keeps its place, but those joining it are
        made ready. */
    method Kill(t: Thread) returns (killed: bool)
      requires Valid() && t in threads && t != running
      modifies this`waiting, ready, wait, threads`next, threads`home, t`alive
      ensures Valid() && killed == (t in old(ready.items) || t in old(waiting))
      ensures !killed ==> ready.items == old(ready.items) && waiting == old(waiting) && t.alive == old(t.alive)
      ensures killed ==> !t.alive
      ensures killed ==>
        var on, rest := On(t.addr), Without(old(waiting), t);
        waiting == Left(rest, on, false) &&
        ready.items == Without(old(ready.items), t) + Woken(rest, on, false)
    {
      hide List.Ok, Only, Left, Woken, Without, Rings, Bucketed, Placed, Alive;
      killed := Unschedule(t);
      if killed {
        WithoutMembersOf(t);
        Bury(t);
      } else {
        NotThere(old(waiting), t);
        NotThere(old(ready.items), t);
      }
    }

    /** Taking a thread out leaves no new waiter to join an exited one. */
    twostate lemma {:induction false} WithoutMembersOf(t: Thread)
      requires old(Core()) && old(JoinsAlive()) && threads == old(threads) && waiting == Without(old(waiting), t)
      requires forall u :: u in threads ==> u.channel == old(u.channel) && u.alive == old(u.alive)
      ensures JoinsAlive()
    {
      WithoutMembers(old(waiting), t);
    }
  }
}
