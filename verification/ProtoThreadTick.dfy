/** The daemon's tick (src/moonflared.c:412-417): one broadcast, then
    protothread_run() until nothing is ready. */
module ProtoThreadTick {
  import opened ProtoThreadLists
  import opened ProtoThreadQueue
  import opened ProtoThread

  /** What a thread does when it runs in this tick: it creates threads, which
      will run in this tick too, and then waits on the tick again or finishes
      (src/device/device.c:268-303, src/http/http_pt.c:554-623). */
  datatype Body = Body(thread: Thread, spawns: seq<Body>, again: bool)

  function ThreadsOf(jobs: seq<Body>): (ts: seq<Thread>)
    ensures |ts| == |jobs|
  {
    if jobs == [] then [] else [jobs[0].thread] + ThreadsOf(jobs[1..])
  }

  /** The threads that wait on the tick again. */
  function Again(jobs: seq<Body>): seq<Thread> {
    if jobs == [] then []
    else (if jobs[0].again then [jobs[0].thread] else []) + Again(jobs[1..])
  }

  /** How many runs there are in all. */
  function Runs(jobs: seq<Body>): nat {
    if jobs == [] then 0 else 1 + Runs(jobs[0].spawns) + Runs(jobs[1..])
  }

  lemma {:induction false} RunsAppend(a: seq<Body>, b: seq<Body>)
    ensures Runs(a + b) == Runs(a) + Runs(b)
  {
    if a == [] {
      assert a + b == b;
    } else {
      assert (a + b)[1..] == a[1..] + b;
      RunsAppend(a[1..], b);
    }
  }

  /** The order the ready list gives: run the oldest, append what it creates. */
  function RunOrder(jobs: seq<Body>): seq<Body>
    decreases Runs(jobs)
  {
    if jobs == [] then []
    else
      RunsAppend(jobs[1..], jobs[0].spawns);
      [jobs[0]] + RunOrder(jobs[1..] + jobs[0].spawns)
  }

  // ----- What that order is -----

  /** All that a list of bodies creates, in order. */
  function Created(jobs: seq<Body>): seq<Body> {
    if jobs == [] then [] else jobs[0].spawns + Created(jobs[1..])
  }

  lemma {:induction false} CreatedRuns(jobs: seq<Body>)
    ensures Runs(jobs) == |jobs| + Runs(Created(jobs))
  {
    if jobs != [] {
      CreatedRuns(jobs[1..]);
      RunsAppend(jobs[0].spawns, Created(jobs[1..]));
    }
  }

  /** Generation by generation. */
  function Generations(jobs: seq<Body>): seq<Body>
    decreases Runs(jobs)
  {
    if jobs == [] then []
    else
      CreatedRuns(jobs);
      jobs + Generations(Created(jobs))
  }

  lemma {:induction false} OrderOfTwo(a: seq<Body>, b: seq<Body>)
    ensures RunOrder(a + b) == a + RunOrder(b + Created(a))
    decreases |a|
  {
    if a == [] {
      assert a + b == b && b + Created(a) == b;
    } else {
      var rest := a[1..];
      assert (a + b)[1..] + a[0].spawns == rest + (b + a[0].spawns);
      OrderOfTwo(rest, b + a[0].spawns);
      assert b + a[0].spawns + Created(rest) == b + Created(a);
      assert a == [a[0]] + rest;
    }
  }

  /** Tick fairness: all parked threads run first, in parking order, then the
      threads they created, in creation order, and so on by generation. */
  lemma {:induction false} RunsByGeneration(jobs: seq<Body>)
    ensures RunOrder(jobs) == Generations(jobs)
    decreases Runs(jobs)
  {
    if jobs != [] {
      CreatedRuns(jobs);
      OrderOfTwo(jobs, []);
      assert jobs + [] == jobs && [] + Created(jobs) == Created(jobs);
      RunsByGeneration(Created(jobs));
    }
  }

  /** All bodies, each with its own below it. */
  function All(jobs: seq<Body>): multiset<Body> {
    if jobs == [] then multiset{}
    else multiset{jobs[0]} + All(jobs[0].spawns) + All(jobs[1..])
  }

  lemma {:induction false} AllAppend(a: seq<Body>, b: seq<Body>)
    ensures All(a + b) == All(a) + All(b)
  {
    if a == [] {
      assert a + b == b;
    } else {
      assert (a + b)[1..] == a[1..] + b;
      AllAppend(a[1..], b);
    }
  }

  lemma {:induction false} FirstRuns(jobs: seq<Body>, next: seq<Body>)
    requires jobs != [] && next == jobs[1..] + jobs[0].spawns && multiset(RunOrder(next)) == All(next)
    ensures multiset(RunOrder(jobs)) == All(jobs)
  {
    AllAppend(jobs[1..], jobs[0].spawns);
    assert RunOrder(jobs) == [jobs[0]] + RunOrder(next);
    assert multiset([jobs[0]] + RunOrder(next)) == multiset{jobs[0]} + multiset(RunOrder(next));
  }

  /** Each runs exactly once, and the tick ends after that many runs. */
  lemma {:induction false} EachRunsOnce(jobs: seq<Body>)
    ensures multiset(RunOrder(jobs)) == All(jobs)
    ensures |RunOrder(jobs)| == Runs(jobs)
    decreases Runs(jobs)
  {
    if jobs != [] {
      var next := jobs[1..] + jobs[0].spawns;
      RunsAppend(jobs[1..], jobs[0].spawns);
      EachRunsOnce(next);
      FirstRuns(jobs, next);
    }
  }

  // ----- The loop -----

  /** The threads still to be created. */
  function Below(jobs: seq<Body>): multiset<Thread> {
    if jobs == [] then multiset{}
    else multiset(ThreadsOf(jobs[0].spawns)) + Below(jobs[0].spawns) + Below(jobs[1..])
  }

  lemma {:induction false} FirstBody(jobs: seq<Body>)
    ensures Below([]) == multiset{} && ThreadsOf([]) == [] && Again([]) == []
    ensures jobs != [] ==>
      && Below(jobs) == multiset(ThreadsOf(jobs[0].spawns)) + Below(jobs[0].spawns) + Below(jobs[1..])
      && ThreadsOf(jobs) == [jobs[0].thread] + ThreadsOf(jobs[1..])
      && Again(jobs) == (if jobs[0].again then [jobs[0].thread] else []) + Again(jobs[1..])
  {}

  lemma {:induction false} BelowAppend(a: seq<Body>, b: seq<Body>)
    ensures Below(a + b) == Below(a) + Below(b)
    ensures ThreadsOf(a + b) == ThreadsOf(a) + ThreadsOf(b)
  {
    hide Again, Below, ThreadsOf;
    FirstBody(a);
    FirstBody(a + b);
    if a == [] {
      assert a + b == b;
    } else {
      assert (a + b)[1..] == a[1..] + b;
      BelowAppend(a[1..], b);
    }
  }

  /** New to the scheduler and told apart; no one joins anyone, and the tick is
      no thread's address. */
  ghost predicate Fresh(s: Scheduler, tick: nat, later: multiset<Thread>)
    reads s`threads, s`waiting, s`running, s.threads`channel, set t | t in later
  {
    && (forall t :: t in later ==>
          later[t] == 1 && t !in s.threads && t != s.running && t.home == null && t.addr != tick)
    && (forall t :: t in s.threads ==> t.addr != tick)
    && (forall w, t :: w in s.waiting && w in s.threads && t in s.threads ==> w.channel != t.addr)
    && (forall w, t :: w in s.waiting && w in s.threads && t in later ==> w.channel != t.addr)
  }

  lemma {:induction false} OneLess(t: Thread, ts: seq<Thread>, later: multiset<Thread>)
    ensures multiset([t] + ts) + later == multiset{t} + (multiset(ts) + later)
  {}

  method CreateOne(s: Scheduler, tick: nat, t: Thread, ghost rest: multiset<Thread>)
    requires s.Valid() && s.running != null
    requires Fresh(s, tick, multiset{t} + rest)
    modifies s`threads, s.ready, s.threads`next, t
    ensures s.Valid() && s.ready.items == old(s.ready.items) + [t]
    ensures s.threads == old(s.threads) + {t}
    ensures Fresh(s, tick, rest)
  {
    assert (multiset{t} + rest)[t] == 1 + rest[t];
    assert t !in rest;
    assert forall u :: u in rest ==> (multiset{t} + rest)[u] == rest[u];
    s.Create(t);
  }

  ghost function Crew(jobs: seq<Body>): set<Thread> {
    set t | t in ThreadsOf(jobs)
  }

  /** A running thread creates its threads, in order. */
  method CreateAll(s: Scheduler, tick: nat, jobs: seq<Body>, ghost later: multiset<Thread>)
    requires s.Valid() && s.running != null
    requires Fresh(s, tick, multiset(ThreadsOf(jobs)) + later)
    modifies s`threads, s.ready, s.threads`next, Crew(jobs)
    ensures s.Valid() && s.ready.items == old(s.ready.items) + ThreadsOf(jobs)
    ensures s.threads == old(s.threads) + Crew(jobs)
    ensures Fresh(s, tick, later)
  {
    hide Fresh, Scheduler.Valid, ThreadsOf, Crew;
    CrewOf(jobs, later);
    if jobs != [] {
      var t := jobs[0].thread;
      ghost var rest := multiset(ThreadsOf(jobs[1..])) + later;
      CreateOne(s, tick, t, rest);
      CreateAll(s, tick, jobs[1..], later);
    }
  }

  /** The threads still to be created, one by one. */
  lemma {:induction false} CrewOf(jobs: seq<Body>, later: multiset<Thread>)
    ensures jobs == [] ==> ThreadsOf(jobs) == [] && Crew(jobs) == {} && multiset(ThreadsOf(jobs)) + later == later
    ensures jobs != [] ==>
      && ThreadsOf(jobs) == [jobs[0].thread] + ThreadsOf(jobs[1..])
      && Crew(jobs) == {jobs[0].thread} + Crew(jobs[1..])
      && multiset(ThreadsOf(jobs)) + later == multiset{jobs[0].thread} + (multiset(ThreadsOf(jobs[1..])) + later)
  {
    if jobs != [] {
      OneLess(jobs[0].thread, ThreadsOf(jobs[1..]), later);
    }
  }

  /** Waking the tick's waiters and waking no joiner. */
  lemma {:induction false} NobodyJoins(s: Scheduler, tick: nat, t: Thread, later: multiset<Thread>)
    requires s.Valid() && Fresh(s, tick, later) && t in s.threads
    ensures Woken(s.waiting, s.On(t.addr), false) == []
    ensures Left(s.waiting, s.On(t.addr), false) == s.waiting
  {
    forall k | 0 <= k < |s.waiting| ensures s.waiting[k] !in s.On(t.addr) {
      assert s.waiting[k] in s.waiting;
    }
    NoneLeft(s.waiting, s.On(t.addr), false);
  }

  method ResumeOne(s: Scheduler, tick: nat, ghost later: multiset<Thread>)
    requires s.Valid() && s.running == null && s.ready.items != []
    requires Fresh(s, tick, later)
    modifies s`running, s.ready, s.threads`next, s.threads`home
    ensures s.Valid() && s.running == old(s.ready.items)[0] && s.running in s.threads
    ensures s.ready.items == old(s.ready.items)[1..]
    ensures Fresh(s, tick, later)
  {
    var _ := s.Resume();
  }

  method WaitAgain(s: Scheduler, tick: nat, ghost later: multiset<Thread>) returns (more: bool)
    requires s.Valid() && s.running != null && s.running in s.threads && Fresh(s, tick, later)
    modifies s`running, s`waiting, s.wait[s.Index(tick)], s.threads
    ensures s.Valid() && s.running == null && Fresh(s, tick, later)
    ensures s.ready.items == old(s.ready.items) && more == (s.ready.items != [])
    ensures s.waiting == old(s.waiting) + [old(s.running)]
  {
    more := s.FinishWaiting(tick);
  }

  method Exit(s: Scheduler, tick: nat, ghost later: multiset<Thread>) returns (more: bool)
    requires s.Valid() && s.running != null && s.running in s.threads && Fresh(s, tick, later)
    modifies s`running, s`waiting, s.ready, s.wait[s.Index(s.running.addr)], s.threads
    ensures s.Valid() && s.running == null && Fresh(s, tick, later)
    ensures s.ready.items == old(s.ready.items) && more == (s.ready.items != [])
    ensures s.waiting == old(s.waiting)
  {
    NobodyJoins(s, tick, s.running, later);
    ghost var addr, on := s.running.addr, s.On(s.running.addr);
    more := s.FinishDone();
    assert s.On(addr) == on;
  }

  method FinishOne(s: Scheduler, tick: nat, again: bool, ghost later: multiset<Thread>) returns (more: bool)
    requires s.Valid() && s.running != null && s.running in s.threads && Fresh(s, tick, later)
    modifies s`running, s`waiting, s.ready, (set l | l in s.wait), s.threads
    ensures s.Valid() && s.running == null && Fresh(s, tick, later)
    ensures s.ready.items == old(s.ready.items) && more == (s.ready.items != [])
    ensures s.waiting == old(s.waiting) + if again then [old(s.running)] else []
  {
    assert |s.wait| > 0;
    hide Fresh, Scheduler.Valid;
    if again {
      assert s.wait[s.Index(tick)] in s.wait;
      more := WaitAgain(s, tick, later);
    } else {
      assert s.wait[s.Index(s.running.addr)] in s.wait;
      more := Exit(s, tick, later);
    }
  }

  /** One protothread_run(): the oldest ready thread does what its body says. */
  method RunOne(s: Scheduler, tick: nat, job: Body, ghost later: multiset<Thread>) returns (more: bool)
    requires s.Valid() && s.running == null
    requires s.ready.items != [] && s.ready.items[0] == job.thread
    requires Fresh(s, tick, multiset(ThreadsOf(job.spawns)) + later)
    modifies s`running, s`waiting, s`threads, s.ready, (set l | l in s.wait), s.threads, Crew(job.spawns)
    ensures s.Valid() && s.running == null && Fresh(s, tick, later)
    ensures s.ready.items == old(s.ready.items)[1..] + ThreadsOf(job.spawns)
    ensures s.threads == old(s.threads) + Crew(job.spawns)
    ensures s.waiting == old(s.waiting) + if job.again then [job.thread] else []
    ensures more == (s.ready.items != [])
  {
    assert |s.wait| > 0;
    hide Fresh, Scheduler.Valid;
    ResumeOne(s, tick, multiset(ThreadsOf(job.spawns)) + later);
    CreateAll(s, tick, job.spawns, later);
    more := FinishOne(s, tick, job.again, later);
  }

  /** The threads of a tick that are not created yet. */
  ghost function Unborn(jobs: seq<Body>): set<Thread> {
    set t | t in Below(jobs)
  }

  lemma {:induction false} NextBelow(jobs: seq<Body>)
    requires jobs != []
    ensures Below(jobs) == multiset(ThreadsOf(jobs[0].spawns)) + Below(jobs[1..] + jobs[0].spawns)
    ensures Unborn(jobs) == Crew(jobs[0].spawns) + Unborn(jobs[1..] + jobs[0].spawns)
  {
    BelowAppend(jobs[1..], jobs[0].spawns);
  }

  /** One round of the tick's loop; `more` is what protothread_run() returns. */
  method TickStep(s: Scheduler, tick: nat, jobs: seq<Body>) returns (more: bool, next: seq<Body>)
    requires s.Valid() && s.running == null && Fresh(s, tick, Below(jobs))
    requires jobs != [] && s.ready.items == ThreadsOf(jobs)
    modifies s`running, s`waiting, s`threads, s.ready, (set l | l in s.wait), s.threads, Unborn(jobs)
    ensures s.Valid() && s.running == null && Fresh(s, tick, Below(next))
    ensures s.ready.items == ThreadsOf(next) && more == (next != [])
    ensures s.threads <= old(s.threads) + Unborn(jobs) && Unborn(next) <= Unborn(jobs)
    ensures Runs(next) < Runs(jobs)
    ensures RunOrder(jobs) == [jobs[0]] + RunOrder(next)
    ensures s.waiting == old(s.waiting) + Again(jobs[..1])
  {
    hide Fresh, Scheduler.Valid, Crew, Unborn, Below, ThreadsOf, Again, RunOrder, Runs;
    next := jobs[1..] + jobs[0].spawns;
    NextJobs(jobs);
    NextBelow(jobs);
    more := RunOne(s, tick, jobs[0], Below(next));
  }

  /** The ready list, the runs and the order, one body later. */
  lemma {:induction false} NextJobs(jobs: seq<Body>)
    requires jobs != []
    ensures var next := jobs[1..] + jobs[0].spawns;
      && ThreadsOf(jobs)[0] == jobs[0].thread && ThreadsOf(next) == ThreadsOf(jobs)[1..] + ThreadsOf(jobs[0].spawns)
      && Runs(next) < Runs(jobs) && RunOrder(jobs) == [jobs[0]] + RunOrder(next)
    ensures Again(jobs[..1]) == if jobs[0].again then [jobs[0].thread] else []
  {
    BelowAppend(jobs[1..], jobs[0].spawns);
    RunsAppend(jobs[1..], jobs[0].spawns);
    assert jobs[..1] == [jobs[0]] && [jobs[0]][1..] == [];
    assert ThreadsOf(jobs)[1..] == ThreadsOf(jobs[1..]);
  }

  lemma {:induction false} AgainAppend(a: seq<Body>, b: seq<Body>)
    ensures Again(a + b) == Again(a) + Again(b)
  {
    hide Again, Below, ThreadsOf;
    FirstBody(a);
    FirstBody(a + b);
    if a == [] {
      assert a + b == b;
    } else {
      assert (a + b)[1..] == a[1..] + b;
      AgainAppend(a[1..], b);
    }
  }

  lemma {:induction false} OneMoreRan(ran: seq<Body>, now: seq<Body>, rest: seq<Body>, all: seq<Body>)
    requires ran + (now + rest) == all
    ensures (ran + now) + rest == all
  {}

  /** while (protothread_run(s)) with the threads of jobs ready. */
  method RunReady(s: Scheduler, tick: nat, jobs: seq<Body>) returns (ghost ran: seq<Body>)
    requires s.Valid() && s.running == null && s.ready.items == ThreadsOf(jobs)
    requires Fresh(s, tick, Below(jobs))
    modifies s`running, s`waiting, s`threads, s.ready, (set l | l in s.wait), s.threads, Unborn(jobs)
    ensures s.Valid() && s.running == null && s.ready.items == []
    ensures ran == RunOrder(jobs) && s.waiting == old(s.waiting) + Again(ran)
  {
    hide Fresh, Scheduler.Valid, Crew, Unborn, Below, Again, RunOrder, ThreadsOf;
    NothingToRun();
    ghost var base := s.waiting;
    var pending := jobs;
    var more := true;
    ran := [];
    while more
      invariant s.Valid() && s.running == null && Fresh(s, tick, Below(pending))
      invariant s.ready.items == ThreadsOf(pending)
      invariant s.threads <= old(s.threads) + Unborn(jobs) && Unborn(pending) <= Unborn(jobs)
      invariant ran + RunOrder(pending) == RunOrder(jobs)
      invariant s.waiting == base + Again(ran)
      invariant !more ==> pending == []
      invariant |ThreadsOf(pending)| == |pending|
      decreases Runs(pending), more
    {
      ReadyHead(s);
      if s.ready.newest == null {
        more := false;
      } else {
        ghost var now := pending[..1];
        more, pending := TickStep(s, tick, pending);
        AgainAppend(ran, now);
        OneMoreRan(ran, now, RunOrder(pending), RunOrder(jobs));
        ran := ran + now;
      }
    }
    assert ran + [] == ran;
  }

  /** The tick.  With nothing ready and `jobs` parked on the tick, oldest first,
      it ends; every thread runs exactly once, the parked ones first and in
      parking order, then what they create (RunsByGeneration, EachRunsOnce);
      nothing is left ready, and those that wait again are parked in the order
      they ran, behind every other waiter. */
  method Tick(s: Scheduler, tick: nat, jobs: seq<Body>) returns (ghost ran: seq<Body>)
    requires s.Valid() && s.running == null && s.ready.items == []
    requires Woken(s.waiting, s.On(tick), false) == ThreadsOf(jobs)
    requires Fresh(s, tick, Below(jobs))
    modifies s`running, s`waiting, s`threads, s.ready, (set l | l in s.wait), s.threads, Unborn(jobs)
    ensures s.Valid() && s.running == null && s.ready.items == []
    ensures ran == RunOrder(jobs)
    ensures s.waiting == Left(old(s.waiting), old(s.On(tick)), false) + Again(ran)
  {
    hide Fresh, Scheduler.Valid, Woken, Left, Crew, Unborn, Below, Again, RunOrder, ThreadsOf;
    Broadcast(s, tick, Below(jobs));
    ran := RunReady(s, tick, jobs);
  }

  lemma {:induction false} ReadyHead(s: Scheduler)
    requires s.Valid()
    ensures s.ready.newest == null <==> s.ready.items == []
  {
    s.ready.Head();
  }

  lemma {:induction false} NothingToRun()
    ensures RunOrder([]) == [] && Again([]) == [] && ThreadsOf([]) == []
  {}

  method Broadcast(s: Scheduler, tick: nat, ghost later: multiset<Thread>)
    requires s.Valid() && s.running == null && s.ready.items == [] && Fresh(s, tick, later)
    modifies s`waiting, s.ready, (set l | l in s.wait), s.threads`next, s.threads`home
    ensures s.Valid() && Fresh(s, tick, later)
    ensures s.ready.items == Woken(old(s.waiting), old(s.On(tick)), false)
    ensures s.waiting == Left(old(s.waiting), old(s.On(tick)), false)
  {
    assert s.wait[s.Index(tick)] in s.wait;
    ghost var was, on := s.waiting, s.On(tick);
    s.Wake(tick, false);
    assert s.On(tick) == on;
    LeftAndWoken(was, on, false);
  }
}
